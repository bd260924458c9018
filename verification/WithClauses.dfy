/**
 Two things the compiler wants of WITH clauses and does not see to: a recursive CTE's seed
 should not read the CTE, and a column should belong to a FROM or JOIN source.
 */
module WithClauses {
  import opened Options
  import opened Ast
  import opened Scopes
  import opened Nullability
  import opened Grouping
  import opened Validation
  import opened Scoping
  import opened Render

  // ---- Recursive seeds -----------------------------------------------------------------------------------

  /** An earlier entry, or entry `i` itself, has the name, so the body of entry `i` means that one by it. */
  predicate Hides(ctes: seq<Cte>, i: nat, name: string)
    requires i < |ctes|
  {
    name in CteNames(ctes[..i]) || (ctes[i].recursive && ctes[i].name == name)
  }

  /** The query reads the CTE of this name that an enclosing WITH clause binds. */
  predicate Reads(select: Select, name: string, reading: Reading)
    decreases select, 1
  {
    || ReadsInBody(select, name, reading)
    || (name !in CteNames(select.ctes)
        && ((exists s :: s in Sources(select) && s == CteSource(name))
            || exists q :: q in InnerQueries(select) && Reads(q, name, reading)))
  }

  /** Some body of its own WITH clause does. */
  predicate ReadsInBody(select: Select, name: string, reading: Reading)
    decreases select, 0
  {
    exists i :: 0 <= i < |select.ctes| && !Hides(select.ctes, i, name)
                && (assert select.ctes[i] < select; CteReads(select.ctes[i], name, reading))
  }

  predicate CteReads(cte: Cte, name: string, reading: Reading)
    decreases cte, 1
  {
    match cte.query
    case SelectQuery(select) => Reads(select, name, reading)
    case _ => DmlReads(cte.query, name, reading)
  }

  predicate DmlReads(query: Query, name: string, reading: Reading)
    requires !query.SelectQuery?
    decreases query, 0
  {
    || (exists q :: q in InsertedQuery(query) && Reads(q, name, reading))
    || (exists q :: q in AllSubqueries(DmlExpressions(query)) && Reads(q, name, reading))
    || (reading.Thorough? && exists q :: q in ConflictSubqueries(query) && Reads(q, name, reading))
  }

  /** A query is resolved without a name exactly when it does not read it. */
  lemma {:induction false} UnreadIsNotNeeded(select: Select, ctes: set<string>, name: string, reading: Reading)
    requires Resolved(select, ctes + {name}, reading) && name !in ctes
    ensures Resolved(select, ctes, reading) <==> !Reads(select, name, reading)
    decreases select, 1
  {
    hide Resolved, Reads, ReadsInBody, Sources, InnerQueries, BodyScope, Hides, CteReads;
    var names := CteNames(select.ctes);
    forall i | 0 <= i < |select.ctes|
      ensures BodyIsResolved(select.ctes[i].query, BodyScope(select.ctes, i, ctes), reading) <==>
              Hides(select.ctes, i, name) || !CteReads(select.ctes[i], name, reading)
    {
      BodyNeeds(select, ctes, name, reading, i);
    }
    SourcesNeed(select, ctes, name, reading);
    if name !in names {
      forall q | q in InnerQueries(select)
        ensures Resolved(q, ctes + names, reading) <==> !Reads(q, name, reading)
      {
        ResolvedInner(select, ctes + {name}, reading, q);
        assert ctes + {name} + names == ctes + names + {name};
        UnreadIsNotNeeded(q, ctes + names, name, reading);
      }
    } else {
      forall q | q in InnerQueries(select) ensures Resolved(q, ctes + names, reading) {
        ResolvedInner(select, ctes + {name}, reading, q);
        assert ctes + {name} + names == ctes + names;
      }
    }
    Together(select, ctes, name, reading);
  }

  lemma BodyNeeds(select: Select, ctes: set<string>, name: string, reading: Reading, i: nat)
    requires Resolved(select, ctes + {name}, reading) && name !in ctes && i < |select.ctes|
    ensures BodyIsResolved(select.ctes[i].query, BodyScope(select.ctes, i, ctes), reading) <==>
            Hides(select.ctes, i, name) || !CteReads(select.ctes[i], name, reading)
    decreases select, 0, i
  {
    hide Resolved, ResolvedDml, Reads, DmlReads;
    var visible, cte := BodyScope(select.ctes, i, ctes), select.ctes[i];
    assert cte in select.ctes && cte < select;
    ResolvedBody(select, ctes + {name}, reading, i);
    if Hides(select.ctes, i, name) {
      assert BodyScope(select.ctes, i, ctes + {name}) == visible;
    } else {
      assert BodyScope(select.ctes, i, ctes + {name}) == visible + {name} && name !in visible;
      if cte.query.SelectQuery? {
        UnreadIsNotNeeded(cte.query.select, visible, name, reading);
      } else {
        UnreadInDml(cte.query, visible, name, reading);
      }
    }
  }

  lemma {:induction false} UnreadInDml(query: Query, ctes: set<string>, name: string, reading: Reading)
    requires !query.SelectQuery? && ResolvedDml(query, ctes + {name}, reading) && name !in ctes
    ensures ResolvedDml(query, ctes, reading) <==> !DmlReads(query, name, reading)
    decreases query, 0
  {
    hide Resolved, Reads, InsertedQuery, DmlExpressions, ConflictSubqueries;
    forall q | q in InsertedQuery(query) || q in AllSubqueries(DmlExpressions(query))
      ensures Resolved(q, ctes, reading) <==> !Reads(q, name, reading)
    {
      UnreadIsNotNeeded(q, ctes, name, reading);
    }
    if reading.Thorough? {
      forall q | q in ConflictSubqueries(query) ensures Resolved(q, ctes, reading) <==> !Reads(q, name, reading) {
        UnreadIsNotNeeded(q, ctes, name, reading);
      }
    }
  }

  lemma SourcesNeed(select: Select, ctes: set<string>, name: string, reading: Reading)
    requires Resolved(select, ctes + {name}, reading) && name !in ctes
    ensures BoundSources(SelectQuery(select), ctes) <==>
            name in CteNames(select.ctes) || !exists s :: s in Sources(select) && s == CteSource(name)
  {
    hide Sources, ChildScopes;
    assert BoundSources(SelectQuery(select), ctes + {name});
  }

  /** Resolved part by part. */
  lemma Together(select: Select, ctes: set<string>, name: string, reading: Reading)
    requires BoundSources(SelectQuery(select), ctes) <==>
             name in CteNames(select.ctes) || !exists s :: s in Sources(select) && s == CteSource(name)
    requires forall i :: 0 <= i < |select.ctes| ==>
      (BodyIsResolved(select.ctes[i].query, BodyScope(select.ctes, i, ctes), reading) <==>
       Hides(select.ctes, i, name) || !CteReads(select.ctes[i], name, reading))
    requires forall q :: q in InnerQueries(select) ==>
      (Resolved(q, ctes + CteNames(select.ctes), reading) <==> name in CteNames(select.ctes) || !Reads(q, name, reading))
    ensures Resolved(select, ctes, reading) <==> !Reads(select, name, reading)
  {
    hide Sources, InnerQueries, BodyScope, Hides, CteReads, Resolved, BodyIsResolved;
    if Resolved(select, ctes, reading) {
      PartsAreResolved(select, ctes, reading);
    } else if !Reads(select, name, reading) {
      forall i | 0 <= i < |select.ctes|
        ensures BodyIsResolved(select.ctes[i].query, BodyScope(select.ctes, i, ctes), reading)
      {
        UnreadBody(select, name, reading, i);
      }
      PartsResolve(select, ctes, reading);
    }
  }

  lemma UnreadBody(select: Select, name: string, reading: Reading, i: nat)
    requires !Reads(select, name, reading) && i < |select.ctes|
    ensures Hides(select.ctes, i, name) || !CteReads(select.ctes[i], name, reading)
  {
    hide Hides, CteReads, Sources, InnerQueries;
    assert !ReadsInBody(select, name, reading);
    assert select.ctes[i] < select;
  }

  lemma PartsAreResolved(select: Select, ctes: set<string>, reading: Reading)
    requires Resolved(select, ctes, reading)
    ensures BoundSources(SelectQuery(select), ctes)
    ensures forall i :: 0 <= i < |select.ctes| ==>
      BodyIsResolved(select.ctes[i].query, BodyScope(select.ctes, i, ctes), reading)
    ensures forall q :: q in InnerQueries(select) ==> Resolved(q, ctes + CteNames(select.ctes), reading)
  {
    hide InnerQueries, BodyScope, BoundSources, ChildScopes;
    forall i | 0 <= i < |select.ctes|
      ensures BodyIsResolved(select.ctes[i].query, BodyScope(select.ctes, i, ctes), reading)
    {
      ResolvedBody(select, ctes, reading, i);
    }
    forall q | q in InnerQueries(select) ensures Resolved(q, ctes + CteNames(select.ctes), reading) {
      ResolvedInner(select, ctes, reading, q);
    }
  }

  lemma PartsResolve(select: Select, ctes: set<string>, reading: Reading)
    requires BoundSources(SelectQuery(select), ctes)
    requires forall i :: 0 <= i < |select.ctes| ==>
      BodyIsResolved(select.ctes[i].query, BodyScope(select.ctes, i, ctes), reading)
    requires forall q :: q in InnerQueries(select) ==> Resolved(q, ctes + CteNames(select.ctes), reading)
    ensures Resolved(select, ctes, reading)
  {
    hide Resolved, InnerQueries, BodyScope, BodyIsResolved, Sources;
    ResolvedFromParts(select, ctes, reading);
  }

  /** A WITH clause inside the query reads the CTE. */
  predicate ReadsInWith(select: Select, name: string, reading: Reading)
    decreases select
  {
    || ReadsInBody(select, name, reading)
    || (name !in CteNames(select.ctes) && exists q :: q in InnerQueries(select) && ReadsInWith(q, name, reading))
  }

  /** What the compiler's search misses is read in a WITH clause. */
  lemma {:induction false} MissedInWith(select: Select, name: string, reading: Reading)
    ensures ReadsInWith(select, name, reading) ==> Reads(select, name, reading)
    ensures Reads(select, name, reading) ==> MentionsCte(select, name) || ReadsInWith(select, name, reading)
    decreases select
  {
    hide Sources, InnerQueries, ReadsInBody;
    forall q | q in InnerQueries(select)
      ensures ReadsInWith(q, name, reading) ==> Reads(q, name, reading)
      ensures Reads(q, name, reading) ==> MentionsCte(q, name) || ReadsInWith(q, name, reading)
    {
      MissedInWith(q, name, reading);
    }
  }

  lemma SeedIsResolved(body: Select, ctes: set<string>, reading: Reading)
    requires Resolved(body, ctes, reading)
    ensures Resolved(body.(compounds := []), ctes, reading)
  {
    hide Resolved, BodyScope, BodyIsResolved, Sources, InnerQueries;
    PartsAreResolved(body, ctes, reading);
    SeedParts(body);
    PartsResolve(body.(compounds := []), ctes, reading);
  }

  lemma SeedParts(body: Select)
    ensures var seed := body.(compounds := []);
      Sources(seed) == Sources(body) && forall q :: q in InnerQueries(seed) ==> q in InnerQueries(body)
  {
    var seed := body.(compounds := []);
    assert Sources(seed) == Sources(body);
    assert JoinPredicates(seed.joins) == JoinPredicates(body.joins);
    assert SelectExpressions(seed) == SelectExpressions(body);
    assert Arms(seed.compounds) == [];
  }

  /** A seed of the accepted shape does without its own CTE exactly when no WITH clause in it reads that. */
  lemma SeedIsExact(body: Select, name: string, before: set<string>, reading: Reading)
    requires RecursiveShape(body, name) && Resolved(body, before + {name}, reading) && name !in before
    ensures var seed := body.(compounds := []);
      Resolved(seed, before, reading) <==> !ReadsInWith(seed, name, reading)
  {
    hide Resolved, Reads, ReadsInWith, MentionsCte;
    var seed := body.(compounds := []);
    SeedIsResolved(body, before + {name}, reading);
    UnreadIsNotNeeded(seed, before, name, reading);
    MissedInWith(seed, name, reading);
  }

  /** So it is for every recursive CTE of an accepted statement, whose other arms are UNION ALL and mention it. */
  lemma AcceptedSeed(query: Query, dialect: Dialect, i: nat)
    requires Accepts(query, dialect) && query.SelectQuery? && i < |query.select.ctes| && query.select.ctes[i].recursive
    ensures query.select.ctes[i].query.SelectQuery?
    ensures var arms := query.select.ctes[i].query.select.compounds;
      && arms != []
      && forall k :: 0 <= k < |arms| ==> arms[k].operator == "union all" && MentionsCte(arms[k].query, query.select.ctes[i].name)
    ensures var seed := query.select.ctes[i].query.select.(compounds := []);
      Resolved(seed, CteNames(query.select.ctes[..i]), Strict) <==> !ReadsInWith(seed, query.select.ctes[i].name, Strict)
  {
    hide Resolved, ReadsInWith, SelectRules, AcceptsSelect, EveryNested, BoundSources;
    var select := query.select;
    var cte, before := select.ctes[i], CteNames(select.ctes[..i]);
    AcceptedBody(select, dialect, {}, i);
    OutermostIsBound(query, dialect);
    FirstPassIsStrict(select, {});
    ResolvedBody(select, {}, Strict, i);
    assert BodyScope(select.ctes, i, {}) == before + {cte.name};
    SeedIsExact(cte.query.select, cte.name, before, Strict);
    ArmsRecur(cte.query.select, cte.name);
  }

  lemma ArmsRecur(body: Select, name: string)
    requires RecursiveShape(body, name)
    ensures body.compounds != []
    ensures forall k :: 0 <= k < |body.compounds| ==>
      body.compounds[k].operator == "union all" && MentionsCte(body.compounds[k].query, name)
  {
    hide MentionsCte;
    forall k | 0 <= k < |body.compounds| ensures body.compounds[k] in body.compounds {
    }
  }

  lemma AcceptedBody(select: Select, dialect: Dialect, outer: set<string>, i: nat)
    requires AcceptsSelect(select, dialect, outer) && i < |select.ctes| && select.ctes[i].recursive
    ensures select.ctes[i].query.SelectQuery? && RecursiveShape(select.ctes[i].query.select, select.ctes[i].name)
    ensures select.ctes[i].name !in CteNames(select.ctes[..i])
  {
    hide SourcesVisible, LocksAllowed, AnalyticClauses, AcceptsGrouping, RecursiveShape, SelectExpressions, Sources;
    assert AcceptsCte(select.ctes[i], dialect, outer + CteNames(select.ctes[..i]));
  }

  lemma OutermostIsBound(query: Query, dialect: Dialect)
    requires Accepts(query, dialect) && query.SelectQuery?
    ensures FirstPass(query.select, {})
  {
    hide EveryNested;
    assert {} + CteNames(query.select.ctes) == CteNames(query.select.ctes);
    assert SourcesVisible(query.select, {} + CteNames(query.select.ctes));
  }

  // ---- A seed that reads itself ----------------------------------------------------------------------------

  /** `[with ctes] select 1 from source [compounds]`. */
  function Plain(source: Source, ctes: seq<Cte>, compounds: seq<Compound>): Select {
    Select([Bound(Int(1))], Some(source), [], None, [], None, [], None, None, false, ctes, compounds, [])
  }

  predicate Distinct(ctes: seq<Cte>) {
    forall i, j :: 0 <= i < j < |ctes| ==> ctes[i].name != ctes[j].name
  }

  lemma PlainParts(source: Source, ctes: seq<Cte>, compounds: seq<Compound>)
    ensures var select := Plain(source, ctes, compounds);
      && Sources(select) == [source] && SelectExpressions(select) == [Bound(Int(1))]
      && AllSubqueries(SelectExpressions(select)) == []
      && DerivedQueries([source]) == (if source.Derived? then [source.query] else [])
      && InnerQueries(select) == (if source.Derived? then [source.query] else []) + Arms(compounds)
  {
    var select, one := Plain(source, ctes, compounds), Bound(Int(1));
    LeafWalk(one);
    assert Sources(select) == [source] && [source][1..] == [];
    assert SelectExpressions(select) == [one] && [one][1..] == [];
    assert Subqueries(one) == [];
    assert AllSubqueries([one]) == Subqueries(one) + [];
  }

  lemma PlainRules(source: Source, ctes: seq<Cte>, compounds: seq<Compound>, dialect: Dialect, visible: set<string>)
    requires source.CteSource? ==> source.name in visible
    requires Distinct(ctes)
    requires forall c :: c in compounds ==> exists s :: c.query == Plain(s, [], [])
    ensures SelectRules(Plain(source, ctes, compounds), dialect, visible)
  {
    var select, bare := Plain(source, ctes, compounds), Simple(source, None);
    SimpleRules(source, None, dialect, visible);
    SameRules(select, bare, dialect, visible);
  }

  /** WITH clauses and arms do not matter to the other rules of a SELECT without locks. */
  lemma SameRules(select: Select, bare: Select, dialect: Dialect, visible: set<string>)
    requires bare == select.(ctes := [], compounds := []) && SelectRules(bare, dialect, visible)
    requires bare.locks == [] && Distinct(select.ctes)
    requires CompoundShape(select) && forall c :: c in select.compounds ==> c.query.locks == []
    ensures SelectRules(select, dialect, visible)
  {
    hide SourcesVisible, ExpressionsDialect, AnalyticClauses, AcceptsGrouping, SelectExpressions;
    SameSources(select, bare, visible);
    SameGrouping(select, bare);
    SameExpressions(select, bare);
  }

  lemma SameSources(select: Select, bare: Select, visible: set<string>)
    requires bare == select.(ctes := [], compounds := []) && SourcesVisible(bare, visible)
    ensures SourcesVisible(select, visible)
  {
    hide ReferencedSources, NullableResultSources, Extended;
    assert Sources(select) == Sources(bare) && RowExpressions(select) == RowExpressions(bare);
    assert Kinds(select) == Kinds(bare);
    forall k: nat | k <= |select.joins| ensures ReferenceAt(select, k) == ReferenceAt(bare, k) {
    }
    assert NullExtended(select) == NullExtended(bare);
    forall k: nat | k <= |select.joins| ensures VisibleReferences(select, k) == VisibleReferences(bare, k) {
    }
  }

  lemma SameGrouping(select: Select, bare: Select)
    requires bare == select.(ctes := [], compounds := []) && AnalyticClauses(bare) && AcceptsGrouping(bare)
    ensures AnalyticClauses(select) && AcceptsGrouping(select)
  {
    hide UngroupedColumns, ContainsAnalytic, NestsAggregates;
    assert GroupedExpressions(select) == GroupedExpressions(bare) && LocalSources(select) == LocalSources(bare);
  }

  lemma SameExpressions(select: Select, bare: Select)
    requires bare == select.(ctes := [], compounds := [])
    ensures SelectExpressions(select) == SelectExpressions(bare)
  {
    assert JoinPredicates(select.joins) == JoinPredicates(bare.joins);
  }

  // The parts of `with recursive t as (select 1 from (with x as (select 1 from t) select 1 from x) d
  // union all select 1 from t) select 1 from t`.

  function ReadsT(): Select {
    Plain(CteSource("t"), [], [])
  }

  function ReadsX(): Select {
    Plain(CteSource("x"), [Cte("x", SelectQuery(ReadsT()), false, false)], [])
  }

  function SelfSeeded(): Select {
    Plain(Derived(ReadsX(), "d"), [], [Compound("union all", ReadsT())])
  }

  function Looping(): Select {
    Plain(CteSource("t"), [Cte("t", SelectQuery(SelfSeeded()), true, false)], [])
  }

  lemma PlainAccepted(source: Source, ctes: seq<Cte>, compounds: seq<Compound>, dialect: Dialect, outer: set<string>)
    requires Distinct(ctes)
    requires source.CteSource? ==> source.name in outer + CteNames(ctes)
    requires forall c :: c in compounds ==> exists s :: c.query == Plain(s, [], [])
    requires forall i :: 0 <= i < |ctes| ==> AcceptsCte(ctes[i], dialect, outer + CteNames(ctes[..i]))
    requires source.Derived? ==> AcceptsSelect(source.query, dialect, outer + CteNames(ctes))
    requires forall c :: c in compounds ==> AcceptsSelect(c.query, dialect, outer + CteNames(ctes))
    ensures AcceptsSelect(Plain(source, ctes, compounds), dialect, outer)
  {
    hide SelectRules, SelectExpressions, Sources, AllSubqueries, AcceptsCte, Distinct;
    PlainParts(source, ctes, compounds);
    PlainRules(source, ctes, compounds, dialect, outer + CteNames(ctes));
    forall q | q in Arms(compounds) ensures exists c :: c in compounds && c.query == q {
      var k :| 0 <= k < |compounds| && Arms(compounds)[k] == q;
      assert compounds[k] in compounds;
    }
    assert forall q :: q in DerivedQueries([source]) ==> source.Derived? && q == source.query;
    AcceptedParts(source, ctes, compounds, dialect, outer);
  }

  lemma AcceptedParts(source: Source, ctes: seq<Cte>, compounds: seq<Compound>, dialect: Dialect, outer: set<string>)
    requires var select := Plain(source, ctes, compounds);
      && SelectRules(select, dialect, outer + CteNames(ctes))
      && (forall q :: q in DerivedQueries(Sources(select)) ==> AcceptsSelect(q, dialect, outer + CteNames(ctes)))
      && AllSubqueries(SelectExpressions(select)) == []
    requires forall i :: 0 <= i < |ctes| ==> AcceptsCte(ctes[i], dialect, outer + CteNames(ctes[..i]))
    requires forall q :: q in Arms(compounds) ==> AcceptsSelect(q, dialect, outer + CteNames(ctes))
    ensures AcceptsSelect(Plain(source, ctes, compounds), dialect, outer)
  {
    hide SelectRules, SelectExpressions, Sources, AllSubqueries, AcceptsCte, CteNames, Arms, DerivedQueries;
  }

  lemma LoopingAccepted(dialect: Dialect)
    ensures AcceptsSelect(Looping(), dialect, {})
  {
    hide AcceptsSelect, RecursiveShape;
    var x, t := Cte("x", SelectQuery(ReadsT()), false, false), Cte("t", SelectQuery(SelfSeeded()), true, false);
    var visible: set<string> := {} + CteNames([]) + {"t"};
    assert "t" in visible;
    PlainAccepted(CteSource("t"), [], [], dialect, visible + CteNames([]));
    PlainAccepted(CteSource("t"), [], [], dialect, visible + CteNames([]) + CteNames([]));
    assert visible + CteNames([]) + CteNames([x][..0]) + {} == visible + CteNames([]) + CteNames([]);
    assert AcceptsCte(x, dialect, visible + CteNames([]) + CteNames([x][..0]));
    assert x in [x];
    PlainAccepted(CteSource("x"), [x], [], dialect, visible + CteNames([]));
    PlainAccepted(Derived(ReadsX(), "d"), [], [Compound("union all", ReadsT())], dialect, visible);
    SelfSeededShape();
    assert {} + CteNames([t][..0]) + {"t"} == visible;
    assert AcceptsCte(t, dialect, {} + CteNames([t][..0]));
    assert t in [t];
    PlainAccepted(CteSource("t"), [t], [], dialect, {});
  }

  lemma SelfSeededShape()
    ensures RecursiveShape(SelfSeeded(), "t")
  {
    hide InnerQueries, Sources, SelectExpressions, MentionsCte;
    Unmentioned();
    assert SelfSeeded().(compounds := []) == Plain(Derived(ReadsX(), "d"), [], []);
  }

  lemma Unmentioned()
    ensures !MentionsCte(Plain(Derived(ReadsX(), "d"), [], []), "t") && MentionsCte(ReadsT(), "t")
  {
    hide InnerQueries, Sources, SelectExpressions, ReadsX, ReadsT;
    PlainParts(Derived(ReadsX(), "d"), [], []);
    assert Arms([]) == [];
    XIsUnmentioned();
    TIsMentioned();
    var seed := Plain(Derived(ReadsX(), "d"), [], []);
    assert InnerQueries(seed) == [ReadsX()] && Sources(seed) == [Derived(ReadsX(), "d")];
  }

  lemma XIsUnmentioned()
    ensures !MentionsCte(ReadsX(), "t")
  {
    hide InnerQueries, Sources, SelectExpressions, ReadsT;
    PlainParts(CteSource("x"), [Cte("x", SelectQuery(ReadsT()), false, false)], []);
    assert Arms([]) == [];
    assert Sources(ReadsX()) == [CteSource("x")] && InnerQueries(ReadsX()) == [];
  }

  lemma TIsMentioned()
    ensures MentionsCte(ReadsT(), "t") && Reads(ReadsT(), "t", Strict)
  {
    hide InnerQueries, Sources, SelectExpressions;
    PlainParts(CteSource("t"), [], []);
    assert CteSource("t") in [CteSource("t")];
    assert CteSource("t") in Sources(ReadsT());
  }

  lemma PlainResolved(source: Source, ctes: seq<Cte>, compounds: seq<Compound>, visible: set<string>)
    requires source.CteSource? ==> source.name in visible + CteNames(ctes)
    requires forall i :: 0 <= i < |ctes| ==> BodyIsResolved(ctes[i].query, BodyScope(ctes, i, visible), Strict)
    requires source.Derived? ==> Resolved(source.query, visible + CteNames(ctes), Strict)
    requires forall i :: 0 <= i < |compounds| ==> Resolved(compounds[i].query, visible + CteNames(ctes), Strict)
    ensures Resolved(Plain(source, ctes, compounds), visible, Strict)
  {
    hide InnerQueries, Sources, SelectExpressions, Resolved, BodyIsResolved, BodyScope, BoundSources, CteNames, Arms;
    var select := Plain(source, ctes, compounds);
    PlainParts(source, ctes, compounds);
    PlainIsBound(source, ctes, compounds, visible);
    forall q | q in InnerQueries(select) ensures Resolved(q, visible + CteNames(ctes), Strict) {
      if q in Arms(compounds) {
        var i := ArmAt(compounds, q);
      }
    }
    PartsResolve(select, visible, Strict);
  }

  lemma ArmAt(compounds: seq<Compound>, q: Select) returns (i: nat)
    requires q in Arms(compounds)
    ensures i < |compounds| && compounds[i].query == q
  {
    i :| 0 <= i < |compounds| && Arms(compounds)[i] == q;
  }

  lemma PlainIsBound(source: Source, ctes: seq<Cte>, compounds: seq<Compound>, visible: set<string>)
    requires source.CteSource? ==> source.name in visible + CteNames(ctes)
    ensures BoundSources(SelectQuery(Plain(source, ctes, compounds)), visible)
  {
    hide Sources, SelectExpressions, InnerQueries;
    PlainParts(source, ctes, compounds);
  }

  lemma LoopingResolved()
    ensures Resolved(Looping(), {}, Strict)
  {
    hide Resolved;
    var x, t := Cte("x", SelectQuery(ReadsT()), false, false), Cte("t", SelectQuery(SelfSeeded()), true, false);
    PlainResolved(CteSource("t"), [], [], BodyScope([x], 0, BodyScope([t], 0, {}) + CteNames([])));
    PlainResolved(CteSource("t"), [], [], BodyScope([t], 0, {}) + CteNames([]));
    assert x in [x] && t in [t];
    PlainResolved(CteSource("x"), [x], [], BodyScope([t], 0, {}) + CteNames([]));
    PlainResolved(Derived(ReadsX(), "d"), [], [Compound("union all", ReadsT())], BodyScope([t], 0, {}));
    PlainResolved(CteSource("t"), [t], [], {});
  }

  lemma PlainReadsOnly(source: Source, ctes: seq<Cte>, compounds: seq<Compound>, visible: set<string>)
    requires forall i :: 0 <= i < |ctes| ==> ctes[i].query.SelectQuery? && NoDmlBodies(ctes[i].query, {})
                                             && EveryNested(ctes[i].query.select, BodyScope(ctes, i, visible), NoDmlBodies)
    requires source.Derived? ==> NoDmlBodies(SelectQuery(source.query), {})
                                 && EveryNested(source.query, visible + CteNames(ctes), NoDmlBodies)
    requires forall i :: 0 <= i < |compounds| ==> NoDmlBodies(SelectQuery(compounds[i].query), {})
                                                  && EveryNested(compounds[i].query, visible + CteNames(ctes), NoDmlBodies)
    ensures EveryNested(Plain(source, ctes, compounds), visible, NoDmlBodies)
  {
    hide InnerQueries, Sources, SelectExpressions, BodyScope, NoDmlBodies;
    var select := Plain(source, ctes, compounds);
    PlainParts(source, ctes, compounds);
    SameEverywhere();
    forall s | s in ChildScopes(select, visible)
      ensures s.query.SelectQuery? && NoDmlBodies(s.query, s.visible) && EveryNested(s.query.select, s.visible, NoDmlBodies)
    {
      hide EveryNested;
      if s in BodyScopes(ctes, visible) {
        var i :| 0 <= i < |ctes| && s == BodyScopes(ctes, visible)[i];
      }
    }
  }

  lemma SameEverywhere()
    ensures forall query, a, b :: NoDmlBodies(query, a) ==> NoDmlBodies(query, b)
  {
  }

  lemma LoopingReadsOnly()
    ensures EveryNested(Looping(), {}, NoDmlBodies)
  {
    hide EveryNested;
    var x, t := Cte("x", SelectQuery(ReadsT()), false, false), Cte("t", SelectQuery(SelfSeeded()), true, false);
    PlainReadsOnly(CteSource("t"), [], [], BodyScope([x], 0, BodyScope([t], 0, {}) + CteNames([])));
    PlainReadsOnly(CteSource("t"), [], [], BodyScope([t], 0, {}) + CteNames([]));
    PlainReadsOnly(CteSource("x"), [x], [], BodyScope([t], 0, {}) + CteNames([]));
    PlainReadsOnly(Derived(ReadsX(), "d"), [], [Compound("union all", ReadsT())], BodyScope([t], 0, {}));
    PlainReadsOnly(CteSource("t"), [t], [], {});
  }

  /** The compiler accepts a recursive CTE whose seed reads the CTE it defines. */
  lemma SeedEscapes(dialect: Dialect)
    ensures Accepts(SelectQuery(Looping()), dialect)
    ensures var seed := SelfSeeded().(compounds := []);
      ReadsInWith(seed, "t", Strict) && !Resolved(seed, {}, Strict)
  {
    hide AcceptsSelect, Resolved, ReadsInWith, EveryNested, BoundSources, RecursiveShape;
    LoopingAccepted(dialect);
    LoopingReadsOnly();
    LoopingResolved();
    FirstPassIsStrict(Looping(), {});
    SeedReadsItself();
    SelfSeededShape();
    BodyOfLooping();
    SeedIsExact(SelfSeeded(), "t", {}, Strict);
  }

  lemma BodyOfLooping()
    ensures Resolved(SelfSeeded(), {} + {"t"}, Strict)
  {
    hide Resolved;
    LoopingResolved();
    ResolvedBody(Looping(), {}, Strict, 0);
    assert BodyScope(Looping().ctes, 0, {}) == {} + {"t"};
  }

  lemma SeedReadsItself()
    ensures ReadsInWith(SelfSeeded().(compounds := []), "t", Strict)
  {
    hide InnerQueries, Sources, SelectExpressions, ReadsX, ReadsT, ReadsInBody;
    var seed := Plain(Derived(ReadsX(), "d"), [], []);
    assert SelfSeeded().(compounds := []) == seed;
    PlainParts(Derived(ReadsX(), "d"), [], []);
    XReadsT();
    assert ReadsX() in [ReadsX()] + Arms([]);
    assert ReadsX() in InnerQueries(seed);
  }

  lemma XReadsT()
    ensures ReadsInWith(ReadsX(), "t", Strict)
  {
    hide InnerQueries, Sources, SelectExpressions, ReadsT, Reads;
    var x := Cte("x", SelectQuery(ReadsT()), false, false);
    TIsMentioned();
    assert ReadsX().ctes == [x] && [x][..0] == [] && CteNames([]) == {};
    assert !Hides([x], 0, "t") && CteReads(x, "t", Strict);
    assert ReadsInBody(ReadsX(), "t", Strict);
  }

  // ---- Columns of a CTE that no FROM clause names -----------------------------------------------------------

  /** `with c as (select 1 from t) select c.x from t`. */
  function Misplaced(): Select {
    var table := Stored(Table("t", None, None));
    Plain(table, [Cte("c", SelectQuery(Plain(table, [], [])), false, false)], []).(selections := [Column("c", "x")])
  }

  lemma MisplacedParts()
    ensures Sources(Misplaced()) == [Stored(Table("t", None, None))] && RowExpressions(Misplaced()) == [Column("c", "x")]
    ensures SelectExpressions(Misplaced()) == [Column("c", "x")] && AllSubqueries(SelectExpressions(Misplaced())) == []
    ensures DerivedQueries(Sources(Misplaced())) == [] && InnerQueries(Misplaced()) == []
    ensures GroupedExpressions(Misplaced()) == [Column("c", "x")]
    ensures LocalSources(Misplaced()) == {"t"} && CteNames(Misplaced().ctes) == {"c"}
  {
    var column, table := Column("c", "x"), Stored(Table("t", None, None));
    LeafWalk(column);
    assert [table][1..] == [] && [column][1..] == [];
    assert Sources(Misplaced()) == [table];
    assert SelectExpressions(Misplaced()) == [column];
    assert Subqueries(column) == [];
    assert AllSubqueries([column]) == Subqueries(column) + [];
    assert Arms([]) == [];
  }

  lemma MisplacedSources()
    ensures SourcesVisible(Misplaced(), {} + {"c"}) && ReferencedSources(Column("c", "x")) == {"c"}
  {
    hide Sources, RowExpressions, Walk;
    LeafWalk(Column("c", "x"));
    MisplacedParts();
    assert Kinds(Misplaced()) == [];
    assert VisibleReferences(Misplaced(), 0) == {"t"} by {
      assert ReferenceAt(Misplaced(), 0) == "t";
    }
  }

  lemma MisplacedRules(dialect: Dialect)
    ensures SelectRules(Misplaced(), dialect, {} + {"c"})
  {
    hide Sources, RowExpressions, SelectExpressions, GroupedExpressions, Walk, SourcesVisible;
    var column := Column("c", "x");
    LeafWalk(column);
    MisplacedParts();
    MisplacedSources();
    assert !ContainsAnalytic(column, true, false) && NestsAggregates(column, false);
  }

  /** The compiler accepts a column qualified by a CTE that no FROM or JOIN names. */
  lemma CteNameEscapes(dialect: Dialect)
    ensures Accepts(SelectQuery(Misplaced()), dialect)
    ensures Misplaced().selections == [Column("c", "x")] && "c" !in SourceNames(Misplaced(), |Misplaced().joins|)
  {
    hide AcceptsSelect, EveryNested, SelectRules, Resolved, Sources, SelectExpressions, RowExpressions, InnerQueries;
    var table := Stored(Table("t", None, None));
    var c := Cte("c", SelectQuery(Plain(table, [], [])), false, false);
    MisplacedParts();
    MisplacedRules(dialect);
    PlainAccepted(table, [], [], dialect, {} + CteNames([c][..0]) + {});
    MisplacedAccepted(dialect);
    MisplacedNested();
  }

  lemma MisplacedAccepted(dialect: Dialect)
    requires var c := Misplaced().ctes[0];
      c.query.SelectQuery? && AcceptsSelect(c.query.select, dialect, {} + CteNames([c][..0]) + {})
    ensures AcceptsSelect(Misplaced(), dialect, {})
  {
    MisplacedParts();
    MisplacedRules(dialect);
    hide SelectRules, Sources, SelectExpressions, DerivedQueries, AllSubqueries, InnerQueries;
    var c := Misplaced().ctes[0];
    assert Misplaced().ctes == [c];
    assert Arms(Misplaced().compounds) == [];
    assert AcceptsCte(c, dialect, {} + CteNames([c][..0])) by {
      hide AcceptsSelect;
    }
  }

  lemma MisplacedNested()
    ensures PlacesDmlOutermost(SelectQuery(Misplaced())) && NestedCtesVisible(SelectQuery(Misplaced()))
  {
    hide EveryNested, Resolved, BodyScope;
    var table := Stored(Table("t", None, None));
    var c := Cte("c", SelectQuery(Plain(table, [], [])), false, false);
    PlainReadsOnly(table, [], [], BodyScope([c], 0, {}));
    PlainResolved(table, [], [], BodyScope([c], 0, {}));
    MisplacedScopes();
    FirstPassIsStrict(Misplaced(), {});
    FirstPassIsStrict(Plain(table, [], []), BodyScope([c], 0, {}));
    MisplacedEvery();
  }

  lemma MisplacedScopes()
    ensures var c := Cte("c", SelectQuery(Plain(Stored(Table("t", None, None)), [], [])), false, false);
      ChildScopes(Misplaced(), {}) == [Scope(c.query, BodyScope([c], 0, {}))]
  {
    hide BodyScope, InnerQueries;
    MisplacedParts();
    var c := Misplaced().ctes[0];
    assert Misplaced().ctes == [c];
    assert BodyScopes([c], {}) == [Scope(c.query, BodyScope([c], 0, {}))];
    assert SelectScopes([], {} + CteNames([c])) == [];
  }

  lemma MisplacedEvery()
    requires var c := Cte("c", SelectQuery(Plain(Stored(Table("t", None, None)), [], [])), false, false);
      && ChildScopes(Misplaced(), {}) == [Scope(c.query, BodyScope([c], 0, {}))]
      && EveryNested(c.query.select, BodyScope([c], 0, {}), NoDmlBodies)
      && FirstPass(c.query.select, BodyScope([c], 0, {}))
    ensures PlacesDmlOutermost(SelectQuery(Misplaced())) && NestedCtesVisible(SelectQuery(Misplaced()))
  {
    hide ChildScopes, BodyScope, BoundSources;
  }
}

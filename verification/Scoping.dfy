/**
 Scoping as SQL means it, with CTE names and column sources kept apart, and the proof
 that the compiler's two passes, which mix them, establish it together.
 */
module Scoping {
  import opened Options
  import opened Ast
  import opened Scopes
  import opened Nullability
  import opened Grouping
  import opened Validation
  import opened Render

  /**
   How CTE sources are read.  Strictly, one is taken only from the names that enclosing WITH
   clauses have bound; loosely, it is confused with the other names.  The compiler's first
   pass does not visit conflict predicates, so a strict reading is loose there and a thorough
   one is not.
   */
  datatype Reading = Loose | Strict | Thorough

  function Conflicting(reading: Reading): Reading {
    if reading.Thorough? then Thorough else Loose
  }

  /** The names of FROM and of the first `n` joins. */
  function SourceNames(select: Select, n: nat): set<string> {
    (if select.base.Some? then {select.base.value.Reference()} else {})
    + set j | 0 <= j < n && j < |select.joins| :: select.joins[j].source.Reference()
  }

  /** What the body of entry `i` may read: the entries before it, and itself when it is recursive. */
  function BoundBefore(ctes: seq<Cte>, i: nat, outer: set<string>): set<string>
    requires i < |ctes|
  {
    outer + (set j | 0 <= j < i :: ctes[j].name) + if ctes[i].recursive then {ctes[i].name} else {}
  }

  /**
   Every column the expression holds, outside nested SELECTs, comes from one of `sources`, and
   every SELECT it nests is scoped.
   */
  predicate ScopedExpression(e: Node, sources: set<string>, ctes: set<string>, columns: set<string>, reading: Reading)
    decreases e, 1
  {
    forall n :: n in Walk(e) ==>
      && (n.Column? ==> n.source in sources)
      && (n.ScalarSubquery? || n.Exists? || n.InQuery? ==> ScopedSelect(n.query, ctes, columns, reading))
  }

  predicate ScopedAll(nodes: seq<Node>, sources: set<string>, ctes: set<string>, columns: set<string>, reading: Reading)
    decreases nodes
  {
    forall i :: 0 <= i < |nodes| ==> ScopedExpression(nodes[i], sources, ctes, columns, reading)
  }

  predicate ScopedOption(node: Option<Node>, sources: set<string>, ctes: set<string>, columns: set<string>, reading: Reading)
    decreases node
  {
    node.Some? ==> ScopedExpression(node.value, sources, ctes, columns, reading)
  }

  predicate ScopedOrder(order: Order, sources: set<string>, ctes: set<string>, columns: set<string>, reading: Reading)
    decreases order
  {
    ScopedExpression(order.expression, sources, ctes, columns, reading)
  }

  predicate ScopedSource(source: Source, ctes: set<string>, columns: set<string>, reading: Reading)
    decreases source
  {
    match source
    case Stored(_) => true
    case CteSource(name) => name in if reading.Loose? then ctes + columns else ctes
    case Derived(query, _) => ScopedSelect(query, ctes, columns, reading)
  }

  predicate ScopedJoin(join: Join, sources: set<string>, ctes: set<string>, columns: set<string>, inside: set<string>,
                       reading: Reading)
    decreases join
  {
    ScopedSource(join.source, ctes, columns, reading) && ScopedExpression(join.on, sources, ctes, inside, reading)
  }

  predicate ScopedCompound(compound: Compound, ctes: set<string>, columns: set<string>, reading: Reading)
    decreases compound
  {
    ScopedSelect(compound.query, ctes, columns, reading)
  }

  /**
   `ctes` are the CTE names enclosing WITH clauses have bound, `columns` the FROM/JOIN
   references and DML targets of enclosing queries.  A join predicate sees the sources joined
   so far, every other clause all of them.
   */
  predicate ScopedSelect(select: Select, ctes: set<string>, columns: set<string>, reading: Reading)
    decreases select, 0
  {
    var bound := ctes + set c | c in select.ctes :: c.name;
    var inside := columns + SourceNames(select, |select.joins|);
    && select.base.Some? && ScopedSource(select.base.value, bound, columns, reading)
    && (forall i :: 0 <= i < |select.joins| ==>
          ScopedJoin(select.joins[i], bound + columns + SourceNames(select, i + 1), bound, columns, inside, reading))
    && ScopedAll(select.selections, bound + inside, bound, inside, reading)
    && ScopedOption(select.condition, bound + inside, bound, inside, reading)
    && ScopedAll(select.groupBy, bound + inside, bound, inside, reading)
    && ScopedOption(select.having, bound + inside, bound, inside, reading)
    && (forall i :: 0 <= i < |select.orderBy| ==>
          ScopedOrder(select.orderBy[i], bound + inside, bound, inside, reading))
    && (forall i :: 0 <= i < |select.ctes| ==>
          ScopedCte(select.ctes[i], BoundBefore(select.ctes, i, ctes), columns, reading))
    && (forall i :: 0 <= i < |select.compounds| ==> ScopedCompound(select.compounds[i], bound, columns, reading))
  }

  predicate ScopedCte(cte: Cte, ctes: set<string>, columns: set<string>, reading: Reading)
    decreases cte, 1
  {
    match cte.query
    case SelectQuery(select) => ScopedSelect(select, ctes, columns, reading)
    case _ => ScopedDml(cte.query, ctes, columns, reading)
  }

  predicate ScopedCells(cells: seq<Cell>, sources: set<string>, ctes: set<string>, columns: set<string>, reading: Reading)
    decreases cells
  {
    forall i :: 0 <= i < |cells| ==> ScopedCell(cells[i], sources, ctes, columns, reading)
  }

  predicate ScopedCell(cell: Cell, sources: set<string>, ctes: set<string>, columns: set<string>, reading: Reading)
    decreases cell
  {
    ScopedExpression(cell.value, sources, ctes, columns, reading)
  }

  predicate ScopedRow(row: Row, sources: set<string>, ctes: set<string>, columns: set<string>, reading: Reading)
    decreases row
  {
    ScopedCells(row.cells, sources, ctes, columns, reading)
  }

  predicate ScopedBody(source: InsertSource, target: set<string>, ctes: set<string>, columns: set<string>, reading: Reading)
    decreases source
  {
    match source
    case Values(cells) => ScopedCells(cells, target, ctes, columns + target, reading)
    case Rows(rows) => forall i :: 0 <= i < |rows| ==> ScopedRow(rows[i], target, ctes, columns + target, reading)
    case FromSelect(query, _) => ScopedSelect(query, ctes, columns, reading)
    case DefaultValues => true
  }

  predicate ScopedConflict(conflict: Conflict, target: set<string>, ctes: set<string>, columns: set<string>, reading: Reading)
    decreases conflict
  {
    && ScopedCells(conflict.updateValues, target, ctes, columns, reading)
    && ScopedOption(conflict.targetWhere, target, ctes, columns, Conflicting(reading))
    && ScopedOption(conflict.updateWhere, target, ctes, columns, Conflicting(reading))
  }

  /** A data-modifying statement sees the columns of its target only. */
  predicate ScopedDml(query: Query, ctes: set<string>, columns: set<string>, reading: Reading)
    requires !query.SelectQuery?
    decreases query, 0
  {
    var target := {query.table.Reference()};
    && ScopedAll(query.returning, target, ctes, columns + target, reading)
    && match query
       case Insert(_, source, conflict, _) =>
         && (source.Some? ==> ScopedBody(source.value, target, ctes, columns, reading))
         && (conflict.Some? ==> ScopedConflict(conflict.value, target, ctes, columns + target, reading))
       case Update(_, values, condition, _, _) =>
         && ScopedCells(values, target, ctes, columns + target, reading)
         && ScopedOption(condition, target, ctes, columns + target, reading)
       case Delete(_, condition, _, _) => ScopedOption(condition, target, ctes, columns + target, reading)
  }

  predicate Scoped(query: Query, reading: Reading) {
    if query.SelectQuery? then ScopedSelect(query.select, {}, {}, reading) else ScopedDml(query, {}, {}, reading)
  }

  /**
   Every CTE source at any depth is bound by an enclosing WITH: a check of the syntax, with
   no names but those of CTEs.  Conflict predicates are visited by a thorough one only.
   */
  predicate Resolved(select: Select, ctes: set<string>, reading: Reading)
    decreases select, 0
  {
    && BoundSources(SelectQuery(select), ctes)
    && forall s :: s in ChildScopes(select, ctes) ==>
         if s.query.SelectQuery? then Resolved(s.query.select, s.visible, reading)
         else ResolvedDml(s.query, s.visible, reading)
  }

  predicate ResolvedDml(query: Query, ctes: set<string>, reading: Reading)
    requires !query.SelectQuery?
    decreases query, 0
  {
    && (forall q :: q in InsertedQuery(query) ==> Resolved(q, ctes, reading))
    && (forall q :: q in AllSubqueries(DmlExpressions(query)) ==> Resolved(q, ctes, reading))
    && (reading.Thorough? ==> forall q :: q in ConflictSubqueries(query) ==> Resolved(q, ctes, reading))
  }

  /** What the first pass knows about a SELECT seeing `ctes`. */
  predicate FirstPass(select: Select, ctes: set<string>) {
    BoundSources(SelectQuery(select), ctes) && EveryNested(select, ctes, BoundSources)
  }

  /** The compiler's first pass is the strict check. */
  lemma {:induction false} FirstPassIsStrict(select: Select, ctes: set<string>)
    ensures FirstPass(select, ctes) <==> Resolved(select, ctes, Strict)
    decreases select, 0
  {
    hide BoundSources, ChildScopes;
    forall s | s in ChildScopes(select, ctes)
      ensures s.query.SelectQuery? ==> (FirstPass(s.query.select, s.visible) <==> Resolved(s.query.select, s.visible, Strict))
      ensures !s.query.SelectQuery? ==>
                (EveryNestedInDml(s.query, s.visible, BoundSources) <==> ResolvedDml(s.query, s.visible, Strict))
      ensures s.query.SelectQuery? ==> s.query == SelectQuery(s.query.select)
      ensures !s.query.SelectQuery? ==> BoundSources(s.query, s.visible)
    {
      if s.query.SelectQuery? {
        FirstPassIsStrict(s.query.select, s.visible);
      } else {
        FirstPassIsStrictInDml(s.query, s.visible);
        NothingToBind(s.query, s.visible);
      }
    }
  }

  lemma NothingToBind(query: Query, visible: set<string>)
    requires !query.SelectQuery?
    ensures BoundSources(query, visible)
  {
  }

  lemma {:induction false} FirstPassIsStrictInDml(query: Query, ctes: set<string>)
    requires !query.SelectQuery?
    ensures EveryNestedInDml(query, ctes, BoundSources) <==> ResolvedDml(query, ctes, Strict)
    decreases query, 0
  {
    hide BoundSources, Resolved, InsertedQuery, DmlExpressions;
    forall q | q in InsertedQuery(query) || q in AllSubqueries(DmlExpressions(query))
      ensures FirstPass(q, ctes) <==> Resolved(q, ctes, Strict)
    {
      FirstPassIsStrict(q, ctes);
    }
  }

  lemma ResolvedInner(select: Select, ctes: set<string>, reading: Reading, q: Select)
    requires Resolved(select, ctes, reading) && q in InnerQueries(select)
    ensures Resolved(q, ctes + CteNames(select.ctes), reading)
  {
    var s := Scope(SelectQuery(q), ctes + CteNames(select.ctes));
    assert s in SelectScopes(InnerQueries(select), ctes + CteNames(select.ctes));
    assert s in ChildScopes(select, ctes);
  }

  lemma ResolvedBody(select: Select, ctes: set<string>, reading: Reading, i: nat)
    requires Resolved(select, ctes, reading) && i < |select.ctes|
    ensures select.ctes[i].query.SelectQuery? ==>
              Resolved(select.ctes[i].query.select, BodyScope(select.ctes, i, ctes), reading)
    ensures !select.ctes[i].query.SelectQuery? ==>
              ResolvedDml(select.ctes[i].query, BodyScope(select.ctes, i, ctes), reading)
  {
    var s := BodyScopes(select.ctes, ctes)[i];
    assert s in BodyScopes(select.ctes, ctes);
    assert s in ChildScopes(select, ctes);
  }

  lemma SeesMore(select: Select, outer: set<string>, names: set<string>)
    requires select.base.Some? && outer <= names
    ensures CtesBound(select, outer) ==> CtesBound(select, names)
    ensures JoinsSee(select, outer) ==> JoinsSee(select, names)
    ensures RowsSee(select, outer) ==> RowsSee(select, names)
  {
    hide ReferencedSources;
  }

  // ---- One level at a time ------------------------------------------------------------------------

  /** An expression by its references and its subqueries. */
  lemma ExpressionParts(e: Node, sources: set<string>, ctes: set<string>, columns: set<string>, reading: Reading)
    ensures ReferencedSources(e) <= sources && (forall q :: q in Subqueries(e) ==> ScopedSelect(q, ctes, columns, reading)) ==>
              ScopedExpression(e, sources, ctes, columns, reading)
    ensures ScopedExpression(e, sources, ctes, columns, reading) ==>
              forall q :: q in Subqueries(e) ==> ScopedSelect(q, ctes, columns, reading)
  {
    hide Walk, ScopedSelect;
  }

  lemma SameNames(select: Select)
    requires select.base.Some?
    ensures LocalSources(select) == SourceNames(select, |select.joins|)
    ensures forall n: nat :: n <= |select.joins| ==> VisibleReferences(select, n) == SourceNames(select, n)
    ensures CteNames(select.ctes) == set c | c in select.ctes :: c.name
  {
    forall n: nat | n <= |select.joins| ensures VisibleReferences(select, n) == SourceNames(select, n) {
      forall x | x in SourceNames(select, n) ensures x in VisibleReferences(select, n) {
        if x == select.base.value.Reference() {
          assert ReferenceAt(select, 0) == x;
        } else {
          var j :| 0 <= j < n && select.joins[j].source.Reference() == x;
          assert ReferenceAt(select, j + 1) == x;
        }
      }
    }
    forall x | x in LocalSources(select) ensures x in SourceNames(select, |select.joins|) {
      if x != select.base.value.Reference() {
        var j :| j in select.joins && j.source.Reference() == x;
        var i :| 0 <= i < |select.joins| && select.joins[i] == j;
      }
    }
  }

  lemma SameBodies(ctes: seq<Cte>, i: nat, outer: set<string>)
    requires i < |ctes|
    ensures BodyScope(ctes, i, outer) == BoundBefore(ctes, i, outer)
  {
    forall x | x in CteNames(ctes[..i]) ensures exists j :: 0 <= j < i && ctes[j].name == x {
      var c :| c in ctes[..i] && c.name == x;
      var j :| 0 <= j < i && ctes[..i][j] == c;
      assert ctes[j].name == x;
    }
    forall j | 0 <= j < i ensures ctes[j].name in CteNames(ctes[..i]) {
      assert ctes[..i][j] == ctes[j];
    }
  }

  /** What the compiler's own lists hold of a SELECT, clause by clause. */
  lemma ClauseMembers(select: Select)
    ensures forall i :: 0 <= i < |select.selections| ==>
      select.selections[i] in RowExpressions(select) && select.selections[i] in SelectExpressions(select)
    ensures forall i :: 0 <= i < |select.groupBy| ==>
      select.groupBy[i] in RowExpressions(select) && select.groupBy[i] in SelectExpressions(select)
    ensures forall i :: 0 <= i < |select.orderBy| ==>
      select.orderBy[i].expression in RowExpressions(select) && select.orderBy[i].expression in SelectExpressions(select)
    ensures select.condition.Some? ==>
      select.condition.value in RowExpressions(select) && select.condition.value in SelectExpressions(select)
    ensures select.having.Some? ==>
      select.having.value in RowExpressions(select) && select.having.value in SelectExpressions(select)
    ensures forall i :: 0 <= i < |select.joins| ==> select.joins[i].on in SelectExpressions(select)
    ensures forall e :: e in SelectExpressions(select) ==>
      || e in select.selections || e in select.groupBy || Some(e) == select.condition || Some(e) == select.having
      || (exists i :: 0 <= i < |select.orderBy| && select.orderBy[i].expression == e)
      || (exists i :: 0 <= i < |select.joins| && select.joins[i].on == e)
  {
    forall i | 0 <= i < |select.orderBy| ensures select.orderBy[i].expression in OrderExpressions(select.orderBy) {
      assert OrderExpressions(select.orderBy)[i] == select.orderBy[i].expression;
    }
    forall i | 0 <= i < |select.joins| ensures select.joins[i].on in JoinPredicates(select.joins) {
      assert JoinPredicates(select.joins)[i] == select.joins[i].on;
    }
  }

  /** Scoping from the compiler's lists: references, derived tables, arms and subqueries. */
  predicate PartsScoped(select: Select, bound: set<string>, columns: set<string>, reading: Reading) {
    && CtesBound(select, if reading.Loose? then bound + columns else bound)
    && (forall q :: q in DerivedQueries(Sources(select)) ==> ScopedSelect(q, bound, columns, reading))
    && (forall q :: q in Arms(select.compounds) ==> ScopedSelect(q, bound, columns, reading))
    && (forall q :: q in AllSubqueries(SelectExpressions(select)) ==>
          ScopedSelect(q, bound, columns + SourceNames(select, |select.joins|), reading))
  }

  lemma SourcesScoped(select: Select, bound: set<string>, columns: set<string>, reading: Reading)
    requires select.base.Some?
    ensures PartsScoped(select, bound, columns, reading) ==>
      && ScopedSource(select.base.value, bound, columns, reading)
      && (forall i :: 0 <= i < |select.joins| ==> ScopedSource(select.joins[i].source, bound, columns, reading))
      && forall i :: 0 <= i < |select.compounds| ==> ScopedCompound(select.compounds[i], bound, columns, reading)
  {
    hide ScopedSelect, AllSubqueries, SelectExpressions;
    var sources := Sources(select);
    assert sources[0] == select.base.value;
    assert forall i :: 0 <= i < |select.joins| ==> sources[i + 1] == select.joins[i].source;
    forall i | 0 <= i < |select.compounds| ensures select.compounds[i].query in Arms(select.compounds) {
      assert Arms(select.compounds)[i] == select.compounds[i].query;
    }
  }

  lemma ScopedSources(select: Select, bound: set<string>, columns: set<string>, reading: Reading)
    requires select.base.Some? && ScopedSource(select.base.value, bound, columns, reading)
    requires forall i :: 0 <= i < |select.joins| ==> ScopedSource(select.joins[i].source, bound, columns, reading)
    requires forall i :: 0 <= i < |select.compounds| ==> ScopedCompound(select.compounds[i], bound, columns, reading)
    ensures CtesBound(select, if reading.Loose? then bound + columns else bound)
    ensures forall q :: q in DerivedQueries(Sources(select)) ==> ScopedSelect(q, bound, columns, reading)
    ensures forall q :: q in Arms(select.compounds) ==> ScopedSelect(q, bound, columns, reading)
  {
    hide ScopedSelect;
    forall s | s in Sources(select) ensures ScopedSource(s, bound, columns, reading) {
      var i :| 0 <= i < |Sources(select)| && Sources(select)[i] == s;
      assert i == 0 ==> s == select.base.value;
      assert i > 0 ==> s == select.joins[i - 1].source;
    }
    forall q | q in Arms(select.compounds) ensures ScopedSelect(q, bound, columns, reading) {
      var i :| 0 <= i < |select.compounds| && select.compounds[i].query == q;
      assert ScopedCompound(select.compounds[i], bound, columns, reading);
    }
  }

  lemma {:induction false} ScopedFromParts(select: Select, ctes: set<string>, columns: set<string>, reading: Reading)
    requires var bound := ctes + CteNames(select.ctes);
      && select.base.Some? && JoinsSee(select, bound + columns) && RowsSee(select, bound + columns)
      && PartsScoped(select, bound, columns, reading)
    requires forall i :: 0 <= i < |select.ctes| ==>
      ScopedCte(select.ctes[i], BoundBefore(select.ctes, i, ctes), columns, reading)
    ensures ScopedSelect(select, ctes, columns, reading)
  {
    hide ReferencedSources, VisibleReferences, SourceNames, CteNames, Sources, SelectExpressions, RowExpressions, Subqueries;
    hide ScopedExpression, ScopedSource, ScopedCte, ScopedCompound, DerivedQueries, Arms;
    var bound := ctes + CteNames(select.ctes);
    var inside := columns + SourceNames(select, |select.joins|);
    SameNames(select);
    ClauseMembers(select);
    SourcesScoped(select, bound, columns, reading);
    forall e | e in RowExpressions(select) && e in SelectExpressions(select)
      ensures ScopedExpression(e, bound + inside, bound, inside, reading)
    {
      RowIsScoped(select, bound, columns, reading, e);
    }
    forall i | 0 <= i < |select.joins|
      ensures ScopedExpression(select.joins[i].on, bound + columns + SourceNames(select, i + 1), bound, inside, reading)
    {
      ExpressionParts(select.joins[i].on, bound + columns + SourceNames(select, i + 1), bound, inside, reading);
    }
    ClausesScoped(select, bound, columns, reading);
  }

  lemma RowIsScoped(select: Select, bound: set<string>, columns: set<string>, reading: Reading, e: Node)
    requires select.base.Some? && e in RowExpressions(select) && e in SelectExpressions(select)
    requires RowsSee(select, bound + columns) && PartsScoped(select, bound, columns, reading)
    ensures var inside := columns + SourceNames(select, |select.joins|);
      ScopedExpression(e, bound + inside, bound, inside, reading)
  {
    hide ReferencedSources, VisibleReferences, SourceNames, Sources, SelectExpressions, RowExpressions, Subqueries;
    hide ScopedExpression, ScopedSelect, DerivedQueries, Arms;
    RowsByClause(select, bound + columns + VisibleReferences(select, |select.joins|));
    SameNames(select);
    var inside := columns + SourceNames(select, |select.joins|);
    ExpressionParts(e, bound + inside, bound, inside, reading);
  }

  /** The clauses, from the expressions the compiler lists. */
  lemma ClausesScoped(select: Select, bound: set<string>, columns: set<string>, reading: Reading)
    requires var inside := columns + SourceNames(select, |select.joins|);
      forall e :: e in RowExpressions(select) && e in SelectExpressions(select) ==>
        ScopedExpression(e, bound + inside, bound, inside, reading)
    ensures var inside := columns + SourceNames(select, |select.joins|);
      && ScopedAll(select.selections, bound + inside, bound, inside, reading)
      && ScopedOption(select.condition, bound + inside, bound, inside, reading)
      && ScopedAll(select.groupBy, bound + inside, bound, inside, reading)
      && ScopedOption(select.having, bound + inside, bound, inside, reading)
      && forall i :: 0 <= i < |select.orderBy| ==> ScopedOrder(select.orderBy[i], bound + inside, bound, inside, reading)
  {
    hide RowExpressions, SelectExpressions, ScopedExpression;
    ClauseMembers(select);
  }

  /** And back: what is scoped has scoped parts. */
  lemma {:induction false} PartsFromScoped(select: Select, ctes: set<string>, columns: set<string>, reading: Reading)
    requires ScopedSelect(select, ctes, columns, reading)
    ensures select.base.Some? && PartsScoped(select, ctes + CteNames(select.ctes), columns, reading)
    ensures forall i :: 0 <= i < |select.ctes| ==>
      ScopedCte(select.ctes[i], BodyScope(select.ctes, i, ctes), columns, reading)
  {
    hide ReferencedSources, VisibleReferences, SourceNames, CteNames, Sources, SelectExpressions, Subqueries;
    hide ScopedExpression, ScopedSource, ScopedCte, ScopedCompound, DerivedQueries, Arms, BodyScope, BoundBefore;
    var bound := ctes + CteNames(select.ctes);
    var inside := columns + SourceNames(select, |select.joins|);
    SameNames(select);
    ClauseMembers(select);
    ScopedSources(select, bound, columns, reading);
    forall q | q in AllSubqueries(SelectExpressions(select)) ensures ScopedSelect(q, bound, inside, reading) {
      var e :| e in SelectExpressions(select) && q in Subqueries(e);
      SubqueryIsScoped(select, ctes, columns, reading, e, q);
    }
    forall i | 0 <= i < |select.ctes| ensures ScopedCte(select.ctes[i], BodyScope(select.ctes, i, ctes), columns, reading) {
      SameBodies(select.ctes, i, ctes);
    }
  }

  lemma SubqueryIsScoped(select: Select, ctes: set<string>, columns: set<string>, reading: Reading, e: Node, q: Select)
    requires ScopedSelect(select, ctes, columns, reading) && e in SelectExpressions(select) && q in Subqueries(e)
    ensures ScopedSelect(q, ctes + (set c | c in select.ctes :: c.name), columns + SourceNames(select, |select.joins|), reading)
  {
    hide SourceNames, SelectExpressions, Subqueries, ScopedExpression, ScopedSource, ScopedCte, ScopedCompound;
    ClauseMembers(select);
    var bound := ctes + set c | c in select.ctes :: c.name;
    var inside := columns + SourceNames(select, |select.joins|);
    ExpressionParts(e, bound + inside, bound, inside, reading);
    if i :| 0 <= i < |select.joins| && select.joins[i].on == e {
      assert ScopedJoin(select.joins[i], bound + columns + SourceNames(select, i + 1), bound, columns, inside, reading);
      ExpressionParts(e, bound + columns + SourceNames(select, i + 1), bound, inside, reading);
    } else if i :| 0 <= i < |select.orderBy| && select.orderBy[i].expression == e {
      assert ScopedOrder(select.orderBy[i], bound + inside, bound, inside, reading);
    } else if i :| 0 <= i < |select.selections| && select.selections[i] == e {
    } else if i :| 0 <= i < |select.groupBy| && select.groupBy[i] == e {
    }
  }

  lemma {:induction false} SelectIsScoped(select: Select, dialect: Dialect, outer: set<string>,
                                          ctes: set<string>, columns: set<string>, reading: Reading)
    requires AcceptsSelect(select, dialect, outer) && outer <= ctes + columns
    requires reading.Loose? || Resolved(select, ctes, reading)
    ensures ScopedSelect(select, ctes, columns, reading)
    decreases select, 0
  {
    hide SelectRules, Resolved, JoinsSee, RowsSee, CtesBound, InnerQueries, Sources, SelectExpressions, Subqueries;
    hide ScopedSelect, SourceNames, BoundBefore, ScopedCte;
    var names := outer + CteNames(select.ctes);
    var bound := ctes + CteNames(select.ctes);
    OwnScope(select, dialect, names, bound, columns, ctes, reading);
    forall i | 0 <= i < |select.ctes| ensures ScopedCte(select.ctes[i], BoundBefore(select.ctes, i, ctes), columns, reading) {
      if !reading.Loose? {
        ResolvedBody(select, ctes, reading, i);
      }
      SameBodies(select.ctes, i, ctes);
      CteIsScoped(select.ctes[i], dialect, outer + CteNames(select.ctes[..i]), ctes + CteNames(select.ctes[..i]), columns, reading);
    }
    forall q | q in InnerQueries(select) ensures reading.Loose? || Resolved(q, bound, reading) {
      if !reading.Loose? {
        ResolvedInner(select, ctes, reading, q);
      }
    }
    PartsAreInner(select);
    forall q | q in DerivedQueries(Sources(select)) ensures ScopedSelect(q, bound, columns, reading) {
      SelectIsScoped(q, dialect, names, bound, columns, reading);
    }
    forall q | q in Arms(select.compounds) ensures ScopedSelect(q, bound, columns, reading) {
      SelectIsScoped(q, dialect, names, bound, columns, reading);
    }
    SameNames(select);
    forall q | q in AllSubqueries(SelectExpressions(select))
      ensures ScopedSelect(q, bound, columns + LocalSources(select), reading)
    {
      SelectIsScoped(q, dialect, names + LocalSources(select), bound, columns + LocalSources(select), reading);
    }
    ScopedFromParts(select, ctes, columns, reading);
  }

  lemma PartsAreInner(select: Select)
    ensures forall q :: q in DerivedQueries(Sources(select)) ==> q in InnerQueries(select) && q < select
    ensures forall q :: q in Arms(select.compounds) ==> q in InnerQueries(select) && q < select
    ensures forall q :: q in AllSubqueries(SelectExpressions(select)) ==> q in InnerQueries(select) && q < select
  {
  }

  lemma OwnScope(select: Select, dialect: Dialect, names: set<string>, bound: set<string>, columns: set<string>,
                 ctes: set<string>, reading: Reading)
    requires SelectRules(select, dialect, names) && names <= bound + columns && bound == ctes + CteNames(select.ctes)
    requires reading.Loose? || Resolved(select, ctes, reading)
    ensures select.base.Some? && CtesBound(select, if reading.Loose? then bound + columns else bound)
    ensures JoinsSee(select, bound + columns) && RowsSee(select, bound + columns)
  {
    hide JoinsSee, RowsSee, ReferencedSources;
    SeesMore(select, names, bound + columns);
  }

  lemma {:induction false} CteIsScoped(cte: Cte, dialect: Dialect, visible: set<string>,
                                       before: set<string>, columns: set<string>, reading: Reading)
    requires AcceptsCte(cte, dialect, visible) && visible <= before + columns
    requires var ctes := before + (if cte.recursive then {cte.name} else {});
      reading.Loose? || if cte.query.SelectQuery? then Resolved(cte.query.select, ctes, reading)
                        else ResolvedDml(cte.query, ctes, reading)
    ensures ScopedCte(cte, before + (if cte.recursive then {cte.name} else {}), columns, reading)
    decreases cte, 1
  {
    hide Resolved, AcceptsSelect, AcceptsDml, ScopedSelect, ScopedDml;
    var ctes := before + if cte.recursive then {cte.name} else {};
    match cte.query
    case SelectQuery(select) =>
      SelectIsScoped(select, dialect, visible + (if cte.recursive then {cte.name} else {}), ctes, columns, reading);
    case _ =>
      DmlIsScoped(cte.query, dialect, visible, ctes, columns, reading);
  }

  // ---- One data-modifying statement ------------------------------------------------------------

  predicate EachScoped(nodes: seq<Node>, sources: set<string>, ctes: set<string>, columns: set<string>, reading: Reading) {
    forall e :: e in nodes ==> ScopedExpression(e, sources, ctes, columns, reading)
  }

  lemma CellsScoped(cells: seq<Cell>, sources: set<string>, ctes: set<string>, columns: set<string>, reading: Reading)
    ensures ScopedCells(cells, sources, ctes, columns, reading) <==>
            EachScoped(CellValues(cells), sources, ctes, columns, reading)
  {
    hide ScopedExpression;
    var values := CellValues(cells);
    assert |values| == |cells| && forall i :: 0 <= i < |cells| ==> values[i] == cells[i].value;
    if EachScoped(values, sources, ctes, columns, reading) {
      forall i | 0 <= i < |cells| ensures ScopedCell(cells[i], sources, ctes, columns, reading) {
        assert values[i] in values;
      }
    }
  }

  lemma {:induction false} RowsScoped(rows: seq<Row>, sources: set<string>, ctes: set<string>, columns: set<string>,
                                      reading: Reading)
    ensures (forall i :: 0 <= i < |rows| ==> ScopedRow(rows[i], sources, ctes, columns, reading)) <==>
            EachScoped(RowValues(rows), sources, ctes, columns, reading)
  {
    hide ScopedExpression, ScopedCells;
    if rows != [] {
      RowsScoped(rows[1..], sources, ctes, columns, reading);
      CellsScoped(rows[0].cells, sources, ctes, columns, reading);
      assert rows == [rows[0]] + rows[1..];
    }
  }

  /** What the compiler's lists hold of an INSERT, an UPDATE or a DELETE, clause by clause. */
  lemma DmlParts(query: Query, ctes: set<string>, columns: set<string>, reading: Reading)
    requires !query.SelectQuery?
    ensures var target := {query.table.Reference()};
      ScopedDml(query, ctes, columns, reading) <==>
        && (forall q :: q in InsertedQuery(query) ==> ScopedSelect(q, ctes, columns, reading))
        && EachScoped(DmlExpressions(query), target, ctes, columns + target, reading)
        && (query.Insert? ==>
              EachScoped(ConflictPredicates(query.conflict), target, ctes, columns + target, Conflicting(reading)))
  {
    hide ScopedExpression, ScopedSelect, ScopedCells, ScopedOption, ScopedAll, ScopedBody, ScopedConflict, EachScoped;
    var target := {query.table.Reference()};
    match query
    case Insert(_, _, _, _) =>
      InsertParts(query, ctes, columns, reading);
    case Update(_, values, condition, _, returning) =>
      CellsScoped(values, target, ctes, columns + target, reading);
      OptionParts(condition, target, ctes, columns + target, reading);
      AllParts(returning, target, ctes, columns + target, reading);
      Together(CellValues(values), Present(condition), target, ctes, columns + target, reading);
      Together(CellValues(values) + Present(condition), returning, target, ctes, columns + target, reading);
    case Delete(_, condition, _, returning) =>
      OptionParts(condition, target, ctes, columns + target, reading);
      AllParts(returning, target, ctes, columns + target, reading);
      Together(Present(condition), returning, target, ctes, columns + target, reading);
  }

  lemma InsertParts(query: Query, ctes: set<string>, columns: set<string>, reading: Reading)
    requires query.Insert?
    ensures var target := {query.table.Reference()};
      ScopedDml(query, ctes, columns, reading) <==>
        && (forall q :: q in InsertedQuery(query) ==> ScopedSelect(q, ctes, columns, reading))
        && EachScoped(DmlExpressions(query), target, ctes, columns + target, reading)
        && EachScoped(ConflictPredicates(query.conflict), target, ctes, columns + target, Conflicting(reading))
  {
    hide ScopedExpression, ScopedSelect, ScopedCells, EachScoped;
    var target := {query.table.Reference()};
    BodyParts(query, ctes, columns, reading);
    ConflictParts(query.conflict, target, ctes, columns + target, reading);
    AllParts(query.returning, target, ctes, columns + target, reading);
    Together(InsertValues(query.source), UpdateValues(query.conflict), target, ctes, columns + target, reading);
    Together(InsertValues(query.source) + UpdateValues(query.conflict), query.returning, target, ctes, columns + target, reading);
  }

  lemma Together(a: seq<Node>, b: seq<Node>, sources: set<string>, ctes: set<string>, columns: set<string>, reading: Reading)
    ensures EachScoped(a + b, sources, ctes, columns, reading) <==>
            EachScoped(a, sources, ctes, columns, reading) && EachScoped(b, sources, ctes, columns, reading)
  {
    hide ScopedExpression;
    assert forall e :: e in a + b <==> e in a || e in b;
  }

  lemma AllParts(nodes: seq<Node>, sources: set<string>, ctes: set<string>, columns: set<string>, reading: Reading)
    ensures ScopedAll(nodes, sources, ctes, columns, reading) <==> EachScoped(nodes, sources, ctes, columns, reading)
  {
    hide ScopedExpression;
  }

  lemma OptionParts(node: Option<Node>, sources: set<string>, ctes: set<string>, columns: set<string>, reading: Reading)
    ensures ScopedOption(node, sources, ctes, columns, reading) <==> EachScoped(Present(node), sources, ctes, columns, reading)
  {
    hide ScopedExpression;
  }

  lemma Nothing(sources: set<string>, ctes: set<string>, columns: set<string>, reading: Reading)
    ensures EachScoped([], sources, ctes, columns, reading)
  {
  }

  lemma BodyParts(query: Query, ctes: set<string>, columns: set<string>, reading: Reading)
    requires query.Insert?
    ensures var target := {query.table.Reference()};
      (query.source.Some? ==> ScopedBody(query.source.value, target, ctes, columns, reading)) <==>
        && (forall q :: q in InsertedQuery(query) ==> ScopedSelect(q, ctes, columns, reading))
        && EachScoped(InsertValues(query.source), target, ctes, columns + target, reading)
  {
    hide ScopedExpression, ScopedSelect, ScopedCells, EachScoped, RowValues, CellValues;
    var target := {query.table.Reference()};
    Nothing(target, ctes, columns + target, reading);
    if query.source.Some? {
      match query.source.value
      case Values(cells) => CellsScoped(cells, target, ctes, columns + target, reading);
      case Rows(rows) => RowsScoped(rows, target, ctes, columns + target, reading);
      case FromSelect(q, _) => assert InsertedQuery(query) == [q] && q in InsertedQuery(query);
      case DefaultValues =>
    }
  }

  lemma ConflictParts(conflict: Option<Conflict>, sources: set<string>, ctes: set<string>, columns: set<string>,
                      reading: Reading)
    ensures (conflict.Some? ==> ScopedConflict(conflict.value, sources, ctes, columns, reading)) <==>
        && EachScoped(UpdateValues(conflict), sources, ctes, columns, reading)
        && EachScoped(ConflictPredicates(conflict), sources, ctes, columns, Conflicting(reading))
  {
    hide ScopedExpression, ScopedCells, ScopedOption, EachScoped, CellValues;
    if conflict.Some? {
      var c := conflict.value;
      CellsScoped(c.updateValues, sources, ctes, columns, reading);
      OptionParts(c.targetWhere, sources, ctes, columns, Conflicting(reading));
      OptionParts(c.updateWhere, sources, ctes, columns, Conflicting(reading));
      Together(Present(c.targetWhere), Present(c.updateWhere), sources, ctes, columns, Conflicting(reading));
    } else {
      Nothing(sources, ctes, columns, reading);
      Nothing(sources, ctes, columns, Conflicting(reading));
    }
  }

  lemma EachFromParts(nodes: seq<Node>, table: Table, ctes: set<string>, columns: set<string>, reading: Reading)
    requires DmlSees(table, nodes)
    requires forall q :: q in AllSubqueries(nodes) ==> ScopedSelect(q, ctes, columns, reading)
    ensures EachScoped(nodes, {table.Reference()}, ctes, columns, reading)
  {
    hide ScopedSelect, ScopedExpression, ReferencedSources, Subqueries;
    forall e | e in nodes ensures ScopedExpression(e, {table.Reference()}, ctes, columns, reading) {
      ExpressionParts(e, {table.Reference()}, ctes, columns, reading);
      forall q | q in Subqueries(e) ensures ScopedSelect(q, ctes, columns, reading) {
        assert q in AllSubqueries(nodes);
      }
    }
  }

  lemma EachSubquery(nodes: seq<Node>, sources: set<string>, ctes: set<string>, columns: set<string>, reading: Reading)
    requires EachScoped(nodes, sources, ctes, columns, reading)
    ensures forall q :: q in AllSubqueries(nodes) ==> ScopedSelect(q, ctes, columns, reading)
  {
    hide ScopedSelect, ScopedExpression, Subqueries;
    forall q | q in AllSubqueries(nodes) ensures ScopedSelect(q, ctes, columns, reading) {
      var e :| e in nodes && q in Subqueries(e);
      ExpressionParts(e, sources, ctes, columns, reading);
    }
  }

  lemma {:induction false} DmlIsScoped(query: Query, dialect: Dialect, outer: set<string>,
                                       ctes: set<string>, columns: set<string>, reading: Reading)
    requires !query.SelectQuery? && AcceptsDml(query, dialect, outer) && outer <= ctes + columns
    requires reading.Loose? || ResolvedDml(query, ctes, reading)
    ensures ScopedDml(query, ctes, columns, reading)
    decreases query, 0
  {
    hide AcceptsSelect, ScopedSelect, Resolved, DmlExpressions, ConflictPredicates, AllSubqueries, ScopedDml, ReferencedSources;
    var target := {query.table.Reference()};
    forall q | q in InsertedQuery(query) ensures ScopedSelect(q, ctes, columns, reading) {
      SelectIsScoped(q, dialect, outer, ctes, columns, reading);
    }
    forall q | q in AllSubqueries(DmlExpressions(query)) ensures ScopedSelect(q, ctes, columns + target, reading) {
      SelectIsScoped(q, dialect, outer + target, ctes, columns + target, reading);
    }
    forall q | q in ConflictSubqueries(query) ensures ScopedSelect(q, ctes, columns + target, Conflicting(reading)) {
      SelectIsScoped(q, dialect, outer + target, ctes, columns + target, Conflicting(reading));
    }
    EachFromParts(DmlExpressions(query), query.table, ctes, columns + target, reading);
    if query.Insert? {
      EachFromParts(ConflictPredicates(query.conflict), query.table, ctes, columns + target, Conflicting(reading));
    }
    DmlParts(query, ctes, columns, reading);
  }

  // ---- And only then ------------------------------------------------------------------------------

  /** The check is needed, whatever else the names mean. */
  lemma {:induction false} ScopedIsResolved(select: Select, ctes: set<string>, columns: set<string>, reading: Reading)
    requires !reading.Loose? && ScopedSelect(select, ctes, columns, reading)
    ensures Resolved(select, ctes, reading)
    decreases select, 0
  {
    hide Sources, SelectExpressions, Subqueries, Resolved, BodyScope, ScopedSelect, ScopedCte, SourceNames;
    var bound := ctes + CteNames(select.ctes);
    PartsFromScoped(select, ctes, columns, reading);
    PartsAreInner(select);
    forall i | 0 <= i < |select.ctes|
      ensures BodyIsResolved(select.ctes[i].query, BodyScope(select.ctes, i, ctes), reading)
    {
      assert ScopedCte(select.ctes[i], BodyScope(select.ctes, i, ctes), columns, reading);
      ScopedBodyOf(select.ctes[i], BodyScope(select.ctes, i, ctes), columns, reading);
      if select.ctes[i].query.SelectQuery? {
        ScopedIsResolved(select.ctes[i].query.select, BodyScope(select.ctes, i, ctes), columns, reading);
      } else {
        ScopedDmlIsResolved(select.ctes[i].query, BodyScope(select.ctes, i, ctes), columns, reading);
      }
    }
    forall q | q in InnerQueries(select) ensures Resolved(q, bound, reading) {
      if q in DerivedQueries(Sources(select)) || q in Arms(select.compounds) {
        ScopedIsResolved(q, bound, columns, reading);
      } else {
        ScopedIsResolved(q, bound, columns + SourceNames(select, |select.joins|), reading);
      }
    }
    ResolvedFromParts(select, ctes, reading);
  }

  lemma ScopedBodyOf(cte: Cte, ctes: set<string>, columns: set<string>, reading: Reading)
    requires ScopedCte(cte, ctes, columns, reading)
    ensures if cte.query.SelectQuery? then ScopedSelect(cte.query.select, ctes, columns, reading)
            else ScopedDml(cte.query, ctes, columns, reading)
  {
    hide ScopedSelect, ScopedDml;
  }

  predicate BodyIsResolved(query: Query, ctes: set<string>, reading: Reading) {
    if query.SelectQuery? then Resolved(query.select, ctes, reading) else ResolvedDml(query, ctes, reading)
  }

  lemma ResolvedFromParts(select: Select, ctes: set<string>, reading: Reading)
    requires CtesBound(select, ctes + CteNames(select.ctes))
    requires forall i :: 0 <= i < |select.ctes| ==>
      BodyIsResolved(select.ctes[i].query, BodyScope(select.ctes, i, ctes), reading)
    requires forall q :: q in InnerQueries(select) ==> Resolved(q, ctes + CteNames(select.ctes), reading)
    ensures Resolved(select, ctes, reading)
  {
    hide Sources, InnerQueries, BodyScope;
    forall s | s in ChildScopes(select, ctes) ensures BodyIsResolved(s.query, s.visible, reading) {
      if s in BodyScopes(select.ctes, ctes) {
        var i :| 0 <= i < |select.ctes| && s == BodyScopes(select.ctes, ctes)[i];
      }
    }
  }

  lemma {:induction false} ScopedDmlIsResolved(query: Query, ctes: set<string>, columns: set<string>, reading: Reading)
    requires !query.SelectQuery? && !reading.Loose? && ScopedDml(query, ctes, columns, reading)
    ensures ResolvedDml(query, ctes, reading)
    decreases query, 0
  {
    hide ScopedSelect, Resolved, DmlExpressions, ConflictPredicates, AllSubqueries, ScopedDml;
    var target := {query.table.Reference()};
    DmlParts(query, ctes, columns, reading);
    EachSubquery(DmlExpressions(query), target, ctes, columns + target, reading);
    forall q | q in InsertedQuery(query) ensures Resolved(q, ctes, reading) {
      ScopedIsResolved(q, ctes, columns, reading);
    }
    forall q | q in AllSubqueries(DmlExpressions(query)) ensures Resolved(q, ctes, reading) {
      ScopedIsResolved(q, ctes, columns + target, reading);
    }
    if reading.Thorough? && query.Insert? {
      EachSubquery(ConflictPredicates(query.conflict), target, ctes, columns + target, reading);
      forall q | q in ConflictSubqueries(query) ensures Resolved(q, ctes, reading) {
        ScopedIsResolved(q, ctes, columns + target, reading);
      }
    }
  }

  /** Every accepted statement is scoped, strictly outside conflict predicates. */
  lemma AcceptedIsScoped(query: Query, dialect: Dialect)
    requires Accepts(query, dialect)
    ensures Scoped(query, Strict)
  {
    hide EveryNestedInDml, ScopedSelect, ScopedDml, Resolved, ResolvedDml;
    if query.SelectQuery? {
      assert {} + CteNames(query.select.ctes) == CteNames(query.select.ctes);
      assert SourcesVisible(query.select, {} + CteNames(query.select.ctes));
      FirstPassIsStrict(query.select, {});
      SelectIsScoped(query.select, dialect, {}, {}, {}, Strict);
    } else {
      FirstPassIsStrictInDml(query, {});
      DmlIsScoped(query, dialect, {}, {}, {}, Strict);
    }
  }

  /** An accepted statement is scoped at every depth exactly when its conflict predicates are bound too. */
  lemma ThoroughlyScoped(query: Query, dialect: Dialect)
    requires Accepts(query, dialect)
    ensures Scoped(query, Thorough) <==>
            if query.SelectQuery? then Resolved(query.select, {}, Thorough) else ResolvedDml(query, {}, Thorough)
  {
    hide ScopedSelect, ScopedDml, Resolved, ResolvedDml, AcceptsSelect, AcceptsDml, EveryNested, EveryNestedInDml;
    if query.SelectQuery? {
      if Resolved(query.select, {}, Thorough) {
        SelectIsScoped(query.select, dialect, {}, {}, {}, Thorough);
      }
      if ScopedSelect(query.select, {}, {}, Thorough) {
        ScopedIsResolved(query.select, {}, {}, Thorough);
      }
    } else {
      if ResolvedDml(query, {}, Thorough) {
        DmlIsScoped(query, dialect, {}, {}, {}, Thorough);
      }
      if ScopedDml(query, {}, {}, Thorough) {
        ScopedDmlIsResolved(query, {}, {}, Thorough);
      }
    }
  }

  /**
   A subquery of a conflict predicate, at the top level or in a CTE body, is scoped exactly
   when the first pass would have accepted it, had it been visited.
   */
  lemma ConflictSubqueryIsExact(query: Query, dialect: Dialect, outer: set<string>, ctes: set<string>,
                                columns: set<string>, q: Select)
    requires query.Insert? && AcceptsDml(query, dialect, outer) && outer <= ctes + columns
    requires q in ConflictSubqueries(query)
    ensures ScopedSelect(q, ctes, columns + {query.table.Reference()}, Strict) <==> FirstPass(q, ctes)
  {
    hide ScopedSelect, Resolved, AcceptsSelect, FirstPass, ConflictSubqueries;
    var target := {query.table.Reference()};
    FirstPassIsStrict(q, ctes);
    if Resolved(q, ctes, Strict) {
      SelectIsScoped(q, dialect, outer + target, ctes, columns + target, Strict);
    }
    if ScopedSelect(q, ctes, columns + target, Strict) {
      ScopedIsResolved(q, ctes, columns + target, Strict);
    }
  }

  /** `select 1 from source [where condition]`. */
  function Simple(source: Source, condition: Option<Node>): Select {
    Select([Bound(Int(1))], Some(source), [], condition, [], None, [], None, None, false, [], [], [])
  }

  lemma SimpleParts(source: Source, condition: Option<Node>)
    requires condition.Some? ==> Children(condition.value) == []
    ensures var select := Simple(source, condition);
      && Sources(select) == [source]
      && SelectExpressions(select) == [Bound(Int(1))] + Present(condition)
      && AllSubqueries(SelectExpressions(select)) ==
           (if condition.Some? && Subquery(condition.value).Some? then [Subquery(condition.value).value] else [])
  {
    var select := Simple(source, condition);
    var one := Bound(Int(1));
    LeafWalk(one);
    assert SelectExpressions(select) == [one] + Present(condition);
    assert Subqueries(one) == [];
    if condition.Some? {
      LeafWalk(condition.value);
      var e := [one, condition.value];
      assert SelectExpressions(select) == e && e[1..] == [condition.value] && e[1..][1..] == [];
      assert SubqueriesIn([condition.value][1..]) == [];
      assert AllSubqueries(e[1..][1..]) == [];
      assert AllSubqueries(e) == Subqueries(one) + (Subqueries(condition.value) + []);
    } else {
      assert SelectExpressions(select) == [one] && [one][1..] == [];
      assert AllSubqueries([one]) == Subqueries(one) + [];
    }
  }

  lemma LeafRules(e: Node, dialect: Dialect, keys: seq<Node>, locals: set<string>)
    requires e.Bound? || e.Exists?
    ensures ReferencedSources(e) == {} && NullableResultSources(e) == {} && ExpressionDialect(e, dialect)
    ensures !ContainsAnalytic(e, true, true) && !ContainsAnalytic(e, true, false) && NestsAggregates(e, false)
    ensures UngroupedColumns(e, keys, locals) == {} && !e.Alias?
  {
    LeafWalk(e);
  }

  lemma SimpleSources(source: Source, condition: Option<Node>, outer: set<string>)
    requires condition.Some? ==> condition.value.Exists?
    requires source.CteSource? ==> source.name in outer
    ensures SourcesVisible(Simple(source, condition), outer)
  {
    hide ReferencedSources, NullExtended, RowsSee, JoinsSee, Sources, SelectExpressions, AllSubqueries, Walk;
    var select := Simple(source, condition);
    SimpleParts(source, condition);
    SimpleSees(source, condition, outer);
    LeafRules(Bound(Int(1)), SQLITE, [], {});
    assert select.selections == [Bound(Int(1))] && select.joins == [];
  }

  lemma SimpleSees(source: Source, condition: Option<Node>, outer: set<string>)
    requires condition.Some? ==> condition.value.Exists?
    ensures RowsSee(Simple(source, condition), outer) && JoinsSee(Simple(source, condition), outer)
  {
    var select := Simple(source, condition);
    forall e | e in RowExpressions(select) ensures ReferencedSources(e) == {} {
      assert e == Bound(Int(1)) || Some(e) == condition;
      LeafRules(e, SQLITE, [], {});
    }
    hide ReferencedSources, VisibleReferences;
  }

  lemma SimpleClauses(source: Source, condition: Option<Node>)
    requires condition.Some? ==> condition.value.Exists?
    ensures AnalyticClauses(Simple(source, condition)) && AcceptsGrouping(Simple(source, condition))
  {
    var select := Simple(source, condition);
    if condition.Some? {
      LeafRules(condition.value, SQLITE, [], LocalSources(select));
    }
    LeafRules(Bound(Int(1)), SQLITE, [], LocalSources(select));
    assert GroupedExpressions(select) == [Bound(Int(1))];
  }

  /** A simple SELECT over a visible source obeys every rule about itself. */
  lemma SimpleRules(source: Source, condition: Option<Node>, dialect: Dialect, outer: set<string>)
    requires condition.Some? ==> condition.value.Exists?
    requires source.CteSource? ==> source.name in outer
    ensures SelectRules(Simple(source, condition), dialect, outer)
  {
    hide SourcesVisible, AnalyticClauses, AcceptsGrouping, SelectExpressions, ExpressionDialect, DerivedQueries;
    hide AllSubqueries, Sources;
    hide SelectRules, Walk, RowExpressions, GroupedExpressions;
    var select := Simple(source, condition);
    SimpleParts(source, condition);
    SimpleSources(source, condition, outer);
    SimpleClauses(source, condition);
    forall e | e in SelectExpressions(select) ensures ExpressionDialect(e, dialect) {
      assert e == Bound(Int(1)) || Some(e) == condition;
      LeafRules(e, dialect, [], {});
    }
    RulesFrom(select, dialect, outer);
  }

  lemma RulesFrom(select: Select, dialect: Dialect, outer: set<string>)
    requires select.ctes == [] && select.compounds == [] && select.locks == []
    requires SourcesVisible(select, outer) && AnalyticClauses(select) && AcceptsGrouping(select)
    requires ExpressionsDialect(SelectExpressions(select), dialect)
    ensures SelectRules(select, dialect, outer)
  {
    hide SourcesVisible, AnalyticClauses, AcceptsGrouping, ExpressionsDialect, SelectExpressions;
  }

  lemma AcceptedFrom(select: Select, dialect: Dialect, outer: set<string>)
    requires select.ctes == [] && select.compounds == [] && SelectRules(select, dialect, outer)
    requires DerivedQueries(Sources(select)) == []
    requires forall q :: q in AllSubqueries(SelectExpressions(select)) ==>
      AcceptsSelect(q, dialect, outer + LocalSources(select))
    ensures AcceptsSelect(select, dialect, outer)
  {
    hide SelectRules, SelectExpressions, Sources, DerivedQueries, AllSubqueries, LocalSources, AcceptsCte;
    assert CteNames(select.ctes) == {};
    assert outer + CteNames(select.ctes) == outer;
    assert Arms(select.compounds) == [];
  }

  lemma SimpleAccepted(source: Source, condition: Option<Node>, dialect: Dialect, outer: set<string>)
    requires condition.Some? ==> condition.value.Exists?
    requires source.CteSource? ==> source.name in outer
    requires !source.Derived?
    requires condition.Some? ==> AcceptsSelect(condition.value.query, dialect, outer + {source.Reference()})
    ensures AcceptsSelect(Simple(source, condition), dialect, outer)
  {
    hide SelectRules, SelectExpressions, AcceptsSelect, Walk, Sources, AllSubqueries;
    var select := Simple(source, condition);
    SimpleRules(source, condition, dialect, outer);
    SimpleParts(source, condition);
    SimpleLocals(source, condition);
    AcceptedFrom(select, dialect, outer);
  }

  lemma SimpleLocals(source: Source, condition: Option<Node>)
    requires !source.Derived?
    ensures LocalSources(Simple(source, condition)) == {source.Reference()}
    ensures DerivedQueries([source]) == []
  {
    assert [source][1..] == [];
  }

  /** The inner query reads a CTE that nothing has bound. */
  function Confusing(): Select {
    Simple(CteSource("t"), None)
  }

  lemma ConfusingIsUnbound(ctes: set<string>, columns: set<string>)
    requires "t" !in ctes
    ensures !BoundSources(SelectQuery(Confusing()), ctes) && !ScopedSelect(Confusing(), ctes, columns, Strict)
  {
    SimpleParts(CteSource("t"), None);
    assert CteSource("t") in Sources(Confusing());
  }

  /**
   The second pass alone is unsound: it takes an enclosing table for a CTE.  The first
   pass is what rejects `select 1 from t where exists (select 1 from <CTE t>)`.
   */
  lemma SecondPassAloneIsUnsound(dialect: Dialect) returns (query: Query)
    ensures AcceptsStatement(query, dialect, {}) && !NestedCtesVisible(query) && !Scoped(query, Strict)
  {
    hide AcceptsSelect, SelectExpressions, AllSubqueries, Sources, ScopedSelect, EveryNested, Confusing, LocalSources;
    var table := Stored(Table("t", None, None));
    var condition := Some(Exists(Confusing(), false));
    var select := Simple(table, condition);
    query := SelectQuery(select);
    ConfusingIsAccepted(dialect);
    SimpleAccepted(table, condition, dialect, {});
    SimpleParts(table, condition);
    InnerIsChecked(select, Confusing());
    ConfusingIsUnbound({}, {} + LocalSources(select));
  }

  lemma ConfusingIsAccepted(dialect: Dialect)
    ensures AcceptsSelect(Confusing(), dialect, {} + {"t"})
  {
    SimpleAccepted(CteSource("t"), None, dialect, {} + {"t"});
  }

  /** A subquery that is not scoped makes its query unscoped, and one that is unbound fails the first pass. */
  lemma InnerIsChecked(select: Select, q: Select)
    requires select.base.Some? && select.ctes == [] && q in AllSubqueries(SelectExpressions(select))
    ensures ScopedSelect(select, {}, {}, Strict) ==> ScopedSelect(q, {}, {} + LocalSources(select), Strict)
    ensures EveryNested(select, {}, BoundSources) ==> BoundSources(SelectQuery(q), {})
  {
    hide SelectExpressions, AllSubqueries, LocalSources, BoundSources, Sources, ScopedSelect, SourceNames;
    assert {} + CteNames(select.ctes) == {};
    SameNames(select);
    if ScopedSelect(select, {}, {}, Strict) {
      PartsFromScoped(select, {}, {}, Strict);
    }
    PartsAreInner(select);
    var scope := Scope(SelectQuery(q), {} + CteNames(select.ctes));
    assert scope in SelectScopes(InnerQueries(select), {} + CteNames(select.ctes));
    assert scope in ChildScopes(select, {});
  }

  /** `insert into t (id) values (1) on conflict (id) do update set id = 1 where exists (...)`. */
  function Upsert(): Query {
    Insert(Table("t", None, None), Some(Values([Cell("id", Bound(Int(1)))])),
           Some(Conflict(["id"], "update", [Cell("id", Bound(Int(1)))], None, Some(Exists(Confusing(), false)))), [])
  }

  lemma UpsertParts()
    ensures DmlExpressions(Upsert()) == [Bound(Int(1)), Bound(Int(1))]
    ensures ConflictPredicates(Upsert().conflict) == [Exists(Confusing(), false)]
    ensures InsertValues(Upsert().source) + UpdateValues(Upsert().conflict) == [Bound(Int(1)), Bound(Int(1))]
    ensures InsertedQuery(Upsert()) == []
  {
    hide Confusing;
  }

  lemma LeafSubqueries(e: Node)
    requires e.Bound? || e.Exists?
    ensures Subqueries(e) == if e.Exists? then [e.query] else []
  {
    LeafWalk(e);
    assert [e][1..] == [];
    assert SubqueriesIn([e][1..]) == [];
    assert SubqueriesIn([e]) == (if Subquery(e).Some? then [Subquery(e).value] else []) + SubqueriesIn([e][1..]);
  }

  lemma UpsertSubqueries()
    ensures AllSubqueries(DmlExpressions(Upsert())) == []
    ensures ConflictSubqueries(Upsert()) == [Confusing()]
  {
    hide Confusing;
    hide Subqueries, DmlExpressions, ConflictPredicates, Walk;
    var one, predicated := Bound(Int(1)), Exists(Confusing(), false);
    UpsertParts();
    LeafSubqueries(one);
    LeafSubqueries(predicated);
    assert [one, one][1..] == [one] && [one][1..] == [] && [predicated][1..] == [];
    assert AllSubqueries([one]) == [];
    assert AllSubqueries([one, one]) == [];
    assert AllSubqueries([predicated]) == [Confusing()] + AllSubqueries([]);
    assert AllSubqueries([predicated]) == [Confusing()];
  }

  lemma LeafDml(e: Node, dialect: Dialect)
    requires e.Bound? || e.Exists?
    ensures ReferencedSources(e) == {} && ExcludedSources(e) == {} && ExpressionDialect(e, dialect)
    ensures forall n :: n in Walk(e) ==> !Analytic(n)
  {
    LeafWalk(e);
  }

  lemma UpsertRules()
    ensures DmlRules(Upsert(), POSTGRES)
  {
    hide Confusing, ExpressionDialect, ReferencedSources, ExcludedSources, Walk;
    UpsertParts();
    var one, predicated := Bound(Int(1)), Exists(Confusing(), false);
    LeafDml(one, POSTGRES);
    LeafDml(predicated, POSTGRES);
    hide DmlExpressions, ConflictPredicates, InsertValues, UpdateValues;
    assert AllDmlExpressions(Upsert()) == [one, one] + [predicated];
    assert forall e :: e in [one, one] + [predicated] ==> e == one || e == predicated;
    assert Present(Upsert().conflict.value.updateWhere) == [predicated];
    assert ConflictShape(Upsert().table, Upsert().source.value, Upsert().conflict);
  }

  /**
   Conflict predicates escape the first pass: the whole compiler accepts a statement whose
   conflict predicate reads a CTE that no WITH clause has bound.
   */
  lemma ConflictPredicatesEscape()
    ensures Accepts(Upsert(), POSTGRES)
    ensures ConflictSubqueries(Upsert()) == [Confusing()] && !ScopedSelect(Confusing(), {}, {"t"}, Strict)
  {
    hide DmlRules, AcceptsSelect, ScopedSelect, DmlExpressions, ConflictSubqueries, InsertedQuery, AllSubqueries;
    hide Accepts;
    hide Confusing, ConflictPredicates, Sources, SelectExpressions, InnerQueries;
    UpsertRules();
    UpsertParts();
    UpsertSubqueries();
    ConfusingIsAccepted(POSTGRES);
    ConfusingIsUnbound({}, {"t"});
    AcceptedDml(Upsert(), POSTGRES);
  }

  lemma AcceptedDml(query: Query, dialect: Dialect)
    requires !query.SelectQuery? && DmlRules(query, dialect)
    requires InsertedQuery(query) == [] && AllSubqueries(DmlExpressions(query)) == []
    requires forall q :: q in ConflictSubqueries(query) ==> AcceptsSelect(q, dialect, {} + {query.table.Reference()})
    ensures Accepts(query, dialect)
  {
    hide DmlRules, AcceptsSelect, DmlExpressions, ConflictSubqueries, InsertedQuery, AllSubqueries, NoDmlBodies;
    hide BoundSources;
  }
}

/**
 A window that binds on both sides of OVER is accepted for SQLite, compiled with its
 clauses first, and then read back with its values swapped.
 */
module WindowOrder {
  import opened Options
  import opened Ast
  import opened Document
  import opened Render
  import opened Scopes
  import opened Nullability
  import opened Grouping
  import opened Validation
  import opened Coverage
  import opened Rendering

  /** `sum(1) over (partition by 2)`, both values bound. */
  function TwoSided(): Node {
    Window(Total(), [Bound(Int(2))], [], None, None)
  }

  function Total(): Node {
    Aggregate("sum", [Bound(Int(1))], None)
  }

  /** `select sum(1) over (partition by 2) from t`. */
  function Swapping(): Select {
    Select([TwoSided()], Some(Stored(Table("t", None, None))), [], None, [], None, [], None, None, false, [], [], [])
  }

  /** A document with these values, in compile order and in text order. */
  predicate Carries(doc: Doc, compiled: seq<Value>, printed: seq<Value>) {
    Binds(doc) == compiled && TextOrder(doc) == printed
  }

  lemma CarriesPair(a: Doc, b: Doc, x: seq<Value>, y: seq<Value>)
    requires Carries(a, x, x) && Carries(b, y, y)
    ensures Carries(Seq(a, b), x + y, x + y) && Carries(Swapped(a, b), y + x, x + y)
  {
  }

  lemma CarriesNothing(token: Token)
    ensures Carries(Raw(token), [], []) && Carries(Empty, [], [])
  {
  }

  lemma Enclosing(doc: Doc, word: string, x: seq<Value>)
    requires Carries(doc, x, x)
    ensures Carries(Seq(W(word), Parenthesized(doc)), x, x)
  {
    assert Carries(Parenthesized(doc), x, x);
    hide Carries;
    CarriesNothing(Word(word));
    CarriesPair(W(word), Parenthesized(doc), [], x);
    assert [] + x == x;
  }

  lemma TotalCarries()
    ensures Carries(NodeDoc(Total(), SQLITE), [Int(1)], [Int(1)])
  {
    var one := Bind(Int(1));
    assert Carries(one, [Int(1)], [Int(1)]);
    assert ListDoc([Bound(Int(1))], SQLITE) == one;
    hide Carries;
    Enclosing(one, "sum", [Int(1)]);
    CarriesNothing(Comma);
    CarriesPair(Call("sum", one), Empty, [Int(1)], []);
    assert NodeDoc(Total(), SQLITE) == Seq(Call("sum", one), Empty);
  }

  lemma PartitionCarries()
    ensures Carries(PartitionDoc([Bound(Int(2))], SQLITE), [Int(2)], [Int(2)])
  {
    var two := Bind(Int(2));
    assert Carries(two, [Int(2)], [Int(2)]);
    assert ListDoc([Bound(Int(2))], SQLITE) == two;
    hide Carries;
    CarriesNothing(Word("partition by"));
    CarriesPair(W("partition by"), two, [], [Int(2)]);
  }

  lemma BothSidesBind()
    ensures !OneSided(TwoSided(), SQLITE)
  {
    hide NodeDoc, PartitionDoc, OrderByDoc;
    TotalCarries();
    PartitionCarries();
  }

  lemma OverCarries()
    ensures Carries(Seq(Empty, Seq(W("over"), Parenthesized(
      Seq(PartitionDoc([Bound(Int(2))], SQLITE), Seq(Empty, Empty))))), [Int(2)], [Int(2)])
  {
    hide Carries, PartitionDoc;
    var partition := PartitionDoc([Bound(Int(2))], SQLITE);
    PartitionCarries();
    CarriesNothing(Comma);
    CarriesPair(Empty, Empty, [], []);
    CarriesPair(partition, Seq(Empty, Empty), [Int(2)], [] + []);
    assert [Int(2)] + ([] + []) == [Int(2)] && [] + [Int(2)] == [Int(2)];
    Enclosing(Seq(partition, Seq(Empty, Empty)), "over", [Int(2)]);
    CarriesPair(Empty, Seq(W("over"), Parenthesized(Seq(partition, Seq(Empty, Empty)))), [], [Int(2)]);
  }

  lemma TwoSidedCarries()
    ensures Carries(NodeDoc(TwoSided(), SQLITE), [Int(2), Int(1)], [Int(1), Int(2)])
  {
    hide Carries, NodeDoc, PartitionDoc, TwoSided;
    TotalCarries();
    OverCarries();
    TwoSidedDoc();
    var second := Seq(Empty, Seq(W("over"), Parenthesized(
      Seq(PartitionDoc([Bound(Int(2))], SQLITE), Seq(Empty, Empty)))));
    CarriesPair(NodeDoc(Total(), SQLITE), second, [Int(1)], [Int(2)]);
    assert [Int(2)] + [Int(1)] == [Int(2), Int(1)] && [Int(1)] + [Int(2)] == [Int(1), Int(2)];
  }

  lemma TwoSidedDoc()
    ensures NodeDoc(TwoSided(), SQLITE) ==
      Swapped(NodeDoc(Total(), SQLITE), Seq(Empty, Seq(W("over"), Parenthesized(
        Seq(PartitionDoc([Bound(Int(2))], SQLITE), Seq(Empty, Empty))))))
  {
    assert OrderByDoc([], SQLITE) == Empty;
    hide PartitionDoc;
  }

  lemma TwoSidedWalk()
    ensures Walk(TwoSided()) == [TwoSided(), Total(), Bound(Int(1)), Bound(Int(2))]
  {
    var one, two := Bound(Int(1)), Bound(Int(2));
    LeafWalk(one);
    LeafWalk(two);
    assert Children(Total()) == [one] && [one][1..] == [];
    assert WalkAll([one][1..], Total()) == [];
    assert WalkAll([one], Total()) == Walk(one) + WalkAll([one][1..], Total());
    assert Walk(Total()) == [Total(), one];
    assert Children(TwoSided()) == [Total(), two] && [Total(), two][1..] == [two] && [two][1..] == [];
    assert WalkAll([two][1..], TwoSided()) == [];
    assert WalkAll([two], TwoSided()) == [two];
    assert WalkAll([Total(), two], TwoSided()) == Walk(Total()) + WalkAll([two], TwoSided());
  }

  lemma {:induction false} NoneOpened(nodes: seq<Node>)
    requires forall n :: n in nodes ==> Subquery(n).None?
    ensures SubqueriesIn(nodes) == []
  {
    if nodes != [] {
      assert nodes[0] in nodes && forall n :: n in nodes[1..] ==> n in nodes;
      NoneOpened(nodes[1..]);
    }
  }

  lemma TwoSidedReads()
    ensures ReferencedSources(TwoSided()) == {} && NullableResultSources(TwoSided()) == {}
    ensures ExpressionDialect(TwoSided(), SQLITE) && Subqueries(TwoSided()) == []
  {
    hide Walk, SubqueriesIn, TemporalShape;
    TwoSidedWalk();
    forall n | n in Walk(TwoSided()) ensures !n.Column? && !IsTemporal(n) && Subquery(n).None? {
      assert n == TwoSided() || n == Total() || n == Bound(Int(1)) || n == Bound(Int(2));
    }
    NoneOpened(Walk(TwoSided()));
  }

  lemma TwoSidedNesting()
    ensures !ContainsAnalytic(TwoSided(), true, false) && NestsAggregates(TwoSided(), false)
  {
    var one, two := Bound(Int(1)), Bound(Int(2));
    assert Children(Total()) == [one] && Children(TwoSided()) == [Total(), two];
    assert NestsAggregates(one, true) && NestsAggregates(two, false);
    assert NestsAggregates(Total(), false);
  }

  lemma SwappingParts()
    ensures SelectExpressions(Swapping()) == [TwoSided()] && RowExpressions(Swapping()) == [TwoSided()]
    ensures GroupedExpressions(Swapping()) == [TwoSided()] && RenderedExpressions(Swapping()) == [TwoSided()]
    ensures Sources(Swapping()) == [Stored(Table("t", None, None))] && DerivedQueries(Sources(Swapping())) == []
  {
    hide TwoSided;
    assert [Stored(Table("t", None, None))][1..] == [];
  }

  lemma SwappingSources()
    ensures SourcesVisible(Swapping(), {})
  {
    hide TwoSided, SourcesVisible;
    TwoSidedReads();
    OneSelection(Swapping(), TwoSided(), Table("t", None, None));
  }

  lemma OneSelection(select: Select, e: Node, table: Table)
    requires select.selections == [e] && select.base == Some(Stored(table)) && select.joins == []
    requires select.condition.None? && select.groupBy == [] && select.having.None? && select.orderBy == []
    requires ReferencedSources(e) == {} && NullableResultSources(e) == {}
    ensures SourcesVisible(select, {})
  {
    hide ReferencedSources, NullableResultSources, NullExtended, VisibleReferences;
    assert Sources(select) == [Stored(table)];
  }

  lemma SwappingRules()
    ensures SelectRules(Swapping(), SQLITE, {})
  {
    hide TwoSided, ReferencedSources, ContainsAnalytic, NestsAggregates, ExpressionDialect, Walk;
    hide SelectExpressions, RowExpressions, GroupedExpressions, Sources, SourcesVisible;
    TwoSidedReads();
    TwoSidedNesting();
    SwappingParts();
    SwappingSources();
  }

  lemma SwappingIsAccepted()
    ensures Accepts(SelectQuery(Swapping()), SQLITE)
  {
    hide SelectRules, SelectExpressions, Sources, TwoSided, DerivedQueries, AllSubqueries, LocalSources, Subqueries;
    SwappingRules();
    SwappingParts();
    TwoSidedReads();
    NoSubqueries(TwoSided());
    NothingInside(Swapping(), SQLITE);
  }

  lemma NoSubqueries(e: Node)
    requires Subqueries(e) == []
    ensures AllSubqueries([e]) == []
  {
    assert [e][1..] == [];
  }

  /** A SELECT with nothing nested in it is accepted on its own rules. */
  lemma NothingInside(select: Select, dialect: Dialect)
    requires select.ctes == [] && select.compounds == [] && DerivedQueries(Sources(select)) == []
    requires AllSubqueries(SelectExpressions(select)) == [] && SelectRules(select, dialect, {})
    ensures Accepts(SelectQuery(select), dialect)
  {
    hide SelectRules, SelectExpressions, Sources, DerivedQueries, AllSubqueries, LocalSources, NoDmlBodies;
    hide BoundSources;
    assert {} + CteNames(select.ctes) == {};
    assert Arms(select.compounds) == [];
    assert InnerQueries(select) == [];
    assert BodyScopes(select.ctes, {}) == [];
    assert ChildScopes(select, {}) == [];
  }

  lemma Silent(a: Doc, b: Doc)
    ensures Binds(a) == [] ==> Binds(Seq(a, b)) == Binds(b)
    ensures Binds(b) == [] ==> Binds(Seq(a, b)) == Binds(a)
  {
    assert [] + Binds(b) == Binds(b) && Binds(a) + [] == Binds(a);
  }

  /** Around the window the statement binds nothing. */
  lemma SwappingBinds()
    ensures Binds(QueryDoc(SelectQuery(Swapping()), SQLITE)) == [Int(2), Int(1)]
  {
    hide Binds, NodeDoc, TwoSided;
    BindParts();
    TwoSidedCarries();
    var select := Swapping();
    var window := NodeDoc(TwoSided(), SQLITE);
    assert Binds(window) == [Int(2), Int(1)] by {
      TwoSidedBinds();
    }
    assert ListDoc(select.selections, SQLITE) == window;
    assert Binds(JoinsDoc(select.joins, SQLITE)) == [] && Binds(BaseDoc(select.base, SQLITE)) == [];
    ProjectionBinds(select, window);
    assert Binds(FilterDoc(select, SQLITE)) == [] && Binds(TailDoc(select, SQLITE)) == [];
    var projection, filter, tail := ProjectionDoc(select, SQLITE), FilterDoc(select, SQLITE), TailDoc(select, SQLITE);
    Silent(projection, Seq(filter, tail));
    Silent(Empty, Seq(projection, Seq(filter, tail)));
    Silent(Empty, Seq(Empty, Seq(projection, Seq(filter, tail))));
  }

  lemma TwoSidedBinds()
    requires Carries(NodeDoc(TwoSided(), SQLITE), [Int(2), Int(1)], [Int(1), Int(2)])
    ensures Binds(NodeDoc(TwoSided(), SQLITE)) == [Int(2), Int(1)]
  {
  }

  lemma ProjectionBinds(select: Select, list: Doc)
    requires !select.distinct && list == ListDoc(select.selections, SQLITE)
    requires Binds(JoinsDoc(select.joins, SQLITE)) == [] && Binds(BaseDoc(select.base, SQLITE)) == []
    ensures Binds(ProjectionDoc(select, SQLITE)) == Binds(list)
  {
    hide Binds, ListDoc, JoinsDoc, BaseDoc;
    BindParts();
    var rest := Seq(BaseDoc(select.base, SQLITE), JoinsDoc(select.joins, SQLITE));
    Silent(list, rest);
    Silent(Empty, Seq(list, rest));
    Silent(W("select"), Seq(Empty, Seq(list, rest)));
  }

  /** SQLite accepts the query, although its two values change places on the way to the database. */
  lemma WindowSwapsValues()
    ensures Accepts(SelectQuery(Swapping()), SQLITE)
    ensures !EverywhereIn(InOrder, SelectQuery(Swapping()), SQLITE)
    ensures Binds(NodeDoc(TwoSided(), SQLITE)) == [Int(2), Int(1)]
    ensures TextOrder(NodeDoc(TwoSided(), SQLITE)) == [Int(1), Int(2)]
    ensures var doc := QueryDoc(SelectQuery(Swapping()), SQLITE);
      ReadInOrder(Text(doc, QuestionMark, 0), Binds(doc)) != Known(Meaning(doc))
  {
    hide Accepts, EverywhereIn, QueryDoc, ReadInOrder, Binds, Meaning, Text, NodeDoc, TextOrder, Distinct, Swapping;
    SwappingEscapes();
    SwappingBinds();
    TwoDistinct();
    QuestionMarksAreExact(SelectQuery(Swapping()), SQLITE);
  }

  lemma TwoDistinct()
    ensures Distinct([Int(2), Int(1)])
  {
  }

  lemma SwappingEscapes()
    ensures Accepts(SelectQuery(Swapping()), SQLITE)
    ensures !EverywhereIn(InOrder, SelectQuery(Swapping()), SQLITE)
    ensures Binds(NodeDoc(TwoSided(), SQLITE)) == [Int(2), Int(1)]
    ensures TextOrder(NodeDoc(TwoSided(), SQLITE)) == [Int(1), Int(2)]
  {
    hide Accepts, NodeDoc, PartitionDoc, OrderByDoc, SelectExpressions, RenderedExpressions, Sources, Walk, OneSided;
    SwappingIsAccepted();
    TwoSidedCarries();
    BothSidesBind();
    SwappingParts();
    assert TwoSided() in Walk(TwoSided());
    assert !NodeOk(InOrder, TwoSided(), SQLITE);
    assert !NodesOk(InOrder, RenderedExpressions(Swapping()), SQLITE);
  }
}

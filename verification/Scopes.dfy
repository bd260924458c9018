/** The queries nested inside a statement, each with the CTE names it can see. */
module Scopes {
  import opened Options
  import opened Ast

  /** FROM, then each join. */
  function Sources(select: Select): (r: seq<Source>)
    ensures forall s :: s in r ==> s < select
  {
    (if select.base.Some? then [select.base.value] else [])
    + seq(|select.joins|, i requires 0 <= i < |select.joins| => assert select.joins[i] < select; select.joins[i].source)
  }

  function JoinPredicates(joins: seq<Join>): (r: seq<Node>)
    ensures |r| == |joins|
  {
    seq(|joins|, i requires 0 <= i < |joins| => joins[i].on)
  }

  /** Every expression a SELECT holds directly. */
  function SelectExpressions(select: Select): (r: seq<Node>)
    ensures forall e :: e in r ==> e < select
  {
    assert forall i :: 0 <= i < |select.joins| ==> select.joins[i] < select;
    assert forall i :: 0 <= i < |select.orderBy| ==> select.orderBy[i] < select;
    select.selections + JoinPredicates(select.joins) + select.groupBy + OrderExpressions(select.orderBy)
    + Present(select.condition) + Present(select.having)
  }

  function RowValues(rows: seq<Row>): (r: seq<Node>)
    ensures forall e :: e in r ==> exists i :: 0 <= i < |rows| && e in CellValues(rows[i].cells)
  {
    if rows == [] then []
    else
      assert forall i :: 0 <= i < |rows[1..]| ==> rows[1..][i] == rows[1 + i];
      CellValues(rows[0].cells) + RowValues(rows[1..])
  }

  function InsertValues(source: Option<InsertSource>): seq<Node> {
    match source
    case Some(Values(cells)) => CellValues(cells)
    case Some(Rows(rows)) => RowValues(rows)
    case _ => []
  }

  function UpdateValues(conflict: Option<Conflict>): seq<Node> {
    if conflict.Some? then CellValues(conflict.value.updateValues) else []
  }

  /** The two predicates of ON CONFLICT, which the scope analysis does not visit. */
  function ConflictPredicates(conflict: Option<Conflict>): seq<Node> {
    if conflict.Some? then Present(conflict.value.targetWhere) + Present(conflict.value.updateWhere) else []
  }

  lemma CellBelow(cells: seq<Cell>, e: Node)
    requires e in CellValues(cells)
    ensures exists i :: 0 <= i < |cells| && e == cells[i].value && e < cells[i]
  {
    var i :| 0 <= i < |cells| && CellValues(cells)[i] == e;
    assert cells[i].value == e;
  }

  lemma InsertValueBelow(source: Option<InsertSource>, e: Node)
    requires e in InsertValues(source)
    ensures source.Some? && e < source.value
  {
    match source.value
    case Values(cells) =>
      CellBelow(cells, e);
    case Rows(rows) =>
      var i :| 0 <= i < |rows| && e in CellValues(rows[i].cells);
      CellBelow(rows[i].cells, e);
      assert rows[i] < source.value;
  }

  /** Every expression a data-modifying statement holds, outside its conflict predicates. */
  function DmlExpressions(query: Query): (r: seq<Node>)
    ensures forall e :: e in r ==> e < query
  {
    match query
    case SelectQuery(_) => []
    case Insert(table, source, conflict, returning) =>
      assert forall e :: e in InsertValues(source) ==> e < query by {
        forall e | e in InsertValues(source) ensures e < query {
          InsertValueBelow(source, e);
          assert source.value < source < query;
        }
      }
      assert forall e :: e in UpdateValues(conflict) ==> e < query by {
        forall e | e in UpdateValues(conflict) ensures e < query {
          CellBelow(conflict.value.updateValues, e);
          assert conflict.value < conflict < query;
        }
      }
      InsertValues(source) + UpdateValues(conflict) + returning
    case Update(_, values, condition, _, returning) =>
      assert forall e :: e in CellValues(values) ==> e < query by {
        forall e | e in CellValues(values) ensures e < query {
          CellBelow(values, e);
        }
      }
      CellValues(values) + Present(condition) + returning
    case Delete(_, condition, _, returning) => Present(condition) + returning
  }

  function SubqueriesIn(nodes: seq<Node>): (r: seq<Select>)
    ensures forall q :: q in r ==> exists n :: n in nodes && Subquery(n) == Some(q)
    ensures forall n :: n in nodes && Subquery(n).Some? ==> Subquery(n).value in r
  {
    if nodes == [] then []
    else (if Subquery(nodes[0]).Some? then [Subquery(nodes[0]).value] else []) + SubqueriesIn(nodes[1..])
  }

  /** The subqueries an expression opens, not those inside them. */
  function Subqueries(expression: Node): (r: seq<Select>)
    ensures forall q :: q in r ==> q < expression
  {
    SubqueriesIn(Walk(expression))
  }

  function AllSubqueries(expressions: seq<Node>): (r: seq<Select>)
    ensures forall q :: q in r <==> exists e :: e in expressions && q in Subqueries(e)
    ensures forall q :: q in r ==> exists e :: e in expressions && q < e
  {
    if expressions == [] then [] else Subqueries(expressions[0]) + AllSubqueries(expressions[1..])
  }

  function CteNames(ctes: seq<Cte>): set<string> {
    set c | c in ctes :: c.name
  }

  /** What the body of entry `i` sees: the earlier entries, and itself when recursive. */
  function BodyScope(ctes: seq<Cte>, i: nat, visible: set<string>): set<string>
    requires i < |ctes|
  {
    visible + CteNames(ctes[..i]) + if ctes[i].recursive then {ctes[i].name} else {}
  }

  datatype Scope = Scope(query: Query, visible: set<string>)

  /** A nested query is a SELECT inside `parent`, or a data-modifying CTE body inside it. */
  ghost predicate Inside(scope: Scope, parent: Select) {
    if scope.query.SelectQuery? then scope.query.select < parent else scope.query < parent
  }

  function BodyScopes(ctes: seq<Cte>, visible: set<string>): seq<Scope> {
    seq(|ctes|, i requires 0 <= i < |ctes| => Scope(ctes[i].query, BodyScope(ctes, i, visible)))
  }

  function DerivedQueries(sources: seq<Source>): (r: seq<Select>)
    ensures forall q :: q in r <==> exists s :: s in sources && s.Derived? && s.query == q
    ensures forall q :: q in r ==> exists s :: s in sources && q < s
  {
    if sources == [] then []
    else (if sources[0].Derived? then [sources[0].query] else []) + DerivedQueries(sources[1..])
  }

  function Arms(compounds: seq<Compound>): seq<Select> {
    seq(|compounds|, i requires 0 <= i < |compounds| => compounds[i].query)
  }

  /** Queries that see the whole WITH clause: derived tables, compound arms, subqueries. */
  function InnerQueries(select: Select): (r: seq<Select>)
    ensures forall q :: q in r ==> q < select
  {
    assert forall q :: q in Arms(select.compounds) ==> q < select by {
      forall q | q in Arms(select.compounds) ensures q < select {
        var i :| 0 <= i < |select.compounds| && select.compounds[i].query == q;
        assert select.compounds[i] < select;
      }
    }
    DerivedQueries(Sources(select)) + Arms(select.compounds) + AllSubqueries(SelectExpressions(select))
  }

  function SelectScopes(selects: seq<Select>, visible: set<string>): (r: seq<Scope>)
    ensures |r| == |selects|
    ensures forall s :: s in r <==> exists q :: q in selects && s == Scope(SelectQuery(q), visible)
  {
    if selects == [] then [] else [Scope(SelectQuery(selects[0]), visible)] + SelectScopes(selects[1..], visible)
  }

  function ChildScopes(select: Select, visible: set<string>): (r: seq<Scope>)
    ensures forall s :: s in r ==> Inside(s, select)
  {
    assert forall s :: s in BodyScopes(select.ctes, visible) ==> Inside(s, select) by {
      forall s | s in BodyScopes(select.ctes, visible) ensures Inside(s, select) {
        var i :| 0 <= i < |select.ctes| && s == BodyScopes(select.ctes, visible)[i];
        assert select.ctes[i] < select;
      }
    }
    BodyScopes(select.ctes, visible) + SelectScopes(InnerQueries(select), visible + CteNames(select.ctes))
  }

  function InsertedQuery(query: Query): (r: seq<Select>)
    ensures forall q :: q in r ==> q < query
  {
    match query
    case Insert(_, source, _, _) =>
      if source.Some? && source.value.FromSelect? then
        assert source.value < source < query;
        [source.value.query]
      else []
    case _ => []
  }

  /** The names are bound one entry at a time, as the WITH clause is read. */
  method ReadWith(ctes: seq<Cte>, visible: set<string>) returns (scopes: seq<Scope>, bound: set<string>)
    ensures scopes == BodyScopes(ctes, visible)
    ensures bound == visible + CteNames(ctes)
  {
    scopes, bound := [], visible;
    for i := 0 to |ctes|
      invariant scopes == BodyScopes(ctes, visible)[..i]
      invariant bound == visible + CteNames(ctes[..i])
    {
      var cte := ctes[i];
      assert BodyScope(ctes, i, visible) == if cte.recursive then bound + {cte.name} else bound;
      assert BodyScopes(ctes, visible)[..i + 1] == BodyScopes(ctes, visible)[..i] + [BodyScopes(ctes, visible)[i]];
      scopes := scopes + [Scope(cte.query, if cte.recursive then bound + {cte.name} else bound)];
      bound := bound + {cte.name};
      assert ctes[..i + 1] == ctes[..i] + [cte];
      assert CteNames(ctes[..i + 1]) == CteNames(ctes[..i]) + {cte.name};
    }
    assert ctes[..|ctes|] == ctes;
  }

  /** A check of every query strictly inside a SELECT, given what encloses it. */
  predicate EveryNested(select: Select, visible: set<string>, check: (Query, set<string>) -> bool)
    decreases select, 0
  {
    forall s :: s in ChildScopes(select, visible) ==>
      check(s.query, s.visible)
      && if s.query.SelectQuery? then EveryNested(s.query.select, s.visible, check)
         else EveryNestedInDml(s.query, s.visible, check)
  }

  predicate EveryNestedInDml(query: Query, visible: set<string>, check: (Query, set<string>) -> bool)
    requires !query.SelectQuery?
    decreases query, 0
  {
    && (forall q :: q in InsertedQuery(query) ==> check(SelectQuery(q), visible) && EveryNested(q, visible, check))
    && (forall q :: q in AllSubqueries(DmlExpressions(query)) ==> check(SelectQuery(q), visible) && EveryNested(q, visible, check))
  }

  predicate EveryNestedIn(query: Query, check: (Query, set<string>) -> bool) {
    if query.SelectQuery? then EveryNested(query.select, {}, check) else EveryNestedInDml(query, {}, check)
  }
}

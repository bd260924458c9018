/**
 What holds of every statement the renderer can visit, at any depth: properties of the
 rendered document are read off the syntax tree, and the validators establish them.
 */
module Coverage {
  import opened Options
  import opened Ast
  import opened Document
  import opened Render
  import opened Scopes
  import opened Validation

  datatype Property =
    | InOrder    // values are compiled in the order of their placeholders
    | NoCrash    // no assertion and no index error can fire
    | NoTemporal // no PostgreSQL temporal node

  // ---- The tree the renderer visits -----------------------------------------------------

  /** A cross join's predicate is not rendered. */
  function RenderedOns(joins: seq<Join>): (r: seq<Node>)
    ensures forall e :: e in r ==> exists i :: 0 <= i < |joins| && e == joins[i].on && joins[i].kind != "cross"
    ensures forall i :: 0 <= i < |joins| && joins[i].kind != "cross" ==> joins[i].on in r
  {
    if joins == [] then []
    else
      assert forall i :: 0 <= i < |joins[1..]| ==> joins[1..][i] == joins[1 + i];
      assert forall i :: 0 < i < |joins| ==> joins[1..][i - 1] == joins[i];
      (if joins[0].kind == "cross" then [] else [joins[0].on]) + RenderedOns(joins[1..])
  }

  function RenderedExpressions(select: Select): (r: seq<Node>)
    ensures forall e :: e in r ==> e in SelectExpressions(select) && e < select
  {
    assert forall e :: e in RenderedOns(select.joins) ==> e in JoinPredicates(select.joins) by {
      forall e | e in RenderedOns(select.joins) ensures e in JoinPredicates(select.joins) {
        var i :| 0 <= i < |select.joins| && e == select.joins[i].on;
        assert JoinPredicates(select.joins)[i] == e;
      }
    }
    select.selections + RenderedOns(select.joins) + Present(select.condition) + select.groupBy
    + Present(select.having) + OrderExpressions(select.orderBy)
  }

  /** The expressions of ON CONFLICT DO UPDATE; the arbiter predicate is printed with constants. */
  function RenderedConflict(source: Option<InsertSource>, conflict: Option<Conflict>): seq<Node> {
    if source == Some(DefaultValues) || conflict.None? || conflict.value.action != "update" then []
    else CellValues(conflict.value.updateValues) + Present(conflict.value.updateWhere)
  }

  function RenderedDml(query: Query): seq<Node>
    requires !query.SelectQuery?
  {
    match query
    case Insert(_, source, conflict, returning) => InsertValues(source) + RenderedConflict(source, conflict) + returning
    case Update(_, values, condition, _, returning) => CellValues(values) + Present(condition) + returning
    case Delete(_, condition, _, returning) => Present(condition) + returning
  }

  lemma RenderedDmlBelow(query: Query, e: Node)
    requires !query.SelectQuery? && e in RenderedDml(query)
    ensures e < query && e in AllDmlExpressions(query)
  {
    if query.Insert? && e !in DmlExpressions(query) {
      assert query.conflict.value < query.conflict < query;
    }
  }

  // ---- Where each property is decided -------------------------------------------------------

  /** Only one side of a window or of temporal arithmetic binds values. */
  predicate OneSided(node: Node, dialect: Dialect) {
    match node
    case Window(expression, partitionBy, orderBy, _, _) =>
      Binds(NodeDoc(expression, dialect)) == []
      || (Binds(PartitionDoc(partitionBy, dialect)) == [] && Binds(OrderByDoc(orderBy, dialect)) == [])
    case Arithmetic(timestamp, _, interval) =>
      Binds(NodeDoc(timestamp, dialect)) == [] || Binds(NodeDoc(interval, dialect)) == []
    case _ => true
  }

  /** What every dialect has: anything but clocks, dates, times and intervals. */
  predicate Portable(node: Node) {
    || node.Column? || node.Bound? || node.Binary? || node.Unary? || node.Function? || node.Case? || node.Aggregate?
    || node.Window? || node.Alias? || node.NullableResult? || node.Star? || node.In? || node.InQuery? || node.Between?
    || node.ScalarSubquery? || node.Exists? || node.Excluded? || node.PostgresInfix? || node.UuidCast?
  }

  predicate NodeOk(p: Property, node: Node, dialect: Dialect) {
    match p
    case InOrder => OneSided(node, dialect)
    case NoCrash => true
    case NoTemporal => Portable(node)
  }

  predicate NodesOk(p: Property, expressions: seq<Node>, dialect: Dialect) {
    forall e, n :: e in expressions && n in Walk(e) ==> NodeOk(p, n, dialect)
  }

  predicate SelectOk(p: Property, select: Select) {
    p.NoCrash? ==> select.base.Some?
  }

  /** What the assertions about INSERT require. */
  predicate InsertOk(source: Option<InsertSource>, conflict: Option<Conflict>) {
    && source.Some?
    && (source.value.Rows? ==> source.value.rows != [])
    && (!source.value.DefaultValues? && conflict.Some? ==>
          && (conflict.value.targetWhere.Some? ==> conflict.value.columns != [])
          && (conflict.value.action == "nothing" ==> conflict.value.updateWhere.None?))
  }

  predicate DmlOk(p: Property, query: Query) {
    p.NoCrash? && query.Insert? ==> InsertOk(query.source, query.conflict)
  }

  predicate Everywhere(p: Property, select: Select, dialect: Dialect)
    decreases select, 0
  {
    && SelectOk(p, select)
    && NodesOk(p, RenderedExpressions(select), dialect)
    && (forall i :: 0 <= i < |select.ctes| ==> EverywhereCte(p, select.ctes[i], dialect))
    && (forall q :: q in DerivedQueries(Sources(select)) ==> Everywhere(p, q, dialect))
    && (forall q :: q in Arms(select.compounds) ==> (assert q in InnerQueries(select); Everywhere(p, q, dialect)))
    && (forall q :: q in AllSubqueries(RenderedExpressions(select)) ==> Everywhere(p, q, dialect))
  }

  predicate EverywhereCte(p: Property, cte: Cte, dialect: Dialect)
    decreases cte, 1
  {
    if cte.query.SelectQuery? then Everywhere(p, cte.query.select, dialect) else EverywhereDml(p, cte.query, dialect)
  }

  predicate EverywhereDml(p: Property, query: Query, dialect: Dialect)
    requires !query.SelectQuery?
    decreases query, 0
  {
    && DmlOk(p, query)
    && NodesOk(p, RenderedDml(query), dialect)
    && (forall q :: q in InsertedQuery(query) ==> Everywhere(p, q, dialect))
    && (forall e :: e in RenderedDml(query) ==>
          (RenderedDmlBelow(query, e); forall q :: q in Subqueries(e) ==> Everywhere(p, q, dialect)))
  }

  predicate EverywhereIn(p: Property, query: Query, dialect: Dialect) {
    if query.SelectQuery? then Everywhere(p, query.select, dialect) else EverywhereDml(p, query, dialect)
  }

  // ---- Validation covers that tree -------------------------------------------------------------

  /** What acceptance gives at each node: temporal nodes only where the dialect has them. */
  predicate Guaranteed(p: Property, dialect: Dialect) {
    p.NoCrash? || (p.NoTemporal? && !dialect.supportsTemporalArithmetic)
  }

  lemma ExpressionsOk(p: Property, expressions: seq<Node>, within: seq<Node>, dialect: Dialect)
    requires Guaranteed(p, dialect) && ExpressionsDialect(within, dialect)
    requires forall e :: e in expressions ==> e in within
    ensures NodesOk(p, expressions, dialect)
  {
    forall e, n | e in expressions && n in Walk(e) ensures NodeOk(p, n, dialect) {
      assert ExpressionDialect(e, dialect);
    }
  }

  lemma MoreSubqueries(few: seq<Node>, many: seq<Node>)
    requires forall e :: e in few ==> e in many
    ensures forall q :: q in AllSubqueries(few) ==> q in AllSubqueries(many)
  {
  }

  lemma {:induction false} SelectIsCovered(p: Property, select: Select, dialect: Dialect, outer: set<string>)
    requires Guaranteed(p, dialect) && AcceptsSelect(select, dialect, outer)
    ensures Everywhere(p, select, dialect)
    decreases select, 0
  {
    hide SelectExpressions, RenderedExpressions, InnerQueries, Sources, AllSubqueries, NodesOk, ExpressionsDialect;
    var visible := outer + CteNames(select.ctes);
    assert SelectRules(select, dialect, visible);
    RenderedAreExpressions(select);
    ExpressionsOk(p, RenderedExpressions(select), SelectExpressions(select), dialect);
    MoreSubqueries(RenderedExpressions(select), SelectExpressions(select));
    InnerParts(select);
    forall i | 0 <= i < |select.ctes| ensures EverywhereCte(p, select.ctes[i], dialect) {
      CteIsCovered(p, select.ctes[i], dialect, outer + CteNames(select.ctes[..i]));
    }
    forall q | q in DerivedQueries(Sources(select)) ensures Everywhere(p, q, dialect) {
      SelectIsCovered(p, q, dialect, visible);
    }
    forall q | q in Arms(select.compounds) ensures Everywhere(p, q, dialect) {
      SelectIsCovered(p, q, dialect, visible);
    }
    forall q | q in AllSubqueries(RenderedExpressions(select)) ensures Everywhere(p, q, dialect) {
      SelectIsCovered(p, q, dialect, visible + Grouping.LocalSources(select));
    }
  }

  lemma RenderedAreExpressions(select: Select)
    ensures forall e :: e in RenderedExpressions(select) ==> e in SelectExpressions(select)
  {
  }

  lemma InnerParts(select: Select)
    ensures forall q :: q in DerivedQueries(Sources(select)) ==> q < select
    ensures forall q :: q in Arms(select.compounds) ==> q in InnerQueries(select) && q < select
    ensures forall q :: q in AllSubqueries(SelectExpressions(select)) ==> q < select
  {
    assert forall q :: q in DerivedQueries(Sources(select)) ==> q in InnerQueries(select);
    assert forall q :: q in AllSubqueries(SelectExpressions(select)) ==> q in InnerQueries(select);
  }

  lemma {:induction false} CteIsCovered(p: Property, cte: Cte, dialect: Dialect, visible: set<string>)
    requires Guaranteed(p, dialect) && AcceptsCte(cte, dialect, visible)
    ensures EverywhereCte(p, cte, dialect)
    decreases cte, 1
  {
    match cte.query
    case SelectQuery(select) =>
      SelectIsCovered(p, select, dialect, visible + if cte.recursive then {cte.name} else {});
    case _ =>
      DmlIsCovered(p, cte.query, dialect, visible);
  }

  lemma {:induction false} DmlIsCovered(p: Property, query: Query, dialect: Dialect, outer: set<string>)
    requires Guaranteed(p, dialect) && !query.SelectQuery? && AcceptsDml(query, dialect, outer)
    ensures EverywhereDml(p, query, dialect)
    decreases query, 0
  {
    hide AllSubqueries, ExpressionsDialect, DmlExpressions, ConflictPredicates, RenderedDml, NodesOk, AcceptsSelect;
    forall e | e in RenderedDml(query) ensures e < query && e in AllDmlExpressions(query) {
      RenderedDmlBelow(query, e);
    }
    ExpressionsOk(p, RenderedDml(query), AllDmlExpressions(query), dialect);
    InsertRulesOk(p, query, dialect);
    forall q | q in InsertedQuery(query) ensures Everywhere(p, q, dialect) {
      SelectIsCovered(p, q, dialect, outer);
    }
    forall e, q | e in RenderedDml(query) && q in Subqueries(e) ensures Everywhere(p, q, dialect) {
      DmlSubquery(query, e, q);
      SelectIsCovered(p, q, dialect, outer + {query.table.Reference()});
    }
  }

  lemma DmlSubquery(query: Query, e: Node, q: Select)
    requires !query.SelectQuery? && e in AllDmlExpressions(query) && q in Subqueries(e)
    ensures q in AllSubqueries(DmlExpressions(query)) || q in ConflictSubqueries(query)
  {
  }

  lemma InsertRulesOk(p: Property, query: Query, dialect: Dialect)
    requires !query.SelectQuery? && DmlRules(query, dialect)
    ensures DmlOk(p, query)
  {
    hide DmlSees, WalksAnalytic, ExpressionsDialect, ExcludedSources;
  }
}

/** What the compiler accepts.  Every rejection is one outcome: messages are not modelled. */
module Validation {
  import opened Options
  import opened Ast
  import opened Scopes
  import opened Nullability
  import opened Grouping
  import opened Render

  /** The sources an expression names, outside nested SELECTs. */
  function ReferencedSources(e: Node): set<string> {
    set n | n in Walk(e) && n.Column? :: n.source
  }

  function ExcludedSources(e: Node): set<string> {
    set n | n in Walk(e) && n.Excluded? :: n.source
  }

  // ---- Rules about nested scopes -----------------------------------------------------

  predicate NoDmlBodies(query: Query, visible: set<string>) {
    query.SelectQuery? ==> forall c :: c in query.select.ctes ==> c.query.SelectQuery?
  }

  predicate BoundSources(query: Query, visible: set<string>) {
    query.SelectQuery? ==>
      forall s :: s in Sources(query.select) && s.CteSource? ==> s.name in visible + CteNames(query.select.ctes)
  }

  /** Data-modifying CTEs stay in the outermost WITH. */
  predicate PlacesDmlOutermost(query: Query) {
    EveryNestedIn(query, NoDmlBodies)
  }

  /** A nested query names only CTEs that enclosing WITH clauses have bound. */
  predicate NestedCtesVisible(query: Query) {
    EveryNestedIn(query, BoundSources)
  }

  // ---- One SELECT ---------------------------------------------------------------------

  predicate PlainArm(select: Select, arm: Select) {
    |arm.selections| == |select.selections| && arm.ctes == [] && arm.compounds == []
    && arm.orderBy == [] && arm.limit.None? && arm.offset.None?
  }

  predicate CompoundShape(select: Select) {
    select.compounds != [] ==>
      select.orderBy == [] && select.limit.None? && select.offset.None?
      && forall c :: c in select.compounds ==> PlainArm(select, c.query)
  }

  /** Whether a CTE is read anywhere below, outside the bodies of other CTEs. */
  predicate MentionsCte(select: Select, name: string)
    decreases select
  {
    || (exists s :: s in Sources(select) && s == CteSource(name))
    || exists q :: q in InnerQueries(select) && MentionsCte(q, name)
  }

  /** A seed that does not read itself, followed by UNION ALL arms that do. */
  predicate RecursiveShape(select: Select, name: string) {
    && !MentionsCte(select.(compounds := []), name)
    && select.compounds != []
    && forall c :: c in select.compounds ==> c.operator == "union all" && MentionsCte(c.query, name)
  }

  /** Everything but the join predicates, which see only the sources joined so far. */
  function RowExpressions(select: Select): seq<Node> {
    select.selections + Present(select.condition) + select.groupBy + Present(select.having) + OrderExpressions(select.orderBy)
  }

  predicate CtesBound(select: Select, outer: set<string>) {
    forall s :: s in Sources(select) && s.CteSource? ==> s.name in outer
  }

  predicate JoinsSee(select: Select, outer: set<string>)
    requires select.base.Some?
  {
    forall i :: 0 <= i < |select.joins| ==>
      ReferencedSources(select.joins[i].on) <= outer + VisibleReferences(select, i + 1)
  }

  predicate RowsSee(select: Select, outer: set<string>)
    requires select.base.Some?
  {
    ClausesSee(select, outer + VisibleReferences(select, |select.joins|))
  }

  /** The projection, WHERE, GROUP BY, HAVING and ORDER BY name only these sources. */
  predicate ClausesSee(select: Select, available: set<string>) {
    && (forall i :: 0 <= i < |select.selections| ==> ReferencedSources(select.selections[i]) <= available)
    && (select.condition.Some? ==> ReferencedSources(select.condition.value) <= available)
    && (forall i :: 0 <= i < |select.groupBy| ==> ReferencedSources(select.groupBy[i]) <= available)
    && (select.having.Some? ==> ReferencedSources(select.having.value) <= available)
    && (forall i :: 0 <= i < |select.orderBy| ==> ReferencedSources(select.orderBy[i].expression) <= available)
  }

  /** The compiler's list of them is complete. */
  lemma RowsByClause(select: Select, available: set<string>)
    ensures ClausesSee(select, available) <==>
            forall e :: e in RowExpressions(select) ==> ReferencedSources(e) <= available
  {
    hide ReferencedSources;
    var rows, sorted := RowExpressions(select), OrderExpressions(select.orderBy);
    if forall e :: e in rows ==> ReferencedSources(e) <= available {
      forall i | 0 <= i < |select.orderBy| ensures select.orderBy[i].expression in rows {
        assert sorted[i] == select.orderBy[i].expression;
      }
    }
    if ClausesSee(select, available) {
      forall e | e in rows ensures ReferencedSources(e) <= available {
        if e in sorted {
          var i :| 0 <= i < |sorted| && sorted[i] == e;
        }
      }
    }
  }

  predicate SourcesVisible(select: Select, outer: set<string>) {
    && select.base.Some?
    && CtesBound(select, outer)
    && DistinctReferences(select)
    && JoinsSee(select, outer)
    && RowsSee(select, outer)
    && KindsKnown(select)
    && ProjectedNullability(select)
  }

  /** The names seen so far, one source at a time. */
  method SeeJoins(select: Select, outer: set<string>) returns (accepted: bool, available: set<string>)
    requires select.base.Some?
    ensures accepted == (DistinctReferences(select) && JoinsSee(select, outer))
    ensures accepted ==> available == outer + VisibleReferences(select, |select.joins|)
  {
    hide ReferencedSources, VisibleReferences, ReferenceAt;
    var local := {select.base.value.Reference()};
    available := outer + local;
    var n := 0;
    FirstReference(select);
    while n < |select.joins|
      invariant n <= |select.joins|
      invariant local == VisibleReferences(select, n) && available == outer + local
      invariant forall i, j :: 0 <= i < j <= n ==> ReferenceAt(select, i) != ReferenceAt(select, j)
      invariant forall i :: 0 <= i < n ==>
        ReferencedSources(select.joins[i].on) <= outer + VisibleReferences(select, i + 1)
    {
      var reference := select.joins[n].source.Reference();
      NextReference(select, n);
      if reference in local {
        return false, available;
      }
      local := local + {reference};
      available := available + {reference};
      if !(ReferencedSources(select.joins[n].on) <= available) {
        return false, available;
      }
      n := n + 1;
    }
    return true, available;
  }

  method SeeRows(select: Select, available: set<string>) returns (accepted: bool)
    ensures accepted <==> ClausesSee(select, available)
  {
    hide ReferencedSources, RowExpressions, ClausesSee;
    RowsByClause(select, available);
    var rows := RowExpressions(select);
    var references: set<string> := {};
    for k := 0 to |rows|
      invariant references <= available <==> forall e :: e in rows[..k] ==> ReferencedSources(e) <= available
    {
      references := references + ReferencedSources(rows[k]);
      assert rows[..k + 1] == rows[..k] + [rows[k]];
    }
    assert rows[..|rows|] == rows;
    return references <= available;
  }

  method ValidateSources(select: Select, outer: set<string>) returns (accepted: bool)
    ensures accepted == SourcesVisible(select, outer)
  {
    hide ReferencedSources, VisibleReferences, ClausesSee, DistinctReferences, JoinsSee, CtesBound;
    hide KindsKnown, NullExtended;
    if select.base.None? || !CtesBound(select, outer) {
      return false;
    }
    var seen, available := SeeJoins(select, outer);
    if !seen {
      return false;
    }
    var rows := SeeRows(select, available);
    if !rows {
      return false;
    }
    var nullable := NullExtendedSources(select);
    return nullable.Some? && forall e :: e in select.selections ==> NullableResultSources(e) !! nullable.value;
  }

  lemma FirstReference(select: Select)
    requires select.base.Some?
    ensures VisibleReferences(select, 0) == {select.base.value.Reference()}
  {
    assert ReferenceAt(select, 0) in VisibleReferences(select, 0);
  }

  lemma NextReference(select: Select, n: nat)
    requires select.base.Some? && n < |select.joins|
    ensures ReferenceAt(select, n + 1) == select.joins[n].source.Reference()
    ensures VisibleReferences(select, n + 1) == VisibleReferences(select, n) + {ReferenceAt(select, n + 1)}
    ensures ReferenceAt(select, n + 1) in VisibleReferences(select, n) <==>
      exists i :: 0 <= i <= n && ReferenceAt(select, i) == ReferenceAt(select, n + 1)
    ensures forall i :: 0 <= i <= n ==> ReferenceAt(select, i) in VisibleReferences(select, n)
  {
  }

  // ---- Locks, dialects -------------------------------------------------------------------

  predicate Analytic(node: Node) {
    node.Aggregate? || node.Window?
  }

  predicate WalksAnalytic(expressions: seq<Node>) {
    exists e :: e in expressions && exists n :: n in Walk(e) && Analytic(n)
  }

  function DirectTables(select: Select): set<Table> {
    set s | s in Sources(select) && s.Stored? :: s.table
  }

  predicate LockFits(select: Select, lock: Lock) {
    var targets := if lock.tables == [] then DirectTables(select) else set t | t in lock.tables;
    && targets <= DirectTables(select)
    && forall t :: t in targets ==> t.Reference() !in NullExtended(select)
  }

  predicate LocksAllowed(select: Select) {
    select.locks != [] ==>
      && !select.distinct && select.groupBy == [] && select.having.None? && select.compounds == []
      && !WalksAnalytic(RowExpressions(select))
      && forall lock :: lock in select.locks ==> LockFits(select, lock)
  }

  predicate IsTemporal(node: Node) {
    node.Clock? || node.TemporalCall? || node.MakeInterval? || node.Arithmetic? || node.TemporalInfix?
    || node.NegatedInterval? || node.Extract? || node.Trunc? || node.Bin? || node.Overlaps?
  }

  const CLOCKS: set<string> := {"transaction_timestamp", "statement_timestamp", "clock_timestamp",
                                "current_date", "current_time", "local_time", "local_timestamp"}
  const COMPONENTS: set<string> := {"years", "months", "weeks", "days", "hours", "mins", "secs"}
  const EXTRACT_FIELDS: set<string> := {"century", "day", "decade", "dow", "doy", "epoch", "hour", "isodow", "isoyear",
                                        "julian", "microseconds", "millennium", "milliseconds", "minute", "month",
                                        "quarter", "second", "timezone", "timezone_hour", "timezone_minute", "week", "year"}
  const TRUNC_UNITS: set<string> := {"microseconds", "milliseconds", "second", "minute", "hour", "day", "week",
                                     "month", "quarter", "year", "decade", "century", "millennium"}
  const CALLS: set<string> := {"make_date", "make_time", "make_timestamp", "make_timestamptz", "to_timestamp", "age",
                               "justify_days", "justify_hours", "justify_interval"}
  const MICROSECONDS_PER_DAY := 86_400_000_000

  predicate DistinctNames(cells: seq<Cell>) {
    forall i, j :: 0 <= i < j < |cells| ==> cells[i].name != cells[j].name
  }

  predicate TemporalShape(node: Node) {
    match node
    case Clock(kind) => kind in CLOCKS
    case MakeInterval(components) => (forall c :: c in components ==> c.name in COMPONENTS) && DistinctNames(components)
    case Extract(field, _) => field in EXTRACT_FIELDS
    case Trunc(unit, _, _) => unit in TRUNC_UNITS
    case Bin(Bound(IntervalValue(months, days, microseconds)), _, _) =>
      months == 0 && days * MICROSECONDS_PER_DAY + microseconds > 0
    case Arithmetic(_, operator, _) => operator == "+" || operator == "-"
    case TemporalInfix(_, operator, _) => operator in {"-", "*", "/", "at time zone"}
    case TemporalCall(callee, _) => callee in CALLS
    case _ => true
  }

  predicate NodeDialect(node: Node, dialect: Dialect) {
    IsTemporal(node) ==> dialect.supportsTemporalArithmetic && TemporalShape(node)
  }

  predicate ExpressionDialect(e: Node, dialect: Dialect) {
    forall n :: n in Walk(e) ==> NodeDialect(n, dialect)
  }

  predicate ExpressionsDialect(expressions: seq<Node>, dialect: Dialect) {
    forall e :: e in expressions ==> ExpressionDialect(e, dialect)
  }

  // ---- Statements ---------------------------------------------------------------------------

  /** The rules that look at one SELECT without entering nested ones. */
  predicate SelectRules(select: Select, dialect: Dialect, visible: set<string>) {
    && CompoundShape(select)
    && (forall i, j :: 0 <= i < j < |select.ctes| ==> select.ctes[i].name != select.ctes[j].name)
    && SourcesVisible(select, visible)
    && LocksAllowed(select)
    && ExpressionsDialect(SelectExpressions(select), dialect)
    && (select.locks != [] ==> dialect.supportsRowLocking)
    && AnalyticClauses(select)
    && AcceptsGrouping(select)
    && forall c :: c in select.compounds ==> c.query.locks == []
  }

  predicate AcceptsSelect(select: Select, dialect: Dialect, outer: set<string>)
    decreases select, 0
  {
    var visible := outer + CteNames(select.ctes);
    && SelectRules(select, dialect, visible)
    && (forall i :: 0 <= i < |select.ctes| ==>
          AcceptsCte(select.ctes[i], dialect, outer + CteNames(select.ctes[..i])))
    && (forall q :: q in Arms(select.compounds) ==>
          (assert q in InnerQueries(select); AcceptsSelect(q, dialect, visible)))
    && (forall q :: q in DerivedQueries(Sources(select)) ==>
          (assert q in InnerQueries(select); AcceptsSelect(q, dialect, visible)))
    && (forall q :: q in AllSubqueries(SelectExpressions(select)) ==>
          (assert q in InnerQueries(select); AcceptsSelect(q, dialect, visible + LocalSources(select))))
  }

  predicate AcceptsCte(cte: Cte, dialect: Dialect, visible: set<string>)
    decreases cte, 1
  {
    match cte.query
    case SelectQuery(select) =>
      && (cte.recursive ==> RecursiveShape(select, cte.name))
      && AcceptsSelect(select, dialect, visible + if cte.recursive then {cte.name} else {})
    case _ =>
      !cte.recursive && cte.query.returning != [] && AcceptsDml(cte.query, dialect, visible)
  }

  predicate DmlSees(table: Table, expressions: seq<Node>) {
    forall e :: e in expressions ==> ReferencedSources(e) <= {table.Reference()}
  }

  predicate SameColumns(rows: seq<Row>) {
    rows != [] && forall r :: r in rows ==> CellNames(r.cells) == CellNames(rows[0].cells)
  }

  lemma {:induction false} SameColumnsAgree(rows: seq<Row>)
    ensures SameColumns(rows) <==> rows != [] && RowsAgree(rows)
  {
    forall i | 0 <= i < |rows|
      ensures CellNames(rows[i].cells) == CellNames(rows[0].cells) <==>
        |rows[i].cells| == |rows[0].cells| && forall j :: 0 <= j < |rows[0].cells| ==> rows[i].cells[j].name == rows[0].cells[j].name
    {
      var a, b := CellNames(rows[i].cells), CellNames(rows[0].cells);
      if a == b {
        forall j | 0 <= j < |rows[0].cells| ensures rows[i].cells[j].name == rows[0].cells[j].name {
          assert a[j] == b[j];
        }
      }
    }
    hide CellNames;
    forall i | 0 <= i < |rows| ensures rows[i] in rows {
    }
  }

  predicate SourceShape(source: InsertSource) {
    match source
    case FromSelect(query, columns) => columns != [] && |query.selections| == |columns|
    case Rows(rows) => SameColumns(rows)
    case _ => true
  }

  predicate ConflictShape(table: Table, source: InsertSource, conflict: Option<Conflict>) {
    var proposed := set e, s | e in InsertValues(Some(source)) + UpdateValues(conflict)
                                     + (if conflict.Some? then Present(conflict.value.updateWhere) else [])
                             && s in ExcludedSources(e) :: s;
    && (source.DefaultValues? ==> conflict.None?)
    && (conflict.Some? ==>
          && (conflict.value.targetWhere.Some? ==>
                conflict.value.columns != [] && ExcludedSources(conflict.value.targetWhere.value) == {})
          && (conflict.value.updateWhere.Some? ==> conflict.value.action == "update"))
    && (proposed != {} ==> conflict.Some? && conflict.value.action == "update" && proposed == {table.Reference()})
  }

  /** Every expression of a data-modifying statement, conflict predicates included. */
  function AllDmlExpressions(query: Query): seq<Node> {
    DmlExpressions(query) + if query.Insert? then ConflictPredicates(query.conflict) else []
  }

  predicate DmlRules(query: Query, dialect: Dialect)
    requires !query.SelectQuery?
  {
    && DmlSees(query.table, AllDmlExpressions(query))
    && !WalksAnalytic(AllDmlExpressions(query))
    && ExpressionsDialect(AllDmlExpressions(query), dialect)
    && match query
       case Insert(table, source, conflict, _) =>
         && source.Some? && SourceShape(source.value) && ConflictShape(table, source.value, conflict)
         && (ConflictPredicates(conflict) != [] ==> dialect.supportsConflictPredicates)
       case Update(_, values, _, bounded, _) => values != [] && bounded
       case Delete(_, _, bounded, _) => bounded
  }

  predicate AcceptsDml(query: Query, dialect: Dialect, outer: set<string>)
    requires !query.SelectQuery?
    decreases query, 0
  {
    && DmlRules(query, dialect)
    && (forall q :: q in InsertedQuery(query) ==> AcceptsSelect(q, dialect, outer))
    && (forall q :: q in AllSubqueries(DmlExpressions(query)) ==>
          AcceptsSelect(q, dialect, outer + {query.table.Reference()}))
    && (forall q :: q in ConflictSubqueries(query) ==>
          AcceptsSelect(q, dialect, outer + {query.table.Reference()}))
  }

  function ConflictSubqueries(query: Query): (r: seq<Select>)
    ensures forall q :: q in r ==> q < query
  {
    if query.Insert? then
      assert forall e :: e in ConflictPredicates(query.conflict) ==> e < query by {
        if query.conflict.Some? {
          assert query.conflict.value < query.conflict < query;
        }
      }
      AllSubqueries(ConflictPredicates(query.conflict))
    else []
  }

  predicate AcceptsStatement(query: Query, dialect: Dialect, outer: set<string>) {
    if query.SelectQuery? then AcceptsSelect(query.select, dialect, outer) else AcceptsDml(query, dialect, outer)
  }

  /** Both passes over the scopes, then the statement itself. */
  predicate Accepts(query: Query, dialect: Dialect) {
    PlacesDmlOutermost(query) && NestedCtesVisible(query) && AcceptsStatement(query, dialect, {})
  }
}

/** The document of every statement: what each clause prints, in the renderer's order. */
module Render {
  import opened Options
  import opened Ast
  import opened Document

  datatype Dialect = Dialect(
    style: Style,
    supportsReturning: bool,
    supportsRowLocking: bool,
    supportsTemporalArithmetic: bool,
    supportsConflictPredicates: bool,
    maxParameters: Option<nat>,
    supportsSchemaQualifiedTables: bool,
    supportsDataModifyingCtes: bool,
    supportsPostgresExpressions: bool,
    offsetRequiresLimit: bool)

  const SQLITE_MAX_PARAMETERS := 999
  const POSTGRES_MAX_PARAMETERS := 32767

  const SQLITE := Dialect(QuestionMark, true, false, false, false, Some(SQLITE_MAX_PARAMETERS), false, false, false, true)
  const POSTGRES := Dialect(Dollar, true, true, true, true, Some(POSTGRES_MAX_PARAMETERS), true, true, true, false)

  function W(text: string): Doc {
    Raw(Word(text))
  }

  function I(name: string): Doc {
    Raw(Identifier(name))
  }

  /** Raise unless `condition` holds. */
  function Guard(condition: bool, fault: Fault): Doc {
    if condition then Empty else Raise(fault)
  }

  function Parenthesized(doc: Doc): Doc {
    Paren(doc)
  }

  function Infix(left: Doc, operator: Token, right: Doc): Doc {
    Parenthesized(Seq(left, Seq(Raw(operator), right)))
  }

  function Call(name: string, arguments: Doc): Doc {
    Seq(W(name), Parenthesized(arguments))
  }

  function Qualified(source: string, name: string): Doc {
    Seq(I(source), Seq(W("."), I(name)))
  }

  function Not(negated: bool, operator: string): string {
    if negated then "not " + operator else operator
  }

  /** Four clocks are keywords; the others are called. */
  function ClockDoc(kind: string): Doc {
    if kind == "current_date" || kind == "current_time" then W(kind)
    else if kind == "local_time" then W("localtime")
    else if kind == "local_timestamp" then W("localtimestamp")
    else Call(kind, Empty)
  }

  /** An interval that is a bare parameter needs its type spelled out. */
  function IntervalDoc(node: Node, dialect: Dialect): Doc
    decreases node, 1
  {
    if node.Bound? then Seq(NodeDoc(node, dialect), W("::interval")) else NodeDoc(node, dialect)
  }

  function NodeDoc(node: Node, dialect: Dialect): Doc
    decreases node, 0
  {
    match node
    case Column(source, name) => Qualified(source, name)
    case Bound(value) => Bind(value)
    case Clock(kind) => ClockDoc(kind)
    case Binary(left, operator, right) =>
      Infix(NodeDoc(left, dialect), Operator(operator), NodeDoc(right, dialect))
    case TemporalCall(callee, arguments) => Call(callee, ListDoc(arguments, dialect))
    case MakeInterval(components) => Call("make_interval", ComponentsDoc(components, dialect))
    case Arithmetic(timestamp, operator, interval) =>
      Parenthesized(Swapped(Seq(NodeDoc(timestamp, dialect), Raw(Operator(operator))), IntervalDoc(interval, dialect)))
    case TemporalInfix(left, operator, right) =>
      Infix(NodeDoc(left, dialect), Operator(operator), NodeDoc(right, dialect))
    case NegatedInterval(interval) => Parenthesized(Seq(W("-"), NodeDoc(interval, dialect)))
    case Extract(field, expression) =>
      Call("extract", Seq(Raw(Literal(field)), Seq(W("from"), NodeDoc(expression, dialect))))
    case Trunc(unit, expression, zone) =>
      Call("date_trunc", Seq(Raw(Literal(unit)), Seq(Raw(Comma), Seq(NodeDoc(expression, dialect),
        if zone.None? then Empty else Seq(Raw(Comma), NodeDoc(zone.value, dialect))))))
    case Bin(stride, expression, origin) =>
      Call("date_bin", Seq(IntervalDoc(stride, dialect), Seq(Raw(Comma), Seq(NodeDoc(expression, dialect),
        Seq(Raw(Comma), NodeDoc(origin, dialect))))))
    case Overlaps(leftStart, leftEnd, rightStart, rightEnd) =>
      Infix(
        Parenthesized(Seq(NodeDoc(leftStart, dialect), Seq(Raw(Comma), NodeDoc(leftEnd, dialect)))),
        Operator("overlaps"),
        Parenthesized(Seq(NodeDoc(rightStart, dialect), Seq(Raw(Comma), NodeDoc(rightEnd, dialect)))))
    case Unary(operator, operand) =>
      Parenthesized(Seq(NodeDoc(operand, dialect), Raw(Operator(operator))))
    case Function(name, arguments) => Call(name, ListDoc(arguments, dialect))
    case Case(branches, otherwise) =>
      Seq(W("case"), Seq(BranchesDoc(branches, dialect),
        Seq(W("else"), Seq(NodeDoc(otherwise, dialect), W("end")))))
    case Aggregate(name, arguments, filter) =>
      Seq(Call(name, ListDoc(arguments, dialect)),
          if filter.None? then Empty
          else Seq(W("filter"), Parenthesized(Seq(W("where"), NodeDoc(filter.value, dialect)))))
    case Window(expression, partitionBy, orderBy, frame, exclusion) =>
      Swapped(NodeDoc(expression, dialect),
              Seq(Guard(exclusion.None? || frame.Some?, ValueFault),
              Seq(W("over"), Parenthesized(
                Seq(PartitionDoc(partitionBy, dialect),
                Seq(OrderByDoc(orderBy, dialect),
                    if frame.None? then Empty else FrameDoc(frame.value, |orderBy|, exclusion)))))))
    case Alias(expression, alias) => Seq(NodeDoc(expression, dialect), Seq(W("as"), I(alias)))
    case NullableResult(expression) => NodeDoc(expression, dialect)
    case Star => W("*")
    case In(expression, values, negated) =>
      Infix(NodeDoc(expression, dialect), Operator(Not(negated, "in")), Parenthesized(ListDoc(values, dialect)))
    case InQuery(expression, query, negated) =>
      Infix(NodeDoc(expression, dialect), Operator(Not(negated, "in")), Parenthesized(SelectDoc(query, dialect)))
    case Between(expression, lower, upper, negated) =>
      Infix(NodeDoc(expression, dialect), Operator(Not(negated, "between")),
            Seq(NodeDoc(lower, dialect), Seq(W("and"), NodeDoc(upper, dialect))))
    case ScalarSubquery(query) => Parenthesized(SelectDoc(query, dialect))
    case Exists(query, negated) => Seq(W(Not(negated, "exists")), Parenthesized(SelectDoc(query, dialect)))
    case Excluded(_, name) => Seq(W("excluded"), Seq(W("."), I(name)))
    case PostgresInfix(left, operator, right) =>
      Seq(Guard(dialect.supportsPostgresExpressions, ValueFault),
          Infix(NodeDoc(left, dialect), Operator(operator), NodeDoc(right, dialect)))
    case UuidCast(operand) =>
      Seq(Guard(dialect.supportsPostgresExpressions, ValueFault),
          Call("cast", Seq(NodeDoc(operand, dialect), Seq(W("as"), W("uuid")))))
  }

  /** Nodes separated by commas. */
  function ListDoc(nodes: seq<Node>, dialect: Dialect): Doc
    decreases nodes, 0
  {
    if nodes == [] then Empty
    else if |nodes| == 1 then NodeDoc(nodes[0], dialect)
    else Seq(NodeDoc(nodes[0], dialect), Seq(Raw(Comma), ListDoc(nodes[1..], dialect)))
  }

  function ComponentDoc(component: Cell, dialect: Dialect): Doc
    decreases component
  {
    Seq(W(component.name), Seq(W("=>"), NodeDoc(component.value, dialect)))
  }

  function ComponentsDoc(components: seq<Cell>, dialect: Dialect): Doc
    decreases components
  {
    if components == [] then Empty
    else if |components| == 1 then ComponentDoc(components[0], dialect)
    else Seq(ComponentDoc(components[0], dialect), Seq(Raw(Comma), ComponentsDoc(components[1..], dialect)))
  }

  function BranchDoc(branch: Branch, dialect: Dialect): Doc
    decreases branch
  {
    Seq(W("when"), Seq(NodeDoc(branch.condition, dialect), Seq(W("then"), NodeDoc(branch.value, dialect))))
  }

  function BranchesDoc(branches: seq<Branch>, dialect: Dialect): Doc
    decreases branches
  {
    if branches == [] then Empty else Seq(BranchDoc(branches[0], dialect), BranchesDoc(branches[1..], dialect))
  }

  const NULL_PLACEMENTS: set<string> := {"first", "last"}
  const EXCLUSIONS: set<string> := {"no others", "current row", "group", "ties"}

  function NullsDoc(nulls: Option<string>): Doc {
    if nulls.None? then Empty
    else Seq(Guard(nulls.value in NULL_PLACEMENTS, ValueFault), Seq(W("nulls"), W(nulls.value)))
  }

  function OrderDoc(order: Order, dialect: Dialect): Doc
    decreases order
  {
    Seq(NodeDoc(order.expression, dialect), Seq(W(order.direction), NullsDoc(order.nulls)))
  }

  function OrdersDoc(orders: seq<Order>, dialect: Dialect): Doc
    decreases orders, 0
  {
    if orders == [] then Empty
    else if |orders| == 1 then OrderDoc(orders[0], dialect)
    else Seq(OrderDoc(orders[0], dialect), Seq(Raw(Comma), OrdersDoc(orders[1..], dialect)))
  }

  function OrderByDoc(orders: seq<Order>, dialect: Dialect): Doc
    decreases orders, 1
  {
    if orders == [] then Empty else Seq(W("order by"), OrdersDoc(orders, dialect))
  }

  function PartitionDoc(nodes: seq<Node>, dialect: Dialect): Doc
    decreases nodes, 1
  {
    if nodes == [] then Empty else Seq(W("partition by"), ListDoc(nodes, dialect))
  }

  /** The clauses between the parentheses of `over (...)`. */
  function ClausesDoc(partitionBy: seq<Node>, orderBy: seq<Order>, frame: Option<Frame>, exclusion: Option<string>,
                      dialect: Dialect): Doc
  {
    Seq(PartitionDoc(partitionBy, dialect),
    Seq(OrderByDoc(orderBy, dialect),
        if frame.None? then Empty else FrameDoc(frame.value, |orderBy|, exclusion)))
  }

  function BoundaryDoc(boundary: FrameBoundary): Doc {
    if boundary.amount.None? then W(boundary.kind)
    else Seq(Raw(Number(boundary.amount.value)), W(boundary.kind))
  }

  function ExclusionDoc(exclusion: Option<string>): Doc {
    if exclusion.None? then Empty
    else Seq(Guard(exclusion.value in EXCLUSIONS, ValueFault), Seq(W("exclude"), W(exclusion.value)))
  }

  /** A RANGE frame with an offset measures along exactly one ordering. */
  predicate FrameFits(frame: Frame, orders: nat) {
    frame.kind == "range" && (frame.start.amount.Some? || frame.end.amount.Some?) ==> orders == 1
  }

  function FrameDoc(frame: Frame, orders: nat, exclusion: Option<string>): Doc {
    Seq(Guard(FrameFits(frame, orders), ValueFault),
    Seq(W(frame.kind), Seq(W("between"), Seq(BoundaryDoc(frame.start),
    Seq(W("and"), Seq(BoundaryDoc(frame.end), ExclusionDoc(exclusion)))))))
  }

  function AliasDoc(alias: Option<string>): Doc {
    if alias.None? then Empty else Seq(W("as"), I(alias.value))
  }

  function TableDoc(table: Table, dialect: Dialect): Doc {
    Seq(if table.schema.None? then I(table.name)
        else Seq(Guard(dialect.supportsSchemaQualifiedTables, ValueFault), Qualified(table.schema.value, table.name)),
        AliasDoc(table.alias))
  }

  function SourceDoc(source: Source, dialect: Dialect): Doc
    decreases source
  {
    match source
    case Stored(table) => TableDoc(table, dialect)
    case CteSource(name) => I(name)
    case Derived(query, correlation) =>
      Seq(Parenthesized(SelectDoc(query, dialect)), Seq(W("as"), I(correlation)))
  }

  function JoinDoc(join: Join, dialect: Dialect): Doc
    decreases join
  {
    Seq(W(join.kind), Seq(W("join"), Seq(SourceDoc(join.source, dialect),
      if join.kind == "cross" then Empty else Seq(W("on"), NodeDoc(join.on, dialect)))))
  }

  function JoinsDoc(joins: seq<Join>, dialect: Dialect): Doc
    decreases joins
  {
    if joins == [] then Empty else Seq(JoinDoc(joins[0], dialect), JoinsDoc(joins[1..], dialect))
  }

  /** Only some dialects accept a data-modifying body. */
  function CteDoc(cte: Cte, dialect: Dialect): Doc
    decreases cte
  {
    Seq(I(cte.name), Seq(W("as"), Seq(if cte.materialized then W("materialized") else Empty,
      Parenthesized(Seq(Guard(cte.query.SelectQuery? || dialect.supportsDataModifyingCtes, ValueFault),
                        QueryDoc(cte.query, dialect))))))
  }

  function CtesDoc(ctes: seq<Cte>, dialect: Dialect): Doc
    decreases ctes, 0
  {
    if ctes == [] then Empty
    else if |ctes| == 1 then CteDoc(ctes[0], dialect)
    else Seq(CteDoc(ctes[0], dialect), Seq(Raw(Comma), CtesDoc(ctes[1..], dialect)))
  }

  function WithDoc(ctes: seq<Cte>, dialect: Dialect): Doc
    decreases ctes, 1
  {
    if ctes == [] then Empty
    else Seq(W(if exists c :: c in ctes && c.recursive then "with recursive" else "with"), CtesDoc(ctes, dialect))
  }

  function CompoundDoc(compound: Compound, dialect: Dialect): Doc
    decreases compound
  {
    Seq(W(compound.operator), SelectDoc(compound.query, dialect))
  }

  function CompoundsDoc(compounds: seq<Compound>, dialect: Dialect): Doc
    decreases compounds
  {
    if compounds == [] then Empty
    else Seq(CompoundDoc(compounds[0], dialect), CompoundsDoc(compounds[1..], dialect))
  }

  /** Quoted names separated by commas. */
  function NamesDoc(names: seq<string>): Doc
    decreases |names|
  {
    if names == [] then Empty
    else if |names| == 1 then I(names[0])
    else Seq(I(names[0]), Seq(Raw(Comma), NamesDoc(names[1..])))
  }

  function References(tables: seq<Table>): (r: seq<string>)
    ensures |r| == |tables|
  {
    seq(|tables|, i requires 0 <= i < |tables| => tables[i].Reference())
  }

  function LockDoc(lock: Lock): Doc {
    Seq(W("for"), Seq(W(lock.strength),
    Seq(if lock.tables == [] then Empty else Seq(W("of"), NamesDoc(References(lock.tables))),
        if lock.waiting.None? then Empty else W(lock.waiting.value))))
  }

  function LocksDoc(locks: seq<Lock>): Doc
    decreases |locks|
  {
    if locks == [] then Empty else Seq(LockDoc(locks[0]), LocksDoc(locks[1..]))
  }

  function LimitDoc(select: Select, dialect: Dialect): Doc {
    Seq(
      if select.limit.Some? then Seq(W("limit"), Raw(Number(select.limit.value)))
      else if select.offset.Some? && dialect.offsetRequiresLimit then Seq(W("limit"), Raw(Number(-1)))
      else Empty,
      if select.offset.Some? then Seq(W("offset"), Raw(Number(select.offset.value))) else Empty)
  }

  function ClauseDoc(keyword: string, node: Option<Node>, dialect: Dialect): Doc
    decreases node
  {
    if node.None? then Empty else Seq(W(keyword), NodeDoc(node.value, dialect))
  }

  function GroupByDoc(nodes: seq<Node>, dialect: Dialect): Doc
    decreases nodes, 1
  {
    if nodes == [] then Empty else Seq(W("group by"), ListDoc(nodes, dialect))
  }

  function BaseDoc(base: Option<Source>, dialect: Dialect): Doc
    decreases base
  {
    if base.None? then Empty else Seq(W("from"), SourceDoc(base.value, dialect))
  }

  /** Everything after the `with` prefix. */
  function SelectDoc(select: Select, dialect: Dialect): Doc
    decreases select, 1
  {
    Seq(Guard(select.base.Some?, AssertionFault),
    Seq(WithDoc(select.ctes, dialect),
    Seq(ProjectionDoc(select, dialect),
    Seq(FilterDoc(select, dialect),
        TailDoc(select, dialect)))))
  }

  function ProjectionDoc(select: Select, dialect: Dialect): Doc
    decreases select, 0
  {
    Seq(W("select"),
    Seq(if select.distinct then W("distinct") else Empty,
    Seq(ListDoc(select.selections, dialect),
    Seq(BaseDoc(select.base, dialect),
        JoinsDoc(select.joins, dialect)))))
  }

  function FilterDoc(select: Select, dialect: Dialect): Doc
    decreases select, 0
  {
    Seq(ClauseDoc("where", select.condition, dialect),
    Seq(GroupByDoc(select.groupBy, dialect),
        ClauseDoc("having", select.having, dialect)))
  }

  function TailDoc(select: Select, dialect: Dialect): Doc
    decreases select, 0
  {
    Seq(OrderByDoc(select.orderBy, dialect),
    Seq(LimitDoc(select, dialect),
    Seq(LocksDoc(select.locks),
        CompoundsDoc(select.compounds, dialect))))
  }

  function CellNames(cells: seq<Cell>): (r: seq<string>)
    ensures |r| == |cells|
  {
    seq(|cells|, i requires 0 <= i < |cells| => cells[i].name)
  }

  function CellDoc(cell: Cell, dialect: Dialect): Doc
    decreases cell
  {
    NodeDoc(cell.value, dialect)
  }

  /** The values of a row, separated by commas. */
  function CellsDoc(cells: seq<Cell>, dialect: Dialect): Doc
    decreases cells
  {
    if cells == [] then Empty
    else if |cells| == 1 then CellDoc(cells[0], dialect)
    else Seq(CellDoc(cells[0], dialect), Seq(Raw(Comma), CellsDoc(cells[1..], dialect)))
  }

  function RowDoc(row: Row, dialect: Dialect): Doc
    decreases row
  {
    Parenthesized(CellsDoc(row.cells, dialect))
  }

  function RowsDoc(rows: seq<Row>, dialect: Dialect): Doc
    decreases rows
  {
    if rows == [] then Empty
    else if |rows| == 1 then RowDoc(rows[0], dialect)
    else Seq(RowDoc(rows[0], dialect), Seq(Raw(Comma), RowsDoc(rows[1..], dialect)))
  }

  function AssignmentDoc(cell: Cell, dialect: Dialect): Doc
    decreases cell
  {
    Seq(I(cell.name), Seq(W("="), NodeDoc(cell.value, dialect)))
  }

  function AssignmentsDoc(cells: seq<Cell>, dialect: Dialect): Doc
    decreases cells
  {
    if cells == [] then Empty
    else if |cells| == 1 then AssignmentDoc(cells[0], dialect)
    else Seq(AssignmentDoc(cells[0], dialect), Seq(Raw(Comma), AssignmentsDoc(cells[1..], dialect)))
  }

  function ReturningDoc(nodes: seq<Node>, dialect: Dialect): Doc
    decreases nodes, 1
  {
    if nodes == [] then Empty
    else Seq(Guard(dialect.supportsReturning, ValueFault), Seq(W("returning"), ListDoc(nodes, dialect)))
  }

  const PREDICATE_BINARY: set<string> := {"=", "<>", "<", "<=", ">", ">=", "and", "or"}
  const PREDICATE_UNARY: set<string> :=
    {"is null", "is not null", "is true", "is false", "is not true", "is not false"}

  /** An arbiter predicate: constants where `NodeDoc` binds parameters, and a closed set of nodes. */
  function PredicateDoc(node: Node): Doc
    decreases node
  {
    match node
    case Column(source, name) => Qualified(source, name)
    case Bound(value) => ConstantDoc(value)
    case Binary(left, operator, right) =>
      if operator in PREDICATE_BINARY then Infix(PredicateDoc(left), Operator(operator), PredicateDoc(right))
      else Raise(ValueFault)
    case Unary(operator, operand) =>
      if operator in PREDICATE_UNARY then Parenthesized(Seq(PredicateDoc(operand), Raw(Operator(operator))))
      else Raise(ValueFault)
    case In(expression, values, negated) =>
      Parenthesized(Swapped(Seq(PredicateDoc(expression), Raw(Operator(Not(negated, "in")))),
                            Parenthesized(PredicatesDoc(values))))
    case Between(expression, lower, upper, negated) =>
      Infix(PredicateDoc(expression), Operator(Not(negated, "between")),
            Seq(PredicateDoc(lower), Seq(W("and"), PredicateDoc(upper))))
    case _ => Raise(ValueFault)
  }

  function PredicatesDoc(nodes: seq<Node>): Doc
    decreases nodes
  {
    if nodes == [] then Empty
    else if |nodes| == 1 then PredicateDoc(nodes[0])
    else Seq(PredicateDoc(nodes[0]), Seq(Raw(Comma), PredicatesDoc(nodes[1..])))
  }

  predicate IsConstant(value: Value) {
    value.Null? || value.Bool? || value.Int? || (value.Str? && '\0' !in value.text)
  }

  function ConstantToken(value: Value): Token
    requires IsConstant(value)
  {
    match value
    case Null => Word("null")
    case Bool(flag) => Word(if flag then "true" else "false")
    case Int(number) => Number(number)
    case Str(text) => EscapeString(text)
  }

  function ConstantDoc(value: Value): Doc {
    if IsConstant(value) then Raw(ConstantToken(value)) else Raise(ValueFault)
  }

  function TargetDoc(conflict: Conflict): Doc {
    Seq(if conflict.columns == [] then Empty else Parenthesized(NamesDoc(conflict.columns)),
        if conflict.targetWhere.None? then Empty
        else Seq(Guard(conflict.columns != [], AssertionFault),
             Seq(W("where"), PredicateDoc(conflict.targetWhere.value))))
  }

  function ActionDoc(conflict: Conflict, dialect: Dialect): Doc
    decreases conflict, 0
  {
    if conflict.action == "nothing" then
      Seq(Guard(conflict.updateWhere.None?, AssertionFault), W("do nothing"))
    else if conflict.action == "update" then
      Seq(Guard(conflict.updateValues != [], ValueFault),
      Seq(W("do update set"), Seq(AssignmentsDoc(conflict.updateValues, dialect),
          ClauseDoc("where", conflict.updateWhere, dialect))))
    else Raise(ValueFault)
  }

  function ConflictDoc(conflict: Conflict, dialect: Dialect): Doc
    decreases conflict, 1
  {
    Seq(W("on conflict"), Seq(TargetDoc(conflict), ActionDoc(conflict, dialect)))
  }

  function ConflictClauseDoc(conflict: Option<Conflict>, dialect: Dialect): Doc
    decreases conflict
  {
    if conflict.None? then Empty else ConflictDoc(conflict.value, dialect)
  }

  function InsertColumns(source: InsertSource): seq<string> {
    match source
    case Values(cells) => CellNames(cells)
    case Rows(rows) => if rows == [] then [] else CellNames(rows[0].cells)
    case FromSelect(_, columns) => columns
    case DefaultValues => []
  }

  function InsertBody(source: InsertSource, dialect: Dialect): Doc
    decreases source
  {
    match source
    case Values(cells) => Seq(W("values"), Parenthesized(CellsDoc(cells, dialect)))
    case Rows(rows) => Seq(Guard(rows != [], IndexFault), Seq(W("values"), RowsDoc(rows, dialect)))
    case FromSelect(query, _) => SelectDoc(query, dialect)
    case DefaultValues => W("default values")
  }

  /**
   The source is compiled before the table and the column list it follows in the text,
   except that DEFAULT VALUES has no source to compile.
   */
  function InsertDoc(table: Table, source: Option<InsertSource>, dialect: Dialect): Doc
    decreases source
  {
    match source
    case None => Raise(AssertionFault)
    case Some(DefaultValues) => Seq(W("insert into"), Seq(TableDoc(table, dialect), W("default values")))
    case Some(body) =>
      Swapped(Seq(W("insert into"), Seq(TableDoc(table, dialect), Parenthesized(NamesDoc(InsertColumns(body))))),
              InsertBody(body, dialect))
  }

  function QueryDoc(query: Query, dialect: Dialect): Doc
    decreases query
  {
    match query
    case SelectQuery(select) => SelectDoc(select, dialect)
    case Insert(table, source, conflict, returning) =>
      Seq(InsertDoc(table, source, dialect),
      Seq(if source == Some(DefaultValues) then Empty else ConflictClauseDoc(conflict, dialect),
          ReturningDoc(returning, dialect)))
    case Update(table, values, condition, _, returning) =>
      Seq(Swapped(Seq(W("update"), Seq(TableDoc(table, dialect), W("set"))), AssignmentsDoc(values, dialect)),
      Seq(ClauseDoc("where", condition, dialect), ReturningDoc(returning, dialect)))
    case Delete(table, condition, _, returning) =>
      Seq(W("delete from"), Seq(TableDoc(table, dialect),
      Seq(ClauseDoc("where", condition, dialect), ReturningDoc(returning, dialect))))
  }

  /** How many values a statement binds, whatever the ceiling. */
  function CountParameters(query: Query, dialect: Dialect): nat {
    |Binds(QueryDoc(query, dialect))|
  }

  // ---- What never binds a value --------------------------------------------------------------

  lemma FrameBindsNothing(frame: Frame, orders: nat, exclusion: Option<string>)
    ensures Binds(FrameDoc(frame, orders, exclusion)) == []
  {
    BindParts();
    hide Binds;
  }

  lemma {:induction false} NamesBindNothing(names: seq<string>)
    ensures Binds(NamesDoc(names)) == []
    decreases |names|
  {
    BindParts();
    hide Binds;
    if |names| > 1 {
      NamesBindNothing(names[1..]);
    }
  }

  lemma {:induction false} PredicateBindsNothing(node: Node)
    ensures Binds(PredicateDoc(node)) == []
    decreases node
  {
    BindParts();
    hide Binds;
    match node
    case Binary(left, _, right) =>
      PredicateBindsNothing(left);
      PredicateBindsNothing(right);
    case Unary(_, operand) =>
      PredicateBindsNothing(operand);
    case In(expression, values, _) =>
      PredicateBindsNothing(expression);
      PredicatesBindNothing(values);
    case Between(expression, lower, upper, _) =>
      PredicateBindsNothing(expression);
      PredicateBindsNothing(lower);
      PredicateBindsNothing(upper);
    case _ =>
  }

  lemma {:induction false} PredicatesBindNothing(nodes: seq<Node>)
    ensures Binds(PredicatesDoc(nodes)) == []
    decreases nodes
  {
    BindParts();
    hide Binds;
    if nodes != [] {
      PredicateBindsNothing(nodes[0]);
      PredicatesBindNothing(nodes[1..]);
    }
  }

  lemma TableBindsNothing(table: Table, dialect: Dialect)
    ensures Binds(TableDoc(table, dialect)) == []
  {
    BindParts();
    hide Binds;
  }
}

/**
 Print, then read: every rendered expression and every rendered statement is read back as
 itself, up to what its text does not show, so no two different ones share a text.
 */
module Reading {
  import opened Options
  import opened Ast
  import opened Document
  import opened Render
  import opened Reader
  import opened Nullability
  import opened Constants

  // ---- What an expression says ----------------------------------------------------------------

  function ReadInterval(node: Node, dialect: Dialect): Surface
    decreases node, 1
  {
    if node.Bound? then Interval(node.value) else Read(node, dialect)
  }

  function ReadClock(kind: string): Surface {
    if kind == "current_date" || kind == "current_time" then Single(kind)
    else if kind == "local_time" then Single("localtime")
    else if kind == "local_timestamp" then Single("localtimestamp")
    else Called(kind, [])
  }

  /** `NullableResult` prints nothing; nodes with the same text say the same. */
  function Read(node: Node, dialect: Dialect): Surface
    decreases node, 0
  {
    match node
    case Column(source, name) => Named(source, name)
    case Bound(value) => Placeholder(value)
    case Clock(kind) => ReadClock(kind)
    case Binary(left, operator, right) => Infixed(Read(left, dialect), operator, Read(right, dialect))
    case TemporalCall(callee, arguments) => Called(callee, ReadAll(arguments, dialect))
    case MakeInterval(components) => Components(ReadComponents(components, dialect))
    case Arithmetic(timestamp, operator, interval) =>
      Infixed(Read(timestamp, dialect), operator, ReadInterval(interval, dialect))
    case TemporalInfix(left, operator, right) => Infixed(Read(left, dialect), operator, Read(right, dialect))
    case NegatedInterval(interval) => Negated(Read(interval, dialect))
    case Extract(field, expression) => Extracted(field, Read(expression, dialect))
    case Trunc(unit, expression, zone) => Truncated(unit, Read(expression, dialect), ReadOption(zone, dialect))
    case Bin(stride, expression, origin) =>
      Called("date_bin", [ReadInterval(stride, dialect), Read(expression, dialect), Read(origin, dialect)])
    case Overlaps(leftStart, leftEnd, rightStart, rightEnd) =>
      Infixed(Pair(Read(leftStart, dialect), Read(leftEnd, dialect)), "overlaps",
              Pair(Read(rightStart, dialect), Read(rightEnd, dialect)))
    case Unary(operator, operand) => Postfixed(Read(operand, dialect), operator)
    case Function(name, arguments) => Called(name, ReadAll(arguments, dialect))
    case Case(branches, otherwise) => Cases(ReadBranches(branches, dialect), Read(otherwise, dialect))
    case Aggregate(name, arguments, filter) => WithFilter(Called(name, ReadAll(arguments, dialect)), ReadOption(filter, dialect))
    case Window(expression, partitionBy, orderBy, frame, exclusion) =>
      Reader.Over(Read(expression, dialect), ReadAll(partitionBy, dialect), ReadOrders(orderBy, dialect),
                  ReadFrame(frame, exclusion))
    case Alias(expression, _) => Read(expression, dialect)
    case NullableResult(expression) => Read(expression, dialect)
    case Star => Single("*")
    case In(expression, values, negated) => Member(Read(expression, dialect), Not(negated, "in"), ReadAll(values, dialect))
    case InQuery(expression, query, negated) =>
      MemberOf(Read(expression, dialect), Not(negated, "in"), ReadSelect(query, dialect))
    case Between(expression, lower, upper, negated) =>
      Within(Read(expression, dialect), Not(negated, "between"), Read(lower, dialect), Read(upper, dialect))
    case ScalarSubquery(query) => Nested(ReadSelect(query, dialect))
    case Exists(query, negated) => Existing(Not(negated, "exists"), ReadSelect(query, dialect))
    case Excluded(_, name) => Proposed(name)
    case PostgresInfix(left, operator, right) => Infixed(Read(left, dialect), operator, Read(right, dialect))
    case UuidCast(operand) => Cast(Read(operand, dialect))
  }

  function WithFilter(call: Surface, condition: Option<Surface>): Surface {
    if condition.None? then call else Filtered(call, condition.value)
  }

  function ReadFrame(frame: Option<Frame>, exclusion: Option<string>): Option<Framing> {
    if frame.None? then None else Some(Framing(frame.value, exclusion))
  }

  function ReadOption(node: Option<Node>, dialect: Dialect): Option<Surface>
    decreases node
  {
    if node.None? then None else Some(Read(node.value, dialect))
  }

  function ReadAll(nodes: seq<Node>, dialect: Dialect): seq<Surface>
    decreases nodes
  {
    if nodes == [] then [] else [Read(nodes[0], dialect)] + ReadAll(nodes[1..], dialect)
  }

  function ReadComponent(cell: Cell, dialect: Dialect): (string, Surface)
    decreases cell
  {
    (cell.name, Read(cell.value, dialect))
  }

  function ReadComponents(cells: seq<Cell>, dialect: Dialect): seq<(string, Surface)>
    decreases cells
  {
    if cells == [] then [] else [ReadComponent(cells[0], dialect)] + ReadComponents(cells[1..], dialect)
  }

  function ReadBranch(branch: Branch, dialect: Dialect): (Surface, Surface)
    decreases branch
  {
    (Read(branch.condition, dialect), Read(branch.value, dialect))
  }

  function ReadBranches(branches: seq<Branch>, dialect: Dialect): seq<(Surface, Surface)>
    decreases branches
  {
    if branches == [] then [] else [ReadBranch(branches[0], dialect)] + ReadBranches(branches[1..], dialect)
  }

  function ReadOrder(order: Order, dialect: Dialect): Ordering
    decreases order
  {
    Ordering(Read(order.expression, dialect), order.direction, order.nulls)
  }

  function ReadOrders(orders: seq<Order>, dialect: Dialect): seq<Ordering>
    decreases orders
  {
    if orders == [] then [] else [ReadOrder(orders[0], dialect)] + ReadOrders(orders[1..], dialect)
  }

  // ---- What a statement says ------------------------------------------------------------------------

  function ReadSelect(select: Select, dialect: Dialect): QuerySaid
    decreases select, 2
  {
    WithArms(ReadArm(select, dialect), ReadCompounds(select.compounds, dialect))
  }

  function WithArms(said: QuerySaid, compounds: seq<CompoundSaid>): QuerySaid {
    if said.SelectSaid? then said.(compounds := compounds) else said
  }

  function ReadArm(select: Select, dialect: Dialect): (r: QuerySaid)
    ensures r.SelectSaid? && r.compounds == []
    decreases select, 1
  {
    SelectSaid(exists c :: c in select.ctes && c.recursive, ReadCtes(select.ctes, dialect),
               ReadProjection(select, dialect), ReadConditions(select, dialect), ReadFinish(select, dialect), [])
  }

  function ReadProjection(select: Select, dialect: Dialect): Projection
    decreases select, 0
  {
    Projection(select.distinct, ReadSelections(select.selections, dialect), ReadBase(select.base, dialect),
               ReadJoins(select.joins, dialect))
  }

  function ReadConditions(select: Select, dialect: Dialect): Conditions
    decreases select, 0
  {
    Conditions(ReadOption(select.condition, dialect), ReadAll(select.groupBy, dialect), ReadOption(select.having, dialect))
  }

  /** A bare offset is printed behind the limit that SQLite wants. */
  function ReadFinish(select: Select, dialect: Dialect): Finish
    decreases select, 0
  {
    Finish(ReadOrders(select.orderBy, dialect),
           if select.limit.None? && select.offset.Some? && dialect.offsetRequiresLimit then Some(-1) else select.limit,
           select.offset, ReadLocks(select.locks))
  }

  function ReadCte(cte: Cte, dialect: Dialect): CteSaid
    decreases cte
  {
    CteSaid(cte.name, cte.materialized, ReadQuery(cte.query, dialect))
  }

  function ReadCtes(ctes: seq<Cte>, dialect: Dialect): seq<CteSaid>
    decreases ctes
  {
    if ctes == [] then [] else [ReadCte(ctes[0], dialect)] + ReadCtes(ctes[1..], dialect)
  }

  function ReadSelection(node: Node, dialect: Dialect): Selected
    decreases node, 1
  {
    match node
    case NullableResult(expression) => ReadSelection(expression, dialect)
    case Alias(expression, alias) => Selected(Read(expression, dialect), Some(alias))
    case _ => Selected(Read(node, dialect), None)
  }

  function ReadSelections(nodes: seq<Node>, dialect: Dialect): seq<Selected>
    decreases nodes
  {
    if nodes == [] then [] else [ReadSelection(nodes[0], dialect)] + ReadSelections(nodes[1..], dialect)
  }

  function ReadBase(base: Option<Source>, dialect: Dialect): SourceSaid
    decreases base
  {
    if base.None? then Relation(Table("", None, None)) else ReadSource(base.value, dialect)
  }

  function ReadSource(source: Source, dialect: Dialect): SourceSaid
    decreases source
  {
    match source
    case Stored(table) => Relation(table)
    case CteSource(name) => Relation(Table(name, None, None))
    case Derived(query, correlation) => Subselect(ReadSelect(query, dialect), correlation)
  }

  function ReadJoin(join: Join, dialect: Dialect): JoinSaid
    decreases join
  {
    JoinSaid(join.kind, ReadSource(join.source, dialect), if join.kind == "cross" then None else Some(Read(join.on, dialect)))
  }

  function ReadJoins(joins: seq<Join>, dialect: Dialect): seq<JoinSaid>
    decreases joins
  {
    if joins == [] then [] else [ReadJoin(joins[0], dialect)] + ReadJoins(joins[1..], dialect)
  }

  function ReadLocks(locks: seq<Lock>): seq<LockSaid>
    decreases |locks|
  {
    if locks == [] then []
    else [LockSaid(locks[0].strength, ReadTables(locks[0].tables), locks[0].waiting)] + ReadLocks(locks[1..])
  }

  /** A locked table goes by its alias, or else by its name. */
  function ReadTables(tables: seq<Table>): (r: seq<string>)
    ensures |r| == |tables|
  {
    seq(|tables|, i requires 0 <= i < |tables| =>
      if tables[i].alias == None || tables[i].alias == Some("") then tables[i].name else tables[i].alias.value)
  }

  function ReadCompound(compound: Compound, dialect: Dialect): CompoundSaid
    decreases compound
  {
    CompoundSaid(compound.operator, ReadSelect(compound.query, dialect))
  }

  function ReadCompounds(compounds: seq<Compound>, dialect: Dialect): seq<CompoundSaid>
    decreases compounds
  {
    if compounds == [] then [] else [ReadCompound(compounds[0], dialect)] + ReadCompounds(compounds[1..], dialect)
  }

  function ReadQuery(query: Query, dialect: Dialect): QuerySaid
    decreases query
  {
    match query
    case SelectQuery(select) => ReadSelect(select, dialect)
    case Insert(table, source, conflict, returning) =>
      if source.None? || source.value.DefaultValues? then
        InsertSaid(table, [], NoValues, None, ReadSelections(returning, dialect))
      else
        InsertSaid(table, InsertColumns(source.value), ReadBody(source.value, dialect), ReadConflict(conflict, dialect),
                   ReadSelections(returning, dialect))
    case Update(table, values, condition, _, returning) =>
      UpdateSaid(table, ReadComponents(values, dialect), ReadOption(condition, dialect), ReadSelections(returning, dialect))
    case Delete(table, condition, _, returning) =>
      DeleteSaid(table, ReadOption(condition, dialect), ReadSelections(returning, dialect))
  }

  function ReadBody(source: InsertSource, dialect: Dialect): BodySaid
    decreases source
  {
    match source
    case Values(cells) => RowsSaid([ReadCells(cells, dialect)])
    case Rows(rows) => RowsSaid(ReadRows(rows, dialect))
    case FromSelect(query, _) => QueryBody(ReadSelect(query, dialect))
    case DefaultValues => NoValues
  }

  function ReadCell(cell: Cell, dialect: Dialect): Surface
    decreases cell
  {
    Read(cell.value, dialect)
  }

  function ReadCells(cells: seq<Cell>, dialect: Dialect): seq<Surface>
    decreases cells
  {
    if cells == [] then [] else [ReadCell(cells[0], dialect)] + ReadCells(cells[1..], dialect)
  }

  function ReadRow(row: Row, dialect: Dialect): seq<Surface>
    decreases row
  {
    ReadCells(row.cells, dialect)
  }

  function ReadRows(rows: seq<Row>, dialect: Dialect): seq<seq<Surface>>
    decreases rows
  {
    if rows == [] then [] else [ReadRow(rows[0], dialect)] + ReadRows(rows[1..], dialect)
  }

  function ReadConflict(conflict: Option<Conflict>, dialect: Dialect): Option<ConflictSaid>
    decreases conflict
  {
    if conflict.None? then None
    else
      Some(ConflictSaid(conflict.value.columns,
                        if conflict.value.targetWhere.None? then None else Some(ReadPredicate(conflict.value.targetWhere.value)),
                        ReadAction(conflict.value, dialect)))
  }

  function ReadAction(conflict: Conflict, dialect: Dialect): ActionSaid
    decreases conflict
  {
    if conflict.action == "nothing" then DoNothing
    else DoUpdate(ReadComponents(conflict.updateValues, dialect), ReadOption(conflict.updateWhere, dialect))
  }

  function ReadConstant(value: Value): Surface {
    match value
    case Null => Single("null")
    case Bool(flag) => Single(if flag then "true" else "false")
    case Int(number) => Constant(Number(number))
    case Str(text) => Constant(EscapeString(text))
    case _ => Placeholder(value)
  }

  /** An arbiter predicate says the constants themselves. */
  function ReadPredicate(node: Node): Surface
    decreases node
  {
    match node
    case Column(source, name) => Named(source, name)
    case Bound(value) => ReadConstant(value)
    case Binary(left, operator, right) => Infixed(ReadPredicate(left), operator, ReadPredicate(right))
    case Unary(operator, operand) => Postfixed(ReadPredicate(operand), operator)
    case In(expression, values, negated) => Member(ReadPredicate(expression), Not(negated, "in"), ReadPredicates(values))
    case Between(expression, lower, upper, negated) =>
      Within(ReadPredicate(expression), Not(negated, "between"), ReadPredicate(lower), ReadPredicate(upper))
    case _ => Single("")
  }

  function ReadPredicates(nodes: seq<Node>): seq<Surface>
    decreases nodes
  {
    if nodes == [] then [] else [ReadPredicate(nodes[0])] + ReadPredicates(nodes[1..])
  }

  // ---- Which expressions -------------------------------------------------------------------------

  /** Words that have a meaning of their own in front of a parenthesis, or instead of one. */
  predicate IsFunctionName(name: string) {
    name !in SINGLE_WORDS && name !in SPECIAL_WORDS && name !in QUERY_WORDS
  }

  predicate IsInfix(operator: string) {
    operator !in BETWEEN && operator !in MEMBERSHIP
  }

  predicate IsFrameKind(kind: string) {
    kind !in {"::interval", "filter", "over", "order by", "partition by", "nulls"}
  }

  predicate Directed(order: Order) {
    order.direction == "asc" || order.direction == "desc"
  }

  /**
   Names and operators stay out of the grammar's own words, a window stands on a call, and
   no alias is nested in an expression.  Aliases aside, the builders make nothing else.
   */
  predicate Proper(node: Node)
    decreases node, 0
  {
    && !node.Alias?
    && (forall c :: c in Children(node) ==> Proper(c))
    && match node
       case Clock(kind) => IsFunctionName(kind) || kind == "current_date" || kind == "current_time"
       case Binary(_, operator, _) => IsInfix(operator)
       case TemporalInfix(_, operator, _) => IsInfix(operator)
       case PostgresInfix(_, operator, _) => IsInfix(operator)
       case Arithmetic(_, operator, _) => IsInfix(operator)
       case TemporalCall(callee, _) => IsFunctionName(callee)
       case Function(name, _) => IsFunctionName(name)
       case Aggregate(name, _, _) => IsFunctionName(name)
       case Window(expression, _, orders, frame, _) =>
         && (expression.Function? || expression.Aggregate?)
         && (forall o :: o in orders ==> Directed(o))
         && (frame.Some? ==> IsFrameKind(frame.value.kind))
       case ScalarSubquery(query) => ProperSelect(query)
       case Exists(query, _) => ProperSelect(query)
       case InQuery(_, query, _) => ProperSelect(query)
       case _ => true
  }

  predicate AllProper(nodes: seq<Node>)
    decreases nodes
  {
    forall i :: 0 <= i < |nodes| ==> Proper(nodes[i])
  }

  predicate ProperOption(node: Option<Node>)
    decreases node
  {
    node.Some? ==> Proper(node.value)
  }

  /** A selected expression may be given a name. */
  predicate ProperSelection(node: Node)
    decreases node, 1
  {
    match node
    case NullableResult(expression) => ProperSelection(expression)
    case Alias(expression, _) => Proper(expression)
    case _ => Proper(node)
  }

  predicate ProperSelections(nodes: seq<Node>)
    decreases nodes
  {
    forall i :: 0 <= i < |nodes| ==> ProperSelection(nodes[i])
  }

  predicate ProperOrder(order: Order)
    decreases order
  {
    Directed(order) && Proper(order.expression)
  }

  predicate ProperSource(source: Source)
    decreases source
  {
    source.Derived? ==> ProperSelect(source.query)
  }

  predicate ProperJoin(join: Join)
    decreases join
  {
    join.kind in JOIN_KINDS && ProperSource(join.source) && (join.kind != "cross" ==> Proper(join.on))
  }

  predicate ProperCte(cte: Cte)
    decreases cte
  {
    ProperQuery(cte.query)
  }

  /** An arm of a compound has no arms of its own. */
  predicate ProperCompound(compound: Compound)
    decreases compound
  {
    compound.operator in COMPOUND_WORDS && compound.query.compounds == [] && ProperSelect(compound.query)
  }

  /** What validation and the builders' types guarantee, as far as the text depends on it. */
  predicate ProperSelect(select: Select)
    decreases select
  {
    && select.base.Some? && ProperSource(select.base.value)
    && ProperSelections(select.selections)
    && (forall i :: 0 <= i < |select.joins| ==> ProperJoin(select.joins[i]))
    && ProperOption(select.condition) && AllProper(select.groupBy) && ProperOption(select.having)
    && (forall i :: 0 <= i < |select.orderBy| ==> ProperOrder(select.orderBy[i]))
    && (forall l :: l in select.locks && l.waiting.Some? ==> l.waiting.value in WAITING_WORDS)
    && (forall i :: 0 <= i < |select.ctes| ==> ProperCte(select.ctes[i]))
    && (forall i :: 0 <= i < |select.compounds| ==> ProperCompound(select.compounds[i]))
  }

  predicate ProperCells(cells: seq<Cell>)
    decreases cells
  {
    forall i :: 0 <= i < |cells| ==> ProperCell(cells[i])
  }

  predicate ProperCell(cell: Cell)
    decreases cell
  {
    Proper(cell.value)
  }

  predicate ProperRow(row: Row)
    decreases row
  {
    ProperCells(row.cells)
  }

  predicate ProperBody(source: InsertSource)
    decreases source
  {
    match source
    case Values(cells) => ProperCells(cells)
    case Rows(rows) => rows != [] && forall i :: 0 <= i < |rows| ==> ProperRow(rows[i])
    case FromSelect(query, _) => ProperSelect(query)
    case DefaultValues => true
  }

  predicate ProperConflict(conflict: Conflict)
    decreases conflict
  {
    && conflict.action in {"nothing", "update"}
    && (conflict.targetWhere.Some? ==> Allowed(conflict.targetWhere.value))
    && ProperCells(conflict.updateValues) && ProperOption(conflict.updateWhere)
  }

  predicate ProperQuery(query: Query)
    decreases query
  {
    match query
    case SelectQuery(select) => ProperSelect(select)
    case Insert(_, source, conflict, returning) =>
      && source.Some? && ProperBody(source.value)
      && (conflict.Some? ==> ProperConflict(conflict.value))
      && ProperSelections(returning)
    case Update(_, values, condition, _, returning) =>
      ProperCells(values) && ProperOption(condition) && ProperSelections(returning)
    case Delete(_, condition, _, returning) => ProperOption(condition) && ProperSelections(returning)
  }

  /** What may follow an expression without being taken into it. */
  predicate Follows(list: List) {
    !IsWord(list, "::interval") && !IsWord(list, "filter") && !IsWord(list, "over")
  }

  // ---- Text -----------------------------------------------------------------------------------------

  lemma FlowParts()
    ensures forall a, b, t {:trigger Flow(Seq(a, b), t)} :: Flow(Seq(a, b), t) == Flow(a, Flow(b, t))
    ensures forall a, b, t {:trigger Flow(Swapped(a, b), t)} :: Flow(Swapped(a, b), t) == Flow(a, Flow(b, t))
    ensures forall d, t {:trigger Flow(Paren(d), t)} :: Flow(Paren(d), t) == Cons(Opens, Flow(d, Cons(Closes, t)))
    ensures forall x: Token, t {:trigger Flow(Raw(x), t)} :: Flow(Raw(x), t) == Cons(Plain(x), t)
    ensures forall v: Value, t {:trigger Flow(Bind(v), t)} :: Flow(Bind(v), t) == Cons(Valued(v), t)
    ensures forall f: Fault, t {:trigger Flow(Raise(f), t)} :: Flow(Raise(f), t) == t
    ensures forall t {:trigger Flow(Empty, t)} :: Flow(Empty, t) == t
  {
  }

  /** `doc` in front of a text that has been split at a closing parenthesis. */
  function InFront(doc: Doc, r: Option<(List, List)>): Option<(List, List)> {
    if r.None? then None else Some((Flow(doc, r.value.0), r.value.1))
  }

  /** Documents are balanced: their parentheses never close one that was open before. */
  lemma {:induction false} BalancedFlow(doc: Doc, tail: List, depth: nat)
    ensures Balanced(Flow(doc, tail), depth) == InFront(doc, Balanced(tail, depth))
  {
    match doc
    case Empty | Raise(_) | Raw(_) | Bind(_) =>
    case Paren(inner) =>
      BalancedFlow(inner, Cons(Closes, tail), depth + 1);
    case Seq(first, second) =>
      BalancedFlow(first, Flow(second, tail), depth);
      BalancedFlow(second, tail, depth);
    case Swapped(first, second) =>
      BalancedFlow(first, Flow(second, tail), depth);
      BalancedFlow(second, tail, depth);
  }

  /** So a nested statement is taken whole. */
  lemma TakenWhole(doc: Doc, tail: List)
    ensures Balanced(Flow(doc, Cons(Closes, tail)), 0) == Some((Flow(doc, Nil), tail))
  {
    BalancedFlow(doc, Cons(Closes, tail), 0);
  }

  lemma QueryStarts(query: Select, dialect: Dialect, tail: List)
    ensures StartsQuery(Flow(SelectDoc(query, dialect), tail))
  {
    FlowParts();
    hide Flow, CtesDoc, NodeDoc, ListDoc, SourceDoc, JoinsDoc, FilterDoc, TailDoc;
  }

  /** An expression does not start like a statement, a closing parenthesis or a negation. */
  predicate StartsExpression(list: List) {
    && list.Cons? && !list.head.Closes? && !StartsQuery(list) && !IsWord(list, "-")
    && !IsWord(list, "from") && !IsWord(list, "distinct")
  }

  lemma {:induction false} NodeStarts(node: Node, dialect: Dialect, tail: List)
    requires Proper(node)
    ensures StartsExpression(Flow(NodeDoc(node, dialect), tail))
    decreases node
  {
    if node.NullableResult? {
      assert node.expression in Children(node);
      NodeStarts(node.expression, dialect, tail);
    } else if node.Window? {
      WindowStarts(node, dialect, tail);
    } else if IsTemporalCall(node) {
      TemporalStarts(node, dialect, tail);
    } else {
      PlainStarts(node, dialect, tail);
    }
    hide StartsExpression, Proper, NodeDoc;
  }

  predicate IsTemporalCall(node: Node) {
    node.Clock? || node.TemporalCall? || node.MakeInterval? || node.Extract? || node.Trunc? || node.Bin?
  }

  lemma {:induction false} TemporalStarts(node: Node, dialect: Dialect, tail: List)
    requires Proper(node) && IsTemporalCall(node)
    ensures StartsExpression(Flow(NodeDoc(node, dialect), tail))
  {
    FlowParts();
    hide Flow, ListDoc, ComponentsDoc, IntervalDoc, Children;
  }

  lemma {:induction false} PlainStarts(node: Node, dialect: Dialect, tail: List)
    requires Proper(node) && !node.NullableResult? && !node.Window? && !IsTemporalCall(node)
    ensures StartsExpression(Flow(NodeDoc(node, dialect), tail))
  {
    FlowParts();
    hide Flow, ListDoc, BranchesDoc, SelectDoc, Children;
  }

  lemma {:induction false} WindowStarts(node: Node, dialect: Dialect, tail: List)
    requires Proper(node) && node.Window?
    ensures StartsExpression(Flow(NodeDoc(node, dialect), tail))
  {
    assert node.expression in [node.expression] + node.partitionBy + OrderExpressions(node.orderBy);
    assert node.expression in Children(node);
    WindowFlow(node, dialect, tail);
    PlainStarts(node.expression, dialect, Cons(Plain(Word("over")), Cons(Opens, ClausesFlow(node, dialect, Cons(Closes, tail)))));
    hide StartsExpression, Proper, NodeDoc, Children;
  }

  /** The text between the parentheses of OVER. */
  function ClausesFlow(node: Node, dialect: Dialect, tail: List): List
    requires node.Window?
  {
    Flow(PartitionDoc(node.partitionBy, dialect),
    Flow(OrderByDoc(node.orderBy, dialect),
    Flow(if node.frame.None? then Empty else FrameDoc(node.frame.value, |node.orderBy|, node.exclusion), tail)))
  }

  lemma {:induction false} WindowFlow(node: Node, dialect: Dialect, tail: List)
    requires node.Window?
    ensures Flow(NodeDoc(node, dialect), tail) ==
      Flow(NodeDoc(node.expression, dialect), Cons(Plain(Word("over")), Cons(Opens, ClausesFlow(node, dialect, Cons(Closes, tail)))))
  {
    FlowParts();
    hide Flow, PartitionDoc, OrderByDoc, FrameDoc;
  }

  // ---- What proper means for the parts --------------------------------------------------------------------

  lemma ProperOperands(node: Node)
    requires Proper(node)
    ensures node.Binary? || node.TemporalInfix? || node.PostgresInfix? ==>
              Proper(node.left) && Proper(node.right) && IsInfix(node.operator)
    ensures node.Arithmetic? ==> Proper(node.timestamp) && Proper(node.interval) && IsInfix(node.operator)
    ensures node.NegatedInterval? ==> Proper(node.interval)
    ensures node.Unary? || node.UuidCast? ==> Proper(node.operand)
    ensures node.Extract? || node.InQuery? ==> Proper(node.expression)
    ensures node.Between? ==> Proper(node.expression) && Proper(node.lower) && Proper(node.upper)
    ensures node.Bin? ==> Proper(node.stride) && Proper(node.expression) && Proper(node.origin)
    ensures node.ScalarSubquery? || node.Exists? || node.InQuery? ==> ProperSelect(node.query)
  {
    assert node.Binary? || node.TemporalInfix? || node.PostgresInfix? ==> node.left in Children(node) && node.right in Children(node);
    assert node.Arithmetic? ==> node.timestamp in Children(node) && node.interval in Children(node);
    assert node.NegatedInterval? ==> node.interval in Children(node);
    assert node.Unary? || node.UuidCast? ==> node.operand in Children(node);
    assert node.Extract? || node.InQuery? ==> node.expression in Children(node);
    assert node.Between? ==> node.expression in Children(node) && node.lower in Children(node) && node.upper in Children(node);
    assert node.Bin? ==> node.stride in Children(node) && node.expression in Children(node) && node.origin in Children(node);
    hide ProperSelect, IsInfix;
  }

  /** The operands that come in lists. */
  lemma ProperLists(node: Node)
    requires Proper(node)
    ensures node.Function? || node.TemporalCall? || node.Aggregate? ==> forall n :: n in node.arguments ==> Proper(n)
    ensures node.In? ==> Proper(node.expression) && forall n :: n in node.values ==> Proper(n)
    ensures node.MakeInterval? ==> forall n :: n in CellValues(node.components) ==> Proper(n)
    ensures node.Case? ==> Proper(node.otherwise) && forall n :: n in BranchNodes(node.branches) ==> Proper(n)
  {
    if node.Aggregate? {
      assert forall n :: n in node.arguments ==> n in node.arguments + Present(node.filter);
    } else if node.In? {
      assert forall n :: n in [node.expression] + node.values ==> n in Children(node);
      assert node.expression in [node.expression] + node.values;
      assert forall n :: n in node.values ==> n in [node.expression] + node.values;
    } else if node.Case? {
      assert forall n :: n in BranchNodes(node.branches) + [node.otherwise] ==> n in Children(node);
      assert node.otherwise in BranchNodes(node.branches) + [node.otherwise];
      assert forall n :: n in BranchNodes(node.branches) ==> n in BranchNodes(node.branches) + [node.otherwise];
    }
    hide ProperSelect;
  }

  lemma ProperParts(select: Select)
    requires ProperSelect(select)
    ensures select.base.Some? && ProperSource(select.base.value) && ProperSelections(select.selections)
    ensures forall i :: 0 <= i < |select.joins| ==> ProperJoin(select.joins[i])
    ensures ProperOption(select.condition) && AllProper(select.groupBy) && ProperOption(select.having)
    ensures forall i :: 0 <= i < |select.ctes| ==> ProperCte(select.ctes[i])
    ensures forall i :: 0 <= i < |select.compounds| ==> ProperCompound(select.compounds[i])
    ensures forall l :: l in select.locks && l.waiting.Some? ==> l.waiting.value in WAITING_WORDS
  {
    hide ProperSource, ProperSelections, ProperJoin, ProperOption, AllProper, ProperCte, ProperCompound;
  }

  lemma ProperStatement(query: Ast.Query)
    requires ProperQuery(query)
    ensures query.SelectQuery? ==> ProperSelect(query.select)
    ensures !query.SelectQuery? ==> ProperSelections(query.returning)
    ensures query.Insert? ==> query.source.Some? && ProperBody(query.source.value)
                              && (query.conflict.Some? ==> ProperConflict(query.conflict.value))
    ensures query.Update? ==> ProperCells(query.values)
    ensures query.Update? || query.Delete? ==> ProperOption(query.condition)
  {
    hide ProperSelect, ProperSelections, ProperBody, ProperConflict, ProperCells, ProperOption;
  }

  lemma ProperClause(conflict: Conflict)
    requires ProperConflict(conflict)
    ensures conflict.action in {"nothing", "update"} && ProperCells(conflict.updateValues) && ProperOption(conflict.updateWhere)
    ensures conflict.targetWhere.Some? ==> Allowed(conflict.targetWhere.value)
  {
    hide ProperCells, ProperOption, Allowed;
  }

  // ---- Reading it back ------------------------------------------------------------------------------

  /** The expression is read, and exactly its own text is consumed. */
  predicate ReadsBack(node: Node, dialect: Dialect, tail: List) {
    Expression(Flow(NodeDoc(node, dialect), tail)) == Some((Read(node, dialect), tail))
  }

  lemma {:induction false} InfixReads(left: Node, operator: string, right: Node, dialect: Dialect, tail: List,
                                      parent: Node)
    requires left < parent && right < parent && Proper(left) && Proper(right) && IsInfix(operator)
    ensures Expression(Flow(Infix(NodeDoc(left, dialect), Operator(operator), NodeDoc(right, dialect)), tail)) ==
            Some((Infixed(Read(left, dialect), operator, Read(right, dialect)), tail))
    decreases parent, 0
  {
    FlowParts();
    hide Flow, NodeDoc, Read, Proper;
    var last := Flow(NodeDoc(right, dialect), Cons(Closes, tail));
    NodeStarts(left, dialect, Cons(Plain(Operator(operator)), last));
    NodeReads(left, dialect, Cons(Plain(Operator(operator)), last));
    NodeStarts(right, dialect, Cons(Closes, tail));
    NodeReads(right, dialect, Cons(Closes, tail));
    var list := Flow(NodeDoc(left, dialect), Cons(Plain(Operator(operator)), last));
    hide Expression, StartsExpression, IsInfix;
    InfixEnclosed(list, Read(left, dialect), operator, last, Read(right, dialect), tail);
  }

  lemma {:induction false} IntervalReads(node: Node, dialect: Dialect, tail: List)
    requires Proper(node) && Follows(tail)
    ensures Expression(Flow(IntervalDoc(node, dialect), tail)) == Some((ReadInterval(node, dialect), tail))
    decreases node, 4
  {
    FlowParts();
    NodeReads(node, dialect, tail);
    hide Flow;
  }

  lemma IntervalStarts(node: Node, dialect: Dialect, tail: List)
    requires Proper(node)
    ensures StartsExpression(Flow(IntervalDoc(node, dialect), tail))
  {
    FlowParts();
    NodeStarts(node, dialect, tail);
    NodeStarts(node, dialect, Cons(Plain(Word("::interval")), tail));
    hide Flow, NodeDoc, Proper, StartsExpression;
  }

  lemma {:induction false} ArithmeticReads(node: Node, dialect: Dialect, tail: List)
    requires node.Arithmetic? && Proper(node)
    ensures ReadsBack(node, dialect, tail)
    decreases node, 0
  {
    hide Proper, Children, Flow, IntervalDoc, ReadInterval, Expression, StartsExpression, IsInfix;
    ProperOperands(node);
    var last := Flow(IntervalDoc(node.interval, dialect), Cons(Closes, tail));
    NodeStarts(node.timestamp, dialect, Cons(Plain(Operator(node.operator)), last));
    NodeReads(node.timestamp, dialect, Cons(Plain(Operator(node.operator)), last));
    IntervalReads(node.interval, dialect, Cons(Closes, tail));
    IntervalStarts(node.interval, dialect, Cons(Closes, tail));
    var list := Flow(NodeDoc(node.timestamp, dialect), Cons(Plain(Operator(node.operator)), last));
    assert Flow(NodeDoc(node, dialect), tail) == Cons(Opens, list) by {
      FlowParts();
    }
    assert Read(node, dialect) == Infixed(Read(node.timestamp, dialect), node.operator, ReadInterval(node.interval, dialect));
    InfixEnclosed(list, Read(node.timestamp, dialect), node.operator, last, ReadInterval(node.interval, dialect), tail);
  }

  lemma {:induction false} PairReads(first: Node, second: Node, dialect: Dialect, tail: List, parent: Node)
    requires first < parent && second < parent && Proper(first) && Proper(second)
    ensures Expression(Flow(Parenthesized(Seq(NodeDoc(first, dialect), Seq(Raw(Comma), NodeDoc(second, dialect)))), tail)) ==
            Some((Pair(Read(first, dialect), Read(second, dialect)), tail))
    decreases parent, 0
  {
    FlowParts();
    hide Flow, NodeDoc, Read, Proper;
    var last := Flow(NodeDoc(second, dialect), Cons(Closes, tail));
    NodeStarts(first, dialect, Cons(Plain(Comma), last));
    NodeReads(first, dialect, Cons(Plain(Comma), last));
    NodeReads(second, dialect, Cons(Closes, tail));
    var list := Flow(NodeDoc(first, dialect), Cons(Plain(Comma), last));
    assert Enclosed(list) == Operated(Read(first, dialect), Cons(Plain(Comma), last));
    assert Expression(Cons(Opens, list)) == Enclosed(list);
  }

  lemma {:induction false} OverlapsReads(node: Node, dialect: Dialect, tail: List)
    requires node.Overlaps? && Proper(node)
    ensures ReadsBack(node, dialect, tail)
    decreases node, 1
  {
    var (a, b, c, d) := (node.leftStart, node.leftEnd, node.rightStart, node.rightEnd);
    assert a in Children(node) && b in Children(node) && c in Children(node) && d in Children(node);
    FlowParts();
    hide Flow, Proper, Children;
    var right := Parenthesized(Seq(NodeDoc(c, dialect), Seq(Raw(Comma), NodeDoc(d, dialect))));
    var left := Parenthesized(Seq(NodeDoc(a, dialect), Seq(Raw(Comma), NodeDoc(b, dialect))));
    var last := Flow(right, Cons(Closes, tail));
    PairReads(a, b, dialect, Cons(Plain(Operator("overlaps")), last), node);
    PairReads(c, d, dialect, Cons(Closes, tail), node);
    var list := Flow(left, Cons(Plain(Operator("overlaps")), last));
    assert Flow(NodeDoc(node, dialect), tail) == Cons(Opens, list);
    assert Read(node, dialect) ==
      Infixed(Pair(Read(a, dialect), Read(b, dialect)), "overlaps", Pair(Read(c, dialect), Read(d, dialect)));
    OverlapsEnclosed(list, Pair(Read(a, dialect), Read(b, dialect)), last, Pair(Read(c, dialect), Read(d, dialect)), tail);
    hide Expression, NodeDoc, Read;
  }

  lemma {:induction false} OverlapsEnclosed(list: List, left: Surface, last: List, right: Surface, tail: List)
    requires list.Cons? && list.head.Opens? && last.Cons? && last.head.Opens?
    requires Expression(list) == Some((left, Cons(Plain(Operator("overlaps")), last)))
    requires Expression(last) == Some((right, Cons(Closes, tail)))
    ensures Expression(Cons(Opens, list)) == Some((Infixed(left, "overlaps", right), tail))
  {
    assert Enclosed(list) == Operated(left, Cons(Plain(Operator("overlaps")), last));
    assert Operated(left, Cons(Plain(Operator("overlaps")), last)) ==
      Ending(Infixed(left, "overlaps", right), Cons(Closes, tail));
  }

  lemma {:induction false} UnaryReads(node: Node, dialect: Dialect, tail: List)
    requires node.Unary? && Proper(node)
    ensures ReadsBack(node, dialect, tail)
    decreases node, 0
  {
    assert node.operand in Children(node);
    hide Proper, Children, StartsExpression;
    var last := Cons(Plain(Operator(node.operator)), Cons(Closes, tail));
    NodeStarts(node.operand, dialect, last);
    NodeReads(node.operand, dialect, last);
    var list := Flow(NodeDoc(node.operand, dialect), last);
    assert Flow(NodeDoc(node, dialect), tail) == Cons(Opens, list) by {
      FlowParts();
      hide Flow;
    }
    assert Read(node, dialect) == Postfixed(Read(node.operand, dialect), node.operator);
    hide Flow, NodeDoc, Read, Expression;
    PostfixEnclosed(list, Read(node.operand, dialect), node.operator, tail);
  }

  lemma {:induction false} NegationReads(node: Node, dialect: Dialect, tail: List)
    requires node.NegatedInterval? && Proper(node)
    ensures ReadsBack(node, dialect, tail)
    decreases node, 0
  {
    assert node.interval in Children(node);
    hide Proper, Children;
    NodeReads(node.interval, dialect, Cons(Closes, tail));
    var list := Cons(Plain(Word("-")), Flow(NodeDoc(node.interval, dialect), Cons(Closes, tail)));
    assert Flow(NodeDoc(node, dialect), tail) == Cons(Opens, list) by {
      FlowParts();
      hide Flow;
    }
    assert Read(node, dialect) == Negated(Read(node.interval, dialect));
    hide Flow, NodeDoc, Read;
    NegationEnclosed(list, Read(node.interval, dialect), tail);
    hide Expression;
  }

  lemma {:induction false} NegationEnclosed(list: List, operand: Surface, tail: List)
    requires IsWord(list, "-") && Expression(list.tail) == Some((operand, Cons(Closes, tail)))
    ensures Expression(Cons(Opens, list)) == Some((Negated(operand), tail))
  {
    assert Enclosed(list) == Ending(Negated(operand), Cons(Closes, tail));
  }

  lemma NegatedWords()
    ensures Not(true, "between") == "not between" && Not(false, "between") == "between"
    ensures Not(true, "in") == "not in" && Not(false, "in") == "in"
    ensures Not(true, "exists") == "not exists" && Not(false, "exists") == "exists"
  {
    assert "not " + "between" == "not between" && "not " + "in" == "not in" && "not " + "exists" == "not exists";
  }

  lemma {:induction false} BetweenReads(node: Node, dialect: Dialect, tail: List)
    requires node.Between? && Proper(node)
    ensures ReadsBack(node, dialect, tail)
    decreases node, 0
  {
    hide Proper, Children, Flow, Expression, StartsExpression, IsInfix;
    ProperOperands(node);
    FlowParts();
    var operator := Not(node.negated, "between");
    var last := Flow(NodeDoc(node.upper, dialect), Cons(Closes, tail));
    var bounds := Flow(NodeDoc(node.lower, dialect), Cons(Plain(Word("and")), last));
    NodeStarts(node.expression, dialect, Cons(Plain(Operator(operator)), bounds));
    NodeReads(node.expression, dialect, Cons(Plain(Operator(operator)), bounds));
    NodeStarts(node.lower, dialect, Cons(Plain(Word("and")), last));
    NodeReads(node.lower, dialect, Cons(Plain(Word("and")), last));
    NodeReads(node.upper, dialect, Cons(Closes, tail));
    var list := Flow(NodeDoc(node.expression, dialect), Cons(Plain(Operator(operator)), bounds));
    assert Flow(NodeDoc(node, dialect), tail) == Cons(Opens, list);
    assert Read(node, dialect) ==
      Within(Read(node.expression, dialect), operator, Read(node.lower, dialect), Read(node.upper, dialect));
    NegatedWords();
    BetweenEnclosed(list, Read(node.expression, dialect), operator, bounds, Read(node.lower, dialect), last,
                    Read(node.upper, dialect), tail);
  }

  lemma {:induction false} BetweenEnclosed(list: List, operand: Surface, operator: string, bounds: List, low: Surface,
                                           last: List, high: Surface, tail: List)
    requires StartsExpression(list) && StartsExpression(bounds) && operator in BETWEEN
    requires Expression(list) == Some((operand, Cons(Plain(Operator(operator)), bounds)))
    requires Expression(bounds) == Some((low, Cons(Plain(Word("and")), last)))
    requires Expression(last) == Some((high, Cons(Closes, tail)))
    ensures Expression(Cons(Opens, list)) == Some((Within(operand, operator, low, high), tail))
  {
    assert Ranged(operand, operator, bounds) == Some((Within(operand, operator, low, high), tail));
    hide Ranged;
    assert Operated(operand, Cons(Plain(Operator(operator)), bounds)) == Ranged(operand, operator, bounds);
    hide Operated;
    assert Enclosed(list) == Operated(operand, Cons(Plain(Operator(operator)), bounds));
  }

  lemma {:induction false} SeveralRead(nodes: seq<Node>, dialect: Dialect, tail: List)
    requires nodes != [] && forall n :: n in nodes ==> Proper(n)
    ensures Several(Flow(ListDoc(nodes, dialect), Cons(Closes, tail))) == Some((ReadAll(nodes, dialect), tail))
    decreases nodes, 1
  {
    FlowParts();
    hide Flow, NodeDoc, Read, Proper, Expression;
    if |nodes| == 1 {
      NodeReads(nodes[0], dialect, Cons(Closes, tail));
      assert nodes[1..] == [] && ReadAll([], dialect) == [];
      assert [Read(nodes[0], dialect)] + [] == [Read(nodes[0], dialect)];
    } else {
      var rest := Flow(ListDoc(nodes[1..], dialect), Cons(Closes, tail));
      NodeReads(nodes[0], dialect, Cons(Plain(Comma), rest));
      SeveralRead(nodes[1..], dialect, tail);
    }
  }

  lemma {:induction false} ArgumentsRead(nodes: seq<Node>, dialect: Dialect, tail: List)
    requires forall n :: n in nodes ==> Proper(n)
    ensures Arguments(Flow(ListDoc(nodes, dialect), Cons(Closes, tail))) == Some((ReadAll(nodes, dialect), tail))
    ensures !StartsQuery(Flow(ListDoc(nodes, dialect), Cons(Closes, tail)))
    decreases nodes, 2
  {
    FlowParts();
    hide Flow, NodeDoc, Read, Proper, Several;
    if nodes != [] {
      SeveralRead(nodes, dialect, tail);
      var rest := if |nodes| == 1 then Cons(Closes, tail)
                  else Cons(Plain(Comma), Flow(ListDoc(nodes[1..], dialect), Cons(Closes, tail)));
      NodeStarts(nodes[0], dialect, rest);
      assert Flow(ListDoc(nodes, dialect), Cons(Closes, tail)) == Flow(NodeDoc(nodes[0], dialect), rest);
    }
  }

  /** A call is read up to its suffixes. */
  lemma {:induction false} CallReads(name: string, arguments: seq<Node>, dialect: Dialect, tail: List)
    requires IsFunctionName(name) && forall n :: n in arguments ==> Proper(n)
    ensures Expression(Flow(Call(name, ListDoc(arguments, dialect)), tail)) ==
            Suffixed(Called(name, ReadAll(arguments, dialect)), tail)
    decreases arguments, 3
  {
    FlowParts();
    hide Flow, ListDoc, ReadAll, Arguments, Suffixed, Proper;
    ArgumentsRead(arguments, dialect, tail);
    var list := Flow(ListDoc(arguments, dialect), Cons(Closes, tail));
    WordedCall(name, list, ReadAll(arguments, dialect), tail);
    hide Expression;
  }

  /** Without a suffix a call is the whole expression. */
  lemma SuffixEnds(call: Surface, tail: List)
    requires Follows(tail)
    ensures Suffixed(call, tail) == Some((call, tail))
  {
  }

  lemma {:induction false} FilterReads(call: Surface, filter: Option<Node>, dialect: Dialect, tail: List)
    requires filter.Some? ==> Proper(filter.value)
    requires !IsWord(tail, "filter")
    ensures var doc := if filter.None? then Empty
                       else Seq(W("filter"), Parenthesized(Seq(W("where"), NodeDoc(filter.value, dialect))));
      Suffixed(call, Flow(doc, tail)) == Windowed(WithFilter(call, ReadOption(filter, dialect)), tail)
    decreases filter
  {
    FlowParts();
    hide Flow, NodeDoc, Read, Windowed, Proper;
    if filter.Some? {
      NodeReads(filter.value, dialect, Cons(Closes, tail));
    }
  }

  /** An aggregate or a function, up to a window. */
  lemma {:induction false} CalledReads(node: Node, dialect: Dialect, tail: List)
    requires (node.Aggregate? || node.Function? || node.TemporalCall?) && Proper(node) && !IsWord(tail, "filter")
    ensures Expression(Flow(NodeDoc(node, dialect), tail)) == Windowed(Read(node, dialect), tail)
    decreases node, 1
  {
    hide Flow, Expression, Windowed, Suffixed, Proper, Children, ListDoc, ReadAll;
    if node.Aggregate? {
      AggregateReads(node, dialect, tail);
    } else if node.Function? {
      ProperCall(node);
      CallReads(node.name, node.arguments, dialect, tail);
      Unfiltered(Called(node.name, ReadAll(node.arguments, dialect)), tail);
    } else {
      ProperCall(node);
      CallReads(node.callee, node.arguments, dialect, tail);
      Unfiltered(Called(node.callee, ReadAll(node.arguments, dialect)), tail);
    }
  }

  lemma Unfiltered(call: Surface, tail: List)
    requires !IsWord(tail, "filter")
    ensures Suffixed(call, tail) == Windowed(call, tail)
  {
  }

  lemma ProperCall(node: Node)
    requires (node.Aggregate? || node.Function? || node.TemporalCall?) && Proper(node)
    ensures node.Aggregate? || node.Function? ==> IsFunctionName(node.name)
    ensures node.TemporalCall? ==> IsFunctionName(node.callee)
    ensures forall n :: n in node.arguments ==> Proper(n)
    ensures node.Aggregate? && node.filter.Some? ==> Proper(node.filter.value)
  {
    if node.Aggregate? {
      assert forall n :: n in node.arguments + Present(node.filter) ==> n in Children(node);
      assert node.filter.Some? ==> node.filter.value in node.arguments + Present(node.filter);
    }
    hide IsFunctionName;
  }

  lemma {:induction false} AggregateReads(node: Node, dialect: Dialect, tail: List)
    requires node.Aggregate? && Proper(node) && !IsWord(tail, "filter")
    ensures Expression(Flow(NodeDoc(node, dialect), tail)) == Windowed(Read(node, dialect), tail)
    decreases node, 0
  {
    hide Flow, Expression, Suffixed, Windowed, Proper, Children, ListDoc, ReadAll, ReadOption, IsFunctionName;
    ProperCall(node);
    var doc := if node.filter.None? then Empty
               else Seq(W("filter"), Parenthesized(Seq(W("where"), NodeDoc(node.filter.value, dialect))));
    assert Flow(NodeDoc(node, dialect), tail) == Flow(Call(node.name, ListDoc(node.arguments, dialect)), Flow(doc, tail)) by {
      FlowParts();
    }
    CallReads(node.name, node.arguments, dialect, Flow(doc, tail));
    FilterReads(Called(node.name, ReadAll(node.arguments, dialect)), node.filter, dialect, tail);
  }

  lemma {:induction false} MembershipReads(node: Node, dialect: Dialect, tail: List)
    requires node.In? && Proper(node)
    ensures ReadsBack(node, dialect, tail)
    decreases node, 0
  {
    assert forall n :: n in [node.expression] + node.values ==> n in Children(node);
    assert node.expression in [node.expression] + node.values && forall n :: n in node.values ==>
      n in [node.expression] + node.values;
    FlowParts();
    hide Flow, Proper, Children, ListDoc, ReadAll;
    var operator := Not(node.negated, "in");
    var list := Flow(ListDoc(node.values, dialect), Cons(Closes, Cons(Closes, tail)));
    NodeStarts(node.expression, dialect, Cons(Plain(Operator(operator)), Cons(Opens, list)));
    NodeReads(node.expression, dialect, Cons(Plain(Operator(operator)), Cons(Opens, list)));
    ArgumentsRead(node.values, dialect, Cons(Closes, tail));
    var whole := Flow(NodeDoc(node.expression, dialect), Cons(Plain(Operator(operator)), Cons(Opens, list)));
    assert Flow(NodeDoc(node, dialect), tail) == Cons(Opens, whole);
    assert Read(node, dialect) == Member(Read(node.expression, dialect), operator, ReadAll(node.values, dialect));
    NegatedWords();
    MemberEnclosed(whole, Read(node.expression, dialect), operator, list, ReadAll(node.values, dialect), tail);
    hide NodeDoc, Read, Arguments, Expression;
  }

  lemma {:induction false} MemberEnclosed(whole: List, left: Surface, operator: string, list: List,
                                          values: seq<Surface>, tail: List)
    requires StartsExpression(whole) && operator in MEMBERSHIP && !StartsQuery(list)
    requires Expression(whole) == Some((left, Cons(Plain(Operator(operator)), Cons(Opens, list))))
    requires Arguments(list) == Some((values, Cons(Closes, tail)))
    ensures Expression(Cons(Opens, whole)) == Some((Member(left, operator, values), tail))
  {
    assert operator !in BETWEEN;
    hide Arguments;
    assert Enclosed(whole) == Operated(left, Cons(Plain(Operator(operator)), Cons(Opens, list)));
    assert Operated(left, Cons(Plain(Operator(operator)), Cons(Opens, list))) ==
      Listed(left, operator, Cons(Opens, list));
  }

  lemma {:induction false} InQueryReads(node: Node, dialect: Dialect, tail: List)
    requires node.InQuery? && Proper(node)
    ensures ReadsBack(node, dialect, tail)
    decreases node, 0
  {
    hide Proper, Children, Flow, SelectDoc, ProperSelect, ReadSelect, Reader.Query, Expression, StartsExpression;
    ProperOperands(node);
    FlowParts();
    var operator := Not(node.negated, "in");
    var list := Flow(SelectDoc(node.query, dialect), Cons(Closes, Cons(Closes, tail)));
    NodeStarts(node.expression, dialect, Cons(Plain(Operator(operator)), Cons(Opens, list)));
    NodeReads(node.expression, dialect, Cons(Plain(Operator(operator)), Cons(Opens, list)));
    QueryStarts(node.query, dialect, Cons(Closes, Cons(Closes, tail)));
    SelectReads(node.query, dialect, Cons(Closes, Cons(Closes, tail)));
    var whole := Flow(NodeDoc(node.expression, dialect), Cons(Plain(Operator(operator)), Cons(Opens, list)));
    assert Flow(NodeDoc(node, dialect), tail) == Cons(Opens, whole);
    assert Read(node, dialect) == MemberOf(Read(node.expression, dialect), operator, ReadSelect(node.query, dialect));
    NegatedWords();
    MemberOfEnclosed(whole, Read(node.expression, dialect), operator, list, ReadSelect(node.query, dialect), tail);
  }

  lemma {:induction false} MemberOfEnclosed(whole: List, left: Surface, operator: string, list: List,
                                            query: QuerySaid, tail: List)
    requires StartsExpression(whole) && operator in MEMBERSHIP && StartsQuery(list)
    requires Expression(whole) == Some((left, Cons(Plain(Operator(operator)), Cons(Opens, list))))
    requires Reader.Query(list) == Some((query, Cons(Closes, Cons(Closes, tail))))
    ensures Expression(Cons(Opens, whole)) == Some((MemberOf(left, operator, query), tail))
  {
    assert operator !in BETWEEN;
    hide Reader.Query;
    assert Enclosed(whole) == Operated(left, Cons(Plain(Operator(operator)), Cons(Opens, list)));
    assert Operated(left, Cons(Plain(Operator(operator)), Cons(Opens, list))) ==
      Listed(left, operator, Cons(Opens, list));
  }

  lemma {:induction false} ScalarReads(node: Node, dialect: Dialect, tail: List)
    requires node.ScalarSubquery? && Proper(node)
    ensures ReadsBack(node, dialect, tail)
    decreases node, 0
  {
    hide Proper, Children, Flow, SelectDoc, ProperSelect, ReadSelect, Reader.Query, Expression;
    ProperOperands(node);
    FlowParts();
    QueryStarts(node.query, dialect, Cons(Closes, tail));
    SelectReads(node.query, dialect, Cons(Closes, tail));
    var list := Flow(SelectDoc(node.query, dialect), Cons(Closes, tail));
    assert Flow(NodeDoc(node, dialect), tail) == Cons(Opens, list);
    assert Read(node, dialect) == Nested(ReadSelect(node.query, dialect));
    EnclosedQuery(list, ReadSelect(node.query, dialect), tail);
  }

  lemma {:induction false} EnclosedQuery(list: List, query: QuerySaid, tail: List)
    requires StartsQuery(list) && Reader.Query(list) == Some((query, Cons(Closes, tail)))
    ensures Expression(Cons(Opens, list)) == Some((Nested(query), tail))
  {
    hide Reader.Query, Operated;
    assert Enclosed(list) == Some((Nested(query), tail));
  }

  lemma {:induction false} ExistsReads(node: Node, dialect: Dialect, tail: List)
    requires node.Exists? && Proper(node)
    ensures ReadsBack(node, dialect, tail)
    decreases node, 0
  {
    hide Proper, Children, Flow, SelectDoc, ProperSelect, ReadSelect, Reader.Query, Expression;
    ProperOperands(node);
    FlowParts();
    SelectReads(node.query, dialect, Cons(Closes, tail));
    NegatedWords();
    var word := Not(node.negated, "exists");
    var list := Flow(SelectDoc(node.query, dialect), Cons(Closes, tail));
    assert Flow(NodeDoc(node, dialect), tail) == Cons(Plain(Word(word)), Cons(Opens, list));
    assert Read(node, dialect) == Existing(word, ReadSelect(node.query, dialect));
    ExistsWord(word, list, ReadSelect(node.query, dialect), tail);
  }

  lemma {:induction false} ExistsWord(word: string, list: List, query: QuerySaid, tail: List)
    requires word == "exists" || word == "not exists"
    requires Reader.Query(list) == Some((query, Cons(Closes, tail)))
    ensures Expression(Cons(Plain(Word(word)), Cons(Opens, list))) == Some((Existing(word, query), tail))
  {
    hide Reader.Query;
    assert word !in SINGLE_WORDS;
    assert Worded(word, Cons(Opens, list)) == Some((Existing(word, query), tail));
  }

  lemma {:induction false} LeafReads(node: Node, dialect: Dialect, tail: List)
    requires Follows(tail) && (node.Column? || node.Bound?)
    ensures ReadsBack(node, dialect, tail)
  {
    FlowParts();
    hide Flow;
    if node.Column? {
      assert Flow(NodeDoc(node, dialect), tail) ==
        Cons(Plain(Identifier(node.source)), Cons(Plain(Word(".")), Cons(Plain(Identifier(node.name)), tail)));
    } else {
      assert Flow(NodeDoc(node, dialect), tail) == Cons(Valued(node.value), tail);
    }
    hide NodeDoc;
  }

  lemma {:induction false} WordReads(node: Node, dialect: Dialect, tail: List)
    requires node.Star? || node.Excluded?
    ensures ReadsBack(node, dialect, tail)
  {
    FlowParts();
    hide Flow;
    if node.Star? {
      KeywordReads("*", tail);
      assert Flow(NodeDoc(node, dialect), tail) == Cons(Plain(Word("*")), tail);
    } else {
      var list := Cons(Plain(Word(".")), Cons(Plain(Identifier(node.name)), tail));
      assert Flow(NodeDoc(node, dialect), tail) == Cons(Plain(Word("excluded")), list);
      assert "excluded" !in SINGLE_WORDS;
      assert Worded("excluded", list) == Some((Proposed(node.name), tail));
    }
    hide NodeDoc;
  }

  lemma {:induction false} ClockReads(kind: string, dialect: Dialect, tail: List)
    requires IsFunctionName(kind) || kind == "current_date" || kind == "current_time"
    requires Follows(tail)
    ensures ReadsBack(Clock(kind), dialect, tail)
  {
    FlowParts();
    hide Flow;
    if kind == "current_date" || kind == "current_time" {
      KeywordReads(kind, tail);
    } else if kind == "local_time" {
      KeywordReads("localtime", tail);
    } else if kind == "local_timestamp" {
      KeywordReads("localtimestamp", tail);
    } else {
      assert Flow(NodeDoc(Clock(kind), dialect), tail) == Cons(Plain(Word(kind)), Cons(Opens, Cons(Closes, tail)));
      SuffixEnds(Called(kind, []), tail);
      WordedCall(kind, Cons(Closes, tail), [], tail);
      hide Suffixed;
    }
  }

  lemma KeywordReads(word: string, tail: List)
    requires word in SINGLE_WORDS
    ensures Expression(Cons(Plain(Word(word)), tail)) == Some((Single(word), tail))
  {
    assert Worded(word, tail) == Some((Single(word), tail));
  }

  /** A word in front of arguments is a call. */
  lemma {:induction false} WordedCall(name: string, list: List, arguments: seq<Surface>, tail: List)
    requires IsFunctionName(name) && Arguments(list) == Some((arguments, tail))
    ensures Expression(Cons(Plain(Word(name)), Cons(Opens, list))) == Suffixed(Called(name, arguments), tail)
  {
    assert name != "excluded" && name != "case" && name != "exists" && name != "not exists" && name != "extract"
           && name != "date_trunc" && name != "make_interval" && name != "cast" by {
      assert name !in SPECIAL_WORDS;
    }
    hide Arguments, Suffixed;
    assert Worded(name, Cons(Opens, list)) == Suffixed(Called(name, arguments), tail);
  }

  lemma {:induction false} ExtractReads(node: Node, dialect: Dialect, tail: List)
    requires node.Extract? && Proper(node)
    ensures ReadsBack(node, dialect, tail)
    decreases node, 0
  {
    assert node.expression in Children(node);
    FlowParts();
    hide Flow, Proper, Children;
    NodeReads(node.expression, dialect, Cons(Closes, tail));
    var operand := Flow(NodeDoc(node.expression, dialect), Cons(Closes, tail));
    var list := Cons(Plain(Literal(node.field)), Cons(Plain(Word("from")), operand));
    assert Flow(NodeDoc(node, dialect), tail) == Cons(Plain(Word("extract")), Cons(Opens, list));
    assert Read(node, dialect) == Extracted(node.field, Read(node.expression, dialect));
    ExtractWord(node.field, operand, Read(node.expression, dialect), tail);
    hide NodeDoc, Read, Expression;
  }

  lemma {:induction false} ExtractWord(field: string, list: List, operand: Surface, tail: List)
    requires Expression(list) == Some((operand, Cons(Closes, tail)))
    ensures Expression(Cons(Plain(Word("extract")), Cons(Opens, Cons(Plain(Literal(field)), Cons(Plain(Word("from")), list))))) ==
            Some((Extracted(field, operand), tail))
  {
    var inner := Cons(Plain(Literal(field)), Cons(Plain(Word("from")), list));
    assert ExtractOf(inner) == Some((Extracted(field, operand), tail));
    hide ExtractOf;
    assert "extract" !in SINGLE_WORDS;
    assert Worded("extract", Cons(Opens, inner)) == ExtractOf(inner);
  }

  lemma {:induction false} CastReads(node: Node, dialect: Dialect, tail: List)
    requires node.UuidCast? && Proper(node)
    ensures ReadsBack(node, dialect, tail)
    decreases node, 0
  {
    assert node.operand in Children(node);
    FlowParts();
    hide Flow, Proper, Children;
    var last := Cons(Plain(Word("as")), Cons(Plain(Word("uuid")), Cons(Closes, tail)));
    NodeReads(node.operand, dialect, last);
    var list := Flow(NodeDoc(node.operand, dialect), last);
    assert Flow(NodeDoc(node, dialect), tail) == Cons(Plain(Word("cast")), Cons(Opens, list));
    assert Read(node, dialect) == Cast(Read(node.operand, dialect));
    CastWord(list, Read(node.operand, dialect), tail);
    hide NodeDoc, Read, Expression;
  }

  lemma {:induction false} CastWord(list: List, operand: Surface, tail: List)
    requires Expression(list) == Some((operand, Cons(Plain(Word("as")), Cons(Plain(Word("uuid")), Cons(Closes, tail)))))
    ensures Expression(Cons(Plain(Word("cast")), Cons(Opens, list))) == Some((Cast(operand), tail))
  {
    assert CastOf(list) == Some((Cast(operand), tail));
    hide CastOf;
    assert "cast" !in SINGLE_WORDS;
    assert Worded("cast", Cons(Opens, list)) == CastOf(list);
  }

  lemma {:induction false} TruncReads(node: Node, dialect: Dialect, tail: List)
    requires node.Trunc? && Proper(node)
    ensures ReadsBack(node, dialect, tail)
    decreases node, 0
  {
    assert forall n :: n in [node.expression] + Present(node.zone) ==> n in Children(node);
    assert node.expression in [node.expression] + Present(node.zone);
    assert node.zone.Some? ==> node.zone.value in [node.expression] + Present(node.zone);
    FlowParts();
    hide Flow, Proper, Children;
    var last := if node.zone.None? then Cons(Closes, tail)
                else Cons(Plain(Comma), Flow(NodeDoc(node.zone.value, dialect), Cons(Closes, tail)));
    NodeReads(node.expression, dialect, last);
    if node.zone.Some? {
      NodeReads(node.zone.value, dialect, Cons(Closes, tail));
    }
    var list := Cons(Plain(Literal(node.field)), Cons(Plain(Comma), Flow(NodeDoc(node.expression, dialect), last)));
    assert Flow(NodeDoc(node, dialect), tail) == Cons(Plain(Word("date_trunc")), Cons(Opens, list));
    assert Read(node, dialect) == Truncated(node.field, Read(node.expression, dialect), ReadOption(node.zone, dialect));
    assert node.zone.Some? ==> ReadOption(node.zone, dialect) == Some(Read(node.zone.value, dialect));
    TruncWord(node.field, Flow(NodeDoc(node.expression, dialect), last), Read(node.expression, dialect), last,
              ReadOption(node.zone, dialect), tail);
    hide NodeDoc, Read, ReadOption, Expression;
  }

  lemma {:induction false} TruncWord(unit: string, list: List, operand: Surface, last: List, zone: Option<Surface>,
                                     tail: List)
    requires Expression(list) == Some((operand, last))
    requires zone.None? ==> last == Cons(Closes, tail)
    requires zone.Some? ==>
      last.Cons? && last.head == Plain(Comma) && Expression(last.tail) == Some((zone.value, Cons(Closes, tail)))
    ensures Expression(Cons(Plain(Word("date_trunc")), Cons(Opens, Cons(Plain(Literal(unit)), Cons(Plain(Comma), list))))) ==
            Some((Truncated(unit, operand, zone), tail))
  {
    var inner := Cons(Plain(Literal(unit)), Cons(Plain(Comma), list));
    assert TruncOf(inner) == Some((Truncated(unit, operand, zone), tail));
    hide TruncOf;
    assert "date_trunc" !in SINGLE_WORDS;
    assert Worded("date_trunc", Cons(Opens, inner)) == TruncOf(inner);
  }

  lemma {:induction false} BinReads(node: Node, dialect: Dialect, tail: List)
    requires node.Bin? && Proper(node) && Follows(tail)
    ensures ReadsBack(node, dialect, tail)
    decreases node, 0
  {
    hide Proper, Children, Flow, IntervalDoc, ReadInterval, NodeDoc, Read, Expression, Several;
    ProperOperands(node);
    var (a, b, c) := (node.stride, node.expression, node.origin);
    BinFlow(node, dialect, tail);
    var l3 := Flow(NodeDoc(c, dialect), Cons(Closes, tail));
    var l2 := Flow(NodeDoc(b, dialect), Cons(Plain(Comma), l3));
    var l1 := Flow(IntervalDoc(a, dialect), Cons(Plain(Comma), l2));
    IntervalReads(a, dialect, Cons(Plain(Comma), l2));
    NodeReads(b, dialect, Cons(Plain(Comma), l3));
    NodeReads(c, dialect, Cons(Closes, tail));
    BinArguments(l1, l2, l3, ReadInterval(a, dialect), Read(b, dialect), Read(c, dialect), tail);
    BinWord(l1, [ReadInterval(a, dialect), Read(b, dialect), Read(c, dialect)], tail);
  }

  lemma {:induction false} BinFlow(node: Node, dialect: Dialect, tail: List)
    requires node.Bin?
    ensures Flow(NodeDoc(node, dialect), tail) ==
      Cons(Plain(Word("date_bin")), Cons(Opens, Flow(IntervalDoc(node.stride, dialect), Cons(Plain(Comma),
        Flow(NodeDoc(node.expression, dialect), Cons(Plain(Comma), Flow(NodeDoc(node.origin, dialect), Cons(Closes, tail))))))))
    ensures Read(node, dialect) ==
      Called("date_bin", [ReadInterval(node.stride, dialect), Read(node.expression, dialect), Read(node.origin, dialect)])
  {
    FlowParts();
    hide Flow, IntervalDoc, ReadInterval;
  }

  lemma {:induction false} BinArguments(l1: List, l2: List, l3: List, a: Surface, b: Surface, c: Surface, tail: List)
    requires Expression(l1) == Some((a, Cons(Plain(Comma), l2)))
    requires Expression(l2) == Some((b, Cons(Plain(Comma), l3)))
    requires Expression(l3) == Some((c, Cons(Closes, tail)))
    ensures Several(l1) == Some(([a, b, c], tail))
  {
    hide Expression;
    assert Several(l3) == Some(([c], tail));
    assert Several(l2) == Some(([b] + [c], tail));
    assert [a] + ([b] + [c]) == [a, b, c];
  }

  lemma {:induction false} BinWord(list: List, arguments: seq<Surface>, tail: List)
    requires Several(list) == Some((arguments, tail)) && Follows(tail)
    ensures Expression(Cons(Plain(Word("date_bin")), Cons(Opens, list))) == Some((Called("date_bin", arguments), tail))
  {
    SeveralStarts(list);
    SuffixEnds(Called("date_bin", arguments), tail);
    assert Arguments(list) == Some((arguments, tail));
    hide Several, Suffixed, Arguments;
    assert IsFunctionName("date_bin");
    WordedCall("date_bin", list, arguments, tail);
  }

  lemma SeveralStarts(list: List)
    requires Several(list).Some?
    ensures Past(list, Closes).None?
  {
  }

  lemma {:induction false} ComponentsRead(cells: seq<Cell>, dialect: Dialect, tail: List)
    requires cells != [] && forall n :: n in CellValues(cells) ==> Proper(n)
    ensures SeveralComponents(Flow(ComponentsDoc(cells, dialect), Cons(Closes, tail))) ==
      Some((ReadComponents(cells, dialect), tail))
    decreases cells, 1
  {
    assert CellValues(cells)[0] == cells[0].value;
    assert CellValues(cells)[1..] == CellValues(cells[1..]);
    assert forall n :: n in CellValues(cells[1..]) ==> n in CellValues(cells);
    hide Flow, NodeDoc, Read, Proper, Expression, SeveralComponents;
    if |cells| == 1 {
      ComponentReads(cells[0], dialect, Cons(Closes, tail));
      LastComponent(cells, dialect, tail);
    } else {
      ComponentReads(cells[0], dialect, Cons(Plain(Comma), Flow(ComponentsDoc(cells[1..], dialect), Cons(Closes, tail))));
      ComponentsRead(cells[1..], dialect, tail);
      NextComponent(cells, dialect, tail);
    }
  }

  lemma {:induction false} LastComponent(cells: seq<Cell>, dialect: Dialect, tail: List)
    requires |cells| == 1
    requires Expression(Flow(NodeDoc(cells[0].value, dialect), Cons(Closes, tail))) ==
      Some((Read(cells[0].value, dialect), Cons(Closes, tail)))
    ensures SeveralComponents(Flow(ComponentsDoc(cells, dialect), Cons(Closes, tail))) ==
      Some((ReadComponents(cells, dialect), tail))
  {
    FlowParts();
    hide Flow, NodeDoc, Read, Expression;
    assert cells[1..] == [] && ReadComponents([], dialect) == [];
    assert [ReadComponent(cells[0], dialect)] + [] == [ReadComponent(cells[0], dialect)];
  }

  lemma {:induction false} NextComponent(cells: seq<Cell>, dialect: Dialect, tail: List)
    requires |cells| > 1
    requires var rest := Flow(ComponentsDoc(cells[1..], dialect), Cons(Closes, tail));
      && Expression(Flow(NodeDoc(cells[0].value, dialect), Cons(Plain(Comma), rest))) ==
        Some((Read(cells[0].value, dialect), Cons(Plain(Comma), rest)))
      && SeveralComponents(rest) == Some((ReadComponents(cells[1..], dialect), tail))
    ensures SeveralComponents(Flow(ComponentsDoc(cells, dialect), Cons(Closes, tail))) ==
      Some((ReadComponents(cells, dialect), tail))
  {
    FlowParts();
    hide Flow, NodeDoc, Read, Expression;
  }

  lemma {:induction false} ComponentReads(cell: Cell, dialect: Dialect, tail: List)
    requires Proper(cell.value) && Follows(tail)
    ensures Expression(Flow(NodeDoc(cell.value, dialect), tail)) == Some((Read(cell.value, dialect), tail))
    decreases cell
  {
    NodeReads(cell.value, dialect, tail);
  }

  lemma {:induction false} MakeIntervalReads(node: Node, dialect: Dialect, tail: List)
    requires node.MakeInterval? && Proper(node)
    ensures ReadsBack(node, dialect, tail)
    decreases node, 0
  {
    hide Proper, Children, Flow, ComponentsDoc, ReadComponents, SeveralComponents;
    ProperLists(node);
    FlowParts();
    var list := Flow(ComponentsDoc(node.components, dialect), Cons(Closes, tail));
    assert Flow(NodeDoc(node, dialect), tail) == Cons(Plain(Word("make_interval")), Cons(Opens, list));
    assert Read(node, dialect) == Components(ReadComponents(node.components, dialect));
    hide NodeDoc, Read;
    if node.components == [] {
      NoComponents(dialect);
    } else {
      ComponentsRead(node.components, dialect, tail);
      ComponentsStart(node.components, dialect, Cons(Closes, tail));
    }
    assert ComponentsOf(list) == Some((ReadComponents(node.components, dialect), tail));
    hide ComponentsOf;
    assert "make_interval" !in SINGLE_WORDS;
    assert Worded("make_interval", Cons(Opens, list)) ==
      Some((Components(ReadComponents(node.components, dialect)), tail));
  }

  lemma NoComponents(dialect: Dialect)
    ensures ComponentsDoc([], dialect) == Empty && ReadComponents([], dialect) == []
  {
  }

  lemma {:induction false} ComponentsStart(cells: seq<Cell>, dialect: Dialect, tail: List)
    requires cells != []
    ensures Past(Flow(ComponentsDoc(cells, dialect), tail), Closes).None?
  {
    FlowParts();
    hide Flow, NodeDoc;
  }

  lemma {:induction false} BranchReads(branch: Branch, dialect: Dialect, tail: List)
    requires Proper(branch.condition) && Proper(branch.value) && Follows(tail)
    ensures Expression(Flow(NodeDoc(branch.condition, dialect),
                            Cons(Plain(Word("then")), Flow(NodeDoc(branch.value, dialect), tail)))) ==
            Some((Read(branch.condition, dialect), Cons(Plain(Word("then")), Flow(NodeDoc(branch.value, dialect), tail))))
    ensures Expression(Flow(NodeDoc(branch.value, dialect), tail)) == Some((Read(branch.value, dialect), tail))
    decreases branch
  {
    NodeReads(branch.condition, dialect, Cons(Plain(Word("then")), Flow(NodeDoc(branch.value, dialect), tail)));
    NodeReads(branch.value, dialect, tail);
    hide Expression, Flow, NodeDoc;
  }

  lemma {:induction false} BranchesRead(branches: seq<Branch>, dialect: Dialect, tail: List)
    requires forall n :: n in BranchNodes(branches) ==> Proper(n)
    requires Follows(tail) && !IsWord(tail, "when")
    ensures BranchesOf(Flow(BranchesDoc(branches, dialect), tail)) == Some((ReadBranches(branches, dialect), tail))
    decreases branches, 1
  {
    FlowParts();
    hide Flow, NodeDoc, Read, Proper, Expression;
    if branches != [] {
      var nodes := BranchNodes(branches);
      assert nodes[0] == branches[0].condition && nodes[1] == branches[0].value;
      assert nodes[2..] == BranchNodes(branches[1..]);
      assert forall n :: n in BranchNodes(branches[1..]) ==> n in nodes;
      var rest := Flow(BranchesDoc(branches[1..], dialect), tail);
      BranchesFollow(branches[1..], dialect, tail);
      BranchReads(branches[0], dialect, rest);
      BranchesRead(branches[1..], dialect, tail);
    }
  }

  lemma {:induction false} BranchesFollow(branches: seq<Branch>, dialect: Dialect, tail: List)
    requires Follows(tail)
    ensures Follows(Flow(BranchesDoc(branches, dialect), tail))
  {
    FlowParts();
    hide Flow, NodeDoc;
  }

  lemma {:induction false} CaseReads(node: Node, dialect: Dialect, tail: List)
    requires node.Case? && Proper(node)
    ensures ReadsBack(node, dialect, tail)
    decreases node, 0
  {
    hide Flow, Proper, Children, BranchesDoc, ReadBranches, BranchesOf, Expression;
    ProperLists(node);
    FlowParts();
    var last := Flow(NodeDoc(node.otherwise, dialect), Cons(Plain(Word("end")), tail));
    BranchesRead(node.branches, dialect, Cons(Plain(Word("else")), last));
    NodeReads(node.otherwise, dialect, Cons(Plain(Word("end")), tail));
    var list := Flow(BranchesDoc(node.branches, dialect), Cons(Plain(Word("else")), last));
    assert Flow(NodeDoc(node, dialect), tail) == Cons(Plain(Word("case")), list);
    assert Read(node, dialect) == Cases(ReadBranches(node.branches, dialect), Read(node.otherwise, dialect));
    CaseWord(list, ReadBranches(node.branches, dialect), last, Read(node.otherwise, dialect), tail);
  }

  lemma {:induction false} CaseWord(list: List, branches: seq<(Surface, Surface)>, last: List, otherwise: Surface,
                                    tail: List)
    requires BranchesOf(list) == Some((branches, Cons(Plain(Word("else")), last)))
    requires Expression(last) == Some((otherwise, Cons(Plain(Word("end")), tail)))
    ensures Expression(Cons(Plain(Word("case")), list)) == Some((Cases(branches, otherwise), tail))
  {
    hide BranchesOf;
    assert CaseOf(list) == Some((Cases(branches, otherwise), tail));
    hide CaseOf;
    assert "case" !in SINGLE_WORDS;
    assert Worded("case", list) == CaseOf(list);
  }

  // ---- Windows -----------------------------------------------------------------------------------------

  /** What may stand behind the lists of a window. */
  predicate AfterList(list: List) {
    Follows(list) && !(list.Cons? && list.head == Plain(Comma)) && !IsWord(list, "nulls")
  }

  lemma {:induction false} CommasRead(nodes: seq<Node>, dialect: Dialect, tail: List)
    requires nodes != [] && AfterList(tail) && forall n :: n in nodes ==> Proper(n)
    ensures Commas(Flow(ListDoc(nodes, dialect), tail)) == Some((ReadAll(nodes, dialect), tail))
    decreases nodes, 1
  {
    FlowParts();
    hide Flow, NodeDoc, Read, Proper, Expression;
    if |nodes| == 1 {
      NodeReads(nodes[0], dialect, tail);
      assert nodes[1..] == [] && ReadAll([], dialect) == [];
      assert [Read(nodes[0], dialect)] + [] == [Read(nodes[0], dialect)];
    } else {
      var rest := Flow(ListDoc(nodes[1..], dialect), tail);
      NodeReads(nodes[0], dialect, Cons(Plain(Comma), rest));
      CommasRead(nodes[1..], dialect, tail);
    }
  }

  lemma {:induction false} OrderReads(order: Order, dialect: Dialect, tail: List)
    requires Proper(order.expression) && Directed(order) && !IsWord(tail, "nulls")
    ensures OneOrder(Flow(OrderDoc(order, dialect), tail)) == Some((ReadOrder(order, dialect), tail))
    decreases order
  {
    FlowParts();
    hide Flow, NodeDoc, Read, Proper, Expression;
    var last := Flow(NullsDoc(order.nulls), tail);
    NodeReads(order.expression, dialect, Cons(Plain(Word(order.direction)), last));
  }

  lemma {:induction false} OrdersRead(orders: seq<Order>, dialect: Dialect, tail: List)
    requires orders != [] && AfterList(tail)
    requires forall o :: o in orders ==> Proper(o.expression) && Directed(o)
    ensures Orders(Flow(OrdersDoc(orders, dialect), tail)) == Some((ReadOrders(orders, dialect), tail))
    decreases orders, 1
  {
    FlowParts();
    hide Flow, OrderDoc, ReadOrder, Proper, OneOrder;
    if |orders| == 1 {
      OrderReads(orders[0], dialect, tail);
      assert orders[1..] == [] && ReadOrders([], dialect) == [];
      assert [ReadOrder(orders[0], dialect)] + [] == [ReadOrder(orders[0], dialect)];
    } else {
      var rest := Flow(OrdersDoc(orders[1..], dialect), tail);
      OrderReads(orders[0], dialect, Cons(Plain(Comma), rest));
      OrdersRead(orders[1..], dialect, tail);
    }
  }

  /** Behind the lists: the frame, or the closing parenthesis. */
  function FrameFlow(node: Node, tail: List): List
    requires node.Window?
  {
    Flow(if node.frame.None? then Empty else FrameDoc(node.frame.value, |node.orderBy|, node.exclusion), tail)
  }

  lemma {:induction false} FrameStarts(node: Node, tail: List)
    requires node.Window? && (node.frame.Some? ==> IsFrameKind(node.frame.value.kind))
    ensures var list := FrameFlow(node, Cons(Closes, tail)); AfterList(list) && !IsWord(list, "order by") && !IsWord(list, "partition by")
  {
    FlowParts();
    hide Flow;
  }

  lemma {:induction false} BoundaryReads(boundary: FrameBoundary, tail: List)
    ensures BoundaryOf(Flow(BoundaryDoc(boundary), tail)) == Some((boundary, tail))
  {
    FlowParts();
    hide Flow;
  }

  lemma {:induction false} FrameReads(node: Node, tail: List)
    requires node.Window?
    ensures FrameOf(FrameFlow(node, Cons(Closes, tail))) == Some((ReadFrame(node.frame, node.exclusion), Cons(Closes, tail)))
  {
    FlowParts();
    hide Flow, BoundaryOf, BoundaryDoc;
    if node.frame.Some? {
      var frame := node.frame.value;
      var last := Flow(ExclusionDoc(node.exclusion), Cons(Closes, tail));
      var upper := Flow(BoundaryDoc(frame.end), last);
      BoundaryReads(frame.end, last);
      BoundaryReads(frame.start, Cons(Plain(Word("and")), upper));
    }
  }

  lemma {:induction false} OrderByReads(orders: seq<Order>, dialect: Dialect, tail: List)
    requires AfterList(tail) && !IsWord(tail, "order by")
    requires forall o :: o in orders ==> Proper(o.expression) && Directed(o)
    ensures OrderOf(Flow(OrderByDoc(orders, dialect), tail)) == Some((ReadOrders(orders, dialect), tail))
    ensures !IsWord(tail, "partition by") ==>
      AfterList(Flow(OrderByDoc(orders, dialect), tail)) && !IsWord(Flow(OrderByDoc(orders, dialect), tail), "partition by")
    decreases orders, 2
  {
    FlowParts();
    hide Flow, OrdersDoc, Orders, Proper;
    if orders != [] {
      OrdersRead(orders, dialect, tail);
    }
  }

  lemma {:induction false} PartitionReads(nodes: seq<Node>, dialect: Dialect, tail: List)
    requires AfterList(tail) && !IsWord(tail, "partition by") && forall n :: n in nodes ==> Proper(n)
    ensures PartitionOf(Flow(PartitionDoc(nodes, dialect), tail)) == Some((ReadAll(nodes, dialect), tail))
    decreases nodes, 2
  {
    FlowParts();
    hide Flow, ListDoc, Commas, Proper;
    if nodes != [] {
      CommasRead(nodes, dialect, tail);
    }
  }

  lemma WindowOperands(node: Node)
    requires node.Window? && Proper(node)
    ensures Proper(node.expression) && (node.expression.Function? || node.expression.Aggregate?)
    ensures forall n :: n in node.partitionBy ==> Proper(n)
    ensures forall o :: o in node.orderBy ==> Proper(o.expression) && Directed(o)
    ensures node.frame.Some? ==> IsFrameKind(node.frame.value.kind)
  {
    var children := [node.expression] + node.partitionBy + OrderExpressions(node.orderBy);
    assert Children(node) == children;
    assert node.expression in children;
    assert forall n :: n in node.partitionBy ==> n in children;
    forall o | o in node.orderBy ensures Proper(o.expression) {
      var i :| 0 <= i < |node.orderBy| && node.orderBy[i] == o;
      assert OrderExpressions(node.orderBy)[i] == o.expression;
      assert o.expression in children;
    }
  }

  lemma {:induction false} WindowReads(node: Node, dialect: Dialect, tail: List)
    requires node.Window? && Proper(node)
    ensures ReadsBack(node, dialect, tail)
    decreases node, 2
  {
    WindowOperands(node);
    WindowFlow(node, dialect, tail);
    var frame := FrameFlow(node, Cons(Closes, tail));
    var order := Flow(OrderByDoc(node.orderBy, dialect), frame);
    var clauses := Flow(PartitionDoc(node.partitionBy, dialect), order);
    assert ClausesFlow(node, dialect, Cons(Closes, tail)) == clauses;
    var over := Cons(Plain(Word("over")), Cons(Opens, clauses));
    assert Read(node, dialect) == Reader.Over(Read(node.expression, dialect), ReadAll(node.partitionBy, dialect),
      ReadOrders(node.orderBy, dialect), ReadFrame(node.frame, node.exclusion));
    hide Flow, Proper, NodeDoc, Read, PartitionDoc, OrderByDoc, FrameFlow, ReadFrame, FrameOf, PartitionOf, OrderOf;
    hide ReadAll, ReadOrders, Expression, ClausesFlow, AfterList, Directed;
    hide Windowed;
    CalledReads(node.expression, dialect, over);
    FrameStarts(node, tail);
    FrameReads(node, tail);
    OrderByReads(node.orderBy, dialect, frame);
    PartitionReads(node.partitionBy, dialect, order);
    OverReads(Read(node.expression, dialect), clauses, ReadAll(node.partitionBy, dialect), order,
              ReadOrders(node.orderBy, dialect), frame, ReadFrame(node.frame, node.exclusion), tail);
  }

  lemma {:induction false} OverReads(call: Surface, clauses: List, partition: seq<Surface>, order: List,
                                     orders: seq<Ordering>,
                                     frame: List, framing: Option<Framing>, tail: List)
    requires PartitionOf(clauses) == Some((partition, order)) && OrderOf(order) == Some((orders, frame))
    requires FrameOf(frame) == Some((framing, Cons(Closes, tail)))
    ensures Windowed(call, Cons(Plain(Word("over")), Cons(Opens, clauses))) ==
            Some((Reader.Over(call, partition, orders, framing), tail))
  {
    hide PartitionOf, OrderOf, FrameOf;
  }

  // ---- All of them --------------------------------------------------------------------------------------

  lemma {:induction false} BinaryReads(node: Node, dialect: Dialect, tail: List)
    requires (node.Binary? || node.TemporalInfix? || node.PostgresInfix?) && Proper(node)
    ensures ReadsBack(node, dialect, tail)
    decreases node, 1
  {
    assert node.left in Children(node) && node.right in Children(node);
    FlowParts();
    InfixReads(node.left, node.operator, node.right, dialect, tail, node);
    hide Flow, Infix, Expression, Proper, Children;
  }

  lemma {:induction false} WholeCallReads(node: Node, dialect: Dialect, tail: List)
    requires (node.Aggregate? || node.Function? || node.TemporalCall?) && Proper(node) && Follows(tail)
    ensures ReadsBack(node, dialect, tail)
    decreases node, 2
  {
    CalledReads(node, dialect, tail);
    hide Flow, Expression, NodeDoc, Read, Proper;
  }

  /** Every proper expression is read back, whatever follows it that is no suffix. */
  lemma {:induction false} NodeReads(node: Node, dialect: Dialect, tail: List)
    requires Proper(node) && Follows(tail)
    ensures ReadsBack(node, dialect, tail)
    decreases node, 3
  {
    hide ReadsBack, Follows;
    match node
    case Column(_, _) | Bound(_) => LeafReads(node, dialect, tail);
    case Star | Excluded(_, _) => WordReads(node, dialect, tail);
    case Clock(kind) => ClockReads(kind, dialect, tail);
    case Binary(_, _, _) | TemporalInfix(_, _, _) | PostgresInfix(_, _, _) => BinaryReads(node, dialect, tail);
    case TemporalCall(_, _) | Function(_, _) | Aggregate(_, _, _) => WholeCallReads(node, dialect, tail);
    case MakeInterval(_) => MakeIntervalReads(node, dialect, tail);
    case Arithmetic(_, _, _) => ArithmeticReads(node, dialect, tail);
    case NegatedInterval(_) => NegationReads(node, dialect, tail);
    case Unary(_, _) => UnaryReads(node, dialect, tail);
    case Extract(_, _) => ExtractReads(node, dialect, tail);
    case UuidCast(_) => CastReads(node, dialect, tail);
    case Trunc(_, _, _) => TruncReads(node, dialect, tail);
    case Bin(_, _, _) => BinReads(node, dialect, tail);
    case Overlaps(_, _, _, _) => OverlapsReads(node, dialect, tail);
    case Case(_, _) => CaseReads(node, dialect, tail);
    case Window(_, _, _, _, _) => WindowReads(node, dialect, tail);
    case NullableResult(expression) => ErasedReads(node, dialect, tail);
    case In(_, _, _) => MembershipReads(node, dialect, tail);
    case InQuery(_, _, _) => InQueryReads(node, dialect, tail);
    case Between(_, _, _, _) => BetweenReads(node, dialect, tail);
    case ScalarSubquery(_) => ScalarReads(node, dialect, tail);
    case Exists(_, _) => ExistsReads(node, dialect, tail);
  }

  lemma {:induction false} ErasedReads(node: Node, dialect: Dialect, tail: List)
    requires node.NullableResult? && Proper(node) && Follows(tail)
    ensures ReadsBack(node, dialect, tail)
    decreases node, 0
  {
    assert node.expression in Children(node);
    NodeReads(node.expression, dialect, tail);
    hide Expression, Flow;
  }

  // ---- What may follow a clause ------------------------------------------------------------------------

  const CONDITION_WORDS: set<string> := {"where", "group by", "having"}
  const FINISH_WORDS: set<string> := {"order by", "limit", "offset", "for"}
  /** The words that go on with what has been read, or that stand inside it. */
  const CONTINUING_WORDS: set<string> :=
    {"::interval", "filter", "over", "nulls", "as", ".", "of", "=", "nowait", "skip locked", "select"}

  const ARM_WORDS: set<string> := JOIN_KINDS + CONDITION_WORDS + FINISH_WORDS
  const SELECT_WORDS: set<string> := ARM_WORDS + COMPOUND_WORDS

  /** The text ends here, or goes on with a clause that is none of `words`. */
  predicate Before(list: List, words: set<string>) {
    list.Nil? || list.head.Closes? || (IsAnyWord(list) && list.head.token.text !in CONTINUING_WORDS + words)
  }

  lemma BeforeFollows(list: List)
    requires Before(list, {})
    ensures AfterList(list) && Follows(list) && !IsWord(list, "as") && !IsWord(list, ".") && !IsWord(list, "of")
    ensures !IsWord(list, "=") && !IsIdentifier(list) && !(IsAnyWord(list) && list.head.token.text in WAITING_WORDS)
    ensures !(list.Cons? && list.head.Opens?) && !IsWord(list, "select")
  {
  }

  lemma BeforeLess(list: List, words: set<string>, fewer: set<string>)
    requires Before(list, words) && fewer <= words
    ensures Before(list, fewer)
  {
  }

  // ---- Sources -----------------------------------------------------------------------------------------

  lemma {:induction false} TableReads(table: Table, dialect: Dialect, tail: List)
    requires !IsWord(tail, ".") && !IsWord(tail, "as")
    ensures TableOf(Flow(TableDoc(table, dialect), tail)) == Some((table, tail))
  {
    FlowParts();
    hide Flow;
    var alias := Flow(AliasDoc(table.alias), tail);
    assert AliasOf(alias) == (table.alias, tail);
  }

  lemma TableStarts(table: Table, dialect: Dialect, tail: List)
    ensures IsIdentifier(Flow(TableDoc(table, dialect), tail))
  {
    FlowParts();
    hide Flow;
  }

  lemma {:induction false} SourceReads(source: Source, dialect: Dialect, tail: List)
    requires ProperSource(source) && !IsWord(tail, ".") && !IsWord(tail, "as")
    ensures SourceOf(Flow(SourceDoc(source, dialect), tail)) == Some((ReadSource(source, dialect), tail))
    decreases source, 1
  {
    match source
    case Stored(table) =>
      TableReads(table, dialect, tail);
      TableStarts(table, dialect, tail);
      hide Flow, TableDoc, TableOf;
    case CteSource(name) =>
      FlowParts();
      hide Flow;
      var list := Cons(Plain(Identifier(name)), tail);
      assert AliasOf(tail) == (None, tail);
      assert TableOf(list) == Some((Table(name, None, None), tail));
    case Derived(query, correlation) =>
      DerivedReads(source, dialect, tail);
  }

  lemma {:induction false} DerivedReads(source: Source, dialect: Dialect, tail: List)
    requires source.Derived? && ProperSelect(source.query)
    ensures SourceOf(Flow(SourceDoc(source, dialect), tail)) == Some((ReadSource(source, dialect), tail))
    decreases source, 0
  {
    hide ProperSelect, SelectDoc, ReadSelect, Reader.Query;
    var last := Cons(Plain(Word("as")), Cons(Plain(Identifier(source.correlation)), tail));
    var list := Flow(SelectDoc(source.query, dialect), Cons(Closes, last));
    SelectReads(source.query, dialect, Cons(Closes, last));
    assert Flow(SourceDoc(source, dialect), tail) == Cons(Opens, list) by {
      FlowParts();
      hide Flow, SelectDoc;
    }
    assert ReadSource(source, dialect) == Subselect(ReadSelect(source.query, dialect), source.correlation);
    hide Flow, SelectDoc, SourceDoc, ReadSource, ReadSelect, Reader.Query, ProperSelect;
  }

  lemma {:induction false} JoinsBefore(joins: seq<Join>, dialect: Dialect, tail: List, words: set<string>)
    requires Before(tail, words) && words !! JOIN_KINDS
    requires forall i :: 0 <= i < |joins| ==> ProperJoin(joins[i])
    ensures Before(Flow(JoinsDoc(joins, dialect), tail), words)
  {
    FlowParts();
    hide Flow, SourceDoc, NodeDoc;
    if joins != [] {
      assert ProperJoin(joins[0]);
    }
  }

  lemma {:induction false} JoinReads(join: Join, dialect: Dialect, rest: List, more: seq<JoinSaid>, tail: List)
    requires ProperJoin(join) && Before(rest, {}) && JoinsOf(rest) == Some((more, tail))
    ensures JoinsOf(Flow(JoinDoc(join, dialect), rest)) == Some(([ReadJoin(join, dialect)] + more, tail))
    decreases join
  {
    BeforeFollows(rest);
    var onPart := if join.kind == "cross" then rest else Cons(Plain(Word("on")), Flow(NodeDoc(join.on, dialect), rest));
    var source := Flow(SourceDoc(join.source, dialect), onPart);
    SourceReads(join.source, dialect, onPart);
    if join.kind != "cross" {
      NodeReads(join.on, dialect, rest);
    }
    JoinFlow(join, dialect, rest);
    hide Flow, SourceDoc, NodeDoc, SourceOf, Expression, ReadSource, Read, Proper, ProperSource;
    assert OnOf(join.kind, onPart) == Some((if join.kind == "cross" then None else Some(Read(join.on, dialect)), rest));
    var list := Cons(Plain(Word(join.kind)), Cons(Plain(Word("join")), source));
    JoinStep(join.kind, list, source, ReadSource(join.source, dialect), onPart,
             if join.kind == "cross" then None else Some(Read(join.on, dialect)), rest, more, tail);
  }

  lemma JoinFlow(join: Join, dialect: Dialect, rest: List)
    ensures Flow(JoinDoc(join, dialect), rest) ==
      Cons(Plain(Word(join.kind)), Cons(Plain(Word("join")), Flow(SourceDoc(join.source, dialect),
        if join.kind == "cross" then rest else Cons(Plain(Word("on")), Flow(NodeDoc(join.on, dialect), rest)))))
  {
    FlowParts();
    hide Flow, SourceDoc, NodeDoc;
  }

  lemma {:induction false} JoinStep(kind: string, list: List, source: List, said: SourceSaid, onPart: List,
                                    on: Option<Surface>, rest: List, more: seq<JoinSaid>, tail: List)
    requires kind in JOIN_KINDS && list == Cons(Plain(Word(kind)), Cons(Plain(Word("join")), source))
    requires SourceOf(source) == Some((said, onPart)) && OnOf(kind, onPart) == Some((on, rest))
    requires JoinsOf(rest) == Some((more, tail))
    ensures JoinsOf(list) == Some(([JoinSaid(kind, said, on)] + more, tail))
  {
    hide SourceOf, OnOf;
  }

  lemma {:induction false} JoinsRead(joins: seq<Join>, dialect: Dialect, tail: List)
    requires Before(tail, JOIN_KINDS) && forall i :: 0 <= i < |joins| ==> ProperJoin(joins[i])
    ensures JoinsOf(Flow(JoinsDoc(joins, dialect), tail)) == Some((ReadJoins(joins, dialect), tail))
    decreases joins, 1
  {
    BeforeLess(tail, JOIN_KINDS, {});
    if joins == [] {
      assert Flow(JoinsDoc(joins, dialect), tail) == tail;
      assert JoinsOf(tail) == Some(([], tail));
    } else {
      var rest := Flow(JoinsDoc(joins[1..], dialect), tail);
      JoinsRead(joins[1..], dialect, tail);
      JoinsBefore(joins[1..], dialect, tail, {});
      JoinReads(joins[0], dialect, rest, ReadJoins(joins[1..], dialect), tail);
      FlowParts();
      hide Flow, JoinDoc, JoinsOf, ReadJoin, ProperJoin;
    }
  }

  // ---- What is selected --------------------------------------------------------------------------------

  /** An expression and the name it is given. */
  predicate SelectionReadsBack(node: Node, dialect: Dialect, tail: List) {
    var r := Expression(Flow(NodeDoc(node, dialect), tail));
    && r.Some? && r.value.0 == ReadSelection(node, dialect).expression
    && AliasOf(r.value.1) == (ReadSelection(node, dialect).alias, tail)
  }

  lemma {:induction false} SelectionReads(node: Node, dialect: Dialect, tail: List)
    requires ProperSelection(node) && Follows(tail) && !IsWord(tail, "as")
    ensures SelectionReadsBack(node, dialect, tail)
    ensures StartsExpression(Flow(NodeDoc(node, dialect), tail))
    decreases node, 5
  {
    hide Flow, Expression, StartsExpression, NodeDoc, ReadSelection, SelectionReadsBack, Proper, Follows;
    match node
    case NullableResult(expression) =>
      SelectionReads(expression, dialect, tail);
      ErasedSelection(node, dialect, tail);
    case Alias(_, _) => NamedReads(node, dialect, tail);
    case _ => UnnamedReads(node, dialect, tail);
  }

  lemma ErasedSelection(node: Node, dialect: Dialect, tail: List)
    requires node.NullableResult? && SelectionReadsBack(node.expression, dialect, tail)
    ensures SelectionReadsBack(node, dialect, tail) && NodeDoc(node, dialect) == NodeDoc(node.expression, dialect)
  {
    hide Flow, Expression;
  }

  lemma {:induction false} UnnamedReads(node: Node, dialect: Dialect, tail: List)
    requires !node.NullableResult? && !node.Alias? && Proper(node) && Follows(tail) && !IsWord(tail, "as")
    ensures SelectionReadsBack(node, dialect, tail)
    ensures StartsExpression(Flow(NodeDoc(node, dialect), tail))
    decreases node, 4
  {
    NodeReads(node, dialect, tail);
    NodeStarts(node, dialect, tail);
    assert ReadSelection(node, dialect) == Selected(Read(node, dialect), None);
    hide Flow, Expression, StartsExpression, Proper, NodeDoc, Read, ReadSelection;
  }

  lemma {:induction false} NamedReads(node: Node, dialect: Dialect, tail: List)
    requires node.Alias? && Proper(node.expression)
    ensures SelectionReadsBack(node, dialect, tail)
    ensures StartsExpression(Flow(NodeDoc(node, dialect), tail))
    decreases node, 3
  {
    var last := Cons(Plain(Word("as")), Cons(Plain(Identifier(node.alias)), tail));
    NodeReads(node.expression, dialect, last);
    NodeStarts(node.expression, dialect, last);
    AliasFlow(node, dialect, tail);
    hide Flow, Expression, StartsExpression, Proper, NodeDoc, Read;
  }

  lemma AliasFlow(node: Node, dialect: Dialect, tail: List)
    requires node.Alias?
    ensures Flow(NodeDoc(node, dialect), tail) ==
      Flow(NodeDoc(node.expression, dialect), Cons(Plain(Word("as")), Cons(Plain(Identifier(node.alias)), tail)))
  {
    FlowParts();
    hide Flow;
  }

  lemma {:induction false} SelectedAllRead(nodes: seq<Node>, dialect: Dialect, tail: List)
    requires nodes != [] && ProperSelections(nodes) && AfterList(tail) && !IsWord(tail, "as")
    ensures SelectedAll(Flow(ListDoc(nodes, dialect), tail)) == Some((ReadSelections(nodes, dialect), tail))
    ensures StartsExpression(Flow(ListDoc(nodes, dialect), tail))
    decreases nodes, 5
  {
    hide Flow, NodeDoc, ReadSelection, ProperSelection, Expression, StartsExpression;
    FlowParts();
    if |nodes| == 1 {
      SelectionReads(nodes[0], dialect, tail);
      assert nodes[1..] == [] && ReadSelections([], dialect) == [];
      assert [ReadSelection(nodes[0], dialect)] + [] == [ReadSelection(nodes[0], dialect)];
    } else {
      var rest := Flow(ListDoc(nodes[1..], dialect), tail);
      SelectionReads(nodes[0], dialect, Cons(Plain(Comma), rest));
      SelectedAllRead(nodes[1..], dialect, tail);
    }
  }

  lemma {:induction false} SelectionsRead(nodes: seq<Node>, dialect: Dialect, base: List)
    requires ProperSelections(nodes)
    ensures var tail := Cons(Plain(Word("from")), base);
      && SelectionsOf(Flow(ListDoc(nodes, dialect), tail)) == Some((ReadSelections(nodes, dialect), tail))
      && !IsWord(Flow(ListDoc(nodes, dialect), tail), "distinct")
    decreases nodes, 6
  {
    var tail := Cons(Plain(Word("from")), base);
    if nodes != [] {
      SelectedAllRead(nodes, dialect, tail);
      hide Flow, ListDoc, SelectedAll, ReadSelections;
    }
  }

  lemma {:induction false} ProjectionReads(select: Select, dialect: Dialect, tail: List)
    requires ProperSelect(select) && Before(tail, JOIN_KINDS)
    ensures ProjectionOf(Flow(ProjectionDoc(select, dialect), tail)) == Some((ReadProjection(select, dialect), tail))
    decreases select, 0
  {
    hide Flow, ListDoc, SourceDoc, JoinsDoc, ReadSelections, ReadSource, ReadJoins, SelectionsOf, SourceOf;
    hide JoinsOf, Before, ProperJoin, Proper, AllProper, ProperOption, ProperSelections, ProperSelect;
    hide ProperSource, ProperCells, ProperBody, ProperConflict, ProperQuery;
    ProperParts(select);
    var joins := Flow(JoinsDoc(select.joins, dialect), tail);
    var base := Flow(SourceDoc(select.base.value, dialect), joins);
    var from := Cons(Plain(Word("from")), base);
    var list := Flow(ListDoc(select.selections, dialect), from);
    BeforeLess(tail, JOIN_KINDS, {});
    JoinsBefore(select.joins, dialect, tail, {});
    BeforeFollows(joins);
    SelectionsRead(select.selections, dialect, base);
    SourceReads(select.base.value, dialect, joins);
    JoinsRead(select.joins, dialect, tail);
    ProjectionFlow(select, dialect, tail);
    assert Flow(ProjectionDoc(select, dialect), tail) ==
      Cons(Plain(Word("select")), if select.distinct then Cons(Plain(Word("distinct")), list) else list);
  }

  lemma ProjectionFlow(select: Select, dialect: Dialect, tail: List)
    requires select.base.Some?
    ensures var list := Flow(ListDoc(select.selections, dialect), Cons(Plain(Word("from")),
                          Flow(SourceDoc(select.base.value, dialect), Flow(JoinsDoc(select.joins, dialect), tail))));
      Flow(ProjectionDoc(select, dialect), tail) ==
        Cons(Plain(Word("select")), if select.distinct then Cons(Plain(Word("distinct")), list) else list)
  {
    FlowParts();
    hide Flow, ListDoc, SourceDoc, JoinsDoc;
  }

  // ---- Conditions --------------------------------------------------------------------------------------

  lemma {:induction false} ClauseReads(word: string, node: Option<Node>, dialect: Dialect, tail: List)
    requires ProperOption(node) && Before(tail, {word})
    ensures ClauseOf(word, Flow(ClauseDoc(word, node, dialect), tail)) == Some((ReadOption(node, dialect), tail))
    decreases node
  {
    hide Flow, NodeDoc, Expression, Read, Proper;
    BeforeLess(tail, {word}, {});
    BeforeFollows(tail);
    if node.Some? {
      NodeReads(node.value, dialect, tail);
      assert Flow(ClauseDoc(word, node, dialect), tail) == Cons(Plain(Word(word)), Flow(NodeDoc(node.value, dialect), tail)) by {
        FlowParts();
      }
    } else {
      assert Flow(ClauseDoc(word, node, dialect), tail) == tail by {
        FlowParts();
      }
    }
  }

  lemma ClauseBefore(word: string, node: Option<Node>, dialect: Dialect, tail: List, words: set<string>)
    requires Before(tail, words) && word !in CONTINUING_WORDS && word !in words
    ensures Before(Flow(ClauseDoc(word, node, dialect), tail), words)
  {
    FlowParts();
    hide Flow, NodeDoc;
  }

  lemma {:induction false} GroupsRead(nodes: seq<Node>, dialect: Dialect, tail: List)
    requires AllProper(nodes) && Before(tail, {"group by"})
    ensures GroupsOf(Flow(GroupByDoc(nodes, dialect), tail)) == Some((ReadAll(nodes, dialect), tail))
    decreases nodes, 2
  {
    hide Flow, ListDoc, Commas, Proper;
    FlowParts();
    BeforeLess(tail, {"group by"}, {});
    BeforeFollows(tail);
    if nodes != [] {
      CommasRead(nodes, dialect, tail);
    }
  }

  lemma GroupsBefore(nodes: seq<Node>, dialect: Dialect, tail: List, words: set<string>)
    requires Before(tail, words) && "group by" !in words
    ensures Before(Flow(GroupByDoc(nodes, dialect), tail), words)
  {
    FlowParts();
    hide Flow, ListDoc;
  }

  lemma {:induction false} ConditionsRead(select: Select, dialect: Dialect, tail: List)
    requires ProperSelect(select) && Before(tail, CONDITION_WORDS)
    ensures ConditionsOf(Flow(FilterDoc(select, dialect), tail)) == Some((ReadConditions(select, dialect), tail))
    decreases select, 0
  {
    hide Flow, FilterDoc, ClauseDoc, GroupByDoc, ClauseOf, GroupsOf, ReadOption, ReadAll, Before, AfterList;
    hide Follows, Proper, AllProper, ProperOption, ProperSelections, ProperSelect, ProperSource, ProperCells;
    hide ProperBody, ProperConflict, ProperQuery;
    ProperParts(select);
    var having := Flow(ClauseDoc("having", select.having, dialect), tail);
    var groups := Flow(GroupByDoc(select.groupBy, dialect), having);
    BeforeLess(tail, CONDITION_WORDS, {"having"});
    BeforeLess(tail, CONDITION_WORDS, {"where", "group by"});
    ClauseBefore("having", select.having, dialect, tail, {"where", "group by"});
    BeforeLess(having, {"where", "group by"}, {"group by"});
    BeforeLess(having, {"where", "group by"}, {"where"});
    GroupsBefore(select.groupBy, dialect, having, {"where"});
    ClauseReads("having", select.having, dialect, tail);
    GroupsRead(select.groupBy, dialect, having);
    ClauseReads("where", select.condition, dialect, groups);
    FilterFlow(select, dialect, tail);
  }

  lemma FilterFlow(select: Select, dialect: Dialect, tail: List)
    ensures Flow(FilterDoc(select, dialect), tail) ==
      Flow(ClauseDoc("where", select.condition, dialect), Flow(GroupByDoc(select.groupBy, dialect),
        Flow(ClauseDoc("having", select.having, dialect), tail)))
  {
    FlowParts();
    hide Flow, ClauseDoc, GroupByDoc;
  }

  lemma {:induction false} ConditionsBefore(select: Select, dialect: Dialect, tail: List, words: set<string>)
    requires Before(tail, words) && words !! CONDITION_WORDS
    ensures Before(Flow(FilterDoc(select, dialect), tail), words)
  {
    FilterFlow(select, dialect, tail);
    hide Flow, FilterDoc, ClauseDoc, GroupByDoc, Before;
    var having := Flow(ClauseDoc("having", select.having, dialect), tail);
    ClauseBefore("having", select.having, dialect, tail, words);
    GroupsBefore(select.groupBy, dialect, having, words);
    ClauseBefore("where", select.condition, dialect, Flow(GroupByDoc(select.groupBy, dialect), having), words);
  }

  // ---- ORDER BY, LIMIT, locks --------------------------------------------------------------------------

  lemma {:induction false} NamesRead(names: seq<string>, tail: List)
    requires names != [] && !(tail.Cons? && tail.head == Plain(Comma))
    ensures NamesOf(Flow(NamesDoc(names), tail)) == Some((names, tail))
    decreases |names|
  {
    FlowParts();
    hide Flow;
    if |names| == 1 {
      assert names == [names[0]];
    } else {
      NamesRead(names[1..], tail);
      assert [names[0]] + names[1..] == names;
    }
  }

  lemma {:induction false} ColumnsRead(names: seq<string>, tail: List)
    ensures ColumnsOf(Flow(NamesDoc(names), Cons(Closes, tail))) == Some((names, tail))
  {
    if names != [] {
      NamesRead(names, Cons(Closes, tail));
      NamesStart(names, Cons(Closes, tail));
      hide Flow, NamesDoc, NamesOf;
    }
  }

  lemma NamesStart(names: seq<string>, tail: List)
    requires names != []
    ensures IsIdentifier(Flow(NamesDoc(names), tail))
  {
    FlowParts();
    hide Flow;
  }

  lemma {:induction false} LocksBefore(locks: seq<Lock>, tail: List, words: set<string>)
    requires Before(tail, words) && "for" !in words
    ensures Before(Flow(LocksDoc(locks), tail), words)
  {
    FlowParts();
    hide Flow, NamesDoc;
  }

  lemma {:induction false} LockReads(lock: Lock, rest: List, more: seq<LockSaid>, tail: List)
    requires lock.waiting.Some? ==> lock.waiting.value in WAITING_WORDS
    requires Before(rest, {}) && LocksOf(rest) == Some((more, tail))
    ensures LocksOf(Flow(LockDoc(lock), rest)) ==
            Some(([LockSaid(lock.strength, ReadTables(lock.tables), lock.waiting)] + more, tail))
  {
    BeforeFollows(rest);
    var waiting := if lock.waiting.None? then rest else Cons(Plain(Word(lock.waiting.value)), rest);
    assert WaitingOf(waiting) == (lock.waiting, rest);
    var names := References(lock.tables);
    assert names == ReadTables(lock.tables);
    var of := if names == [] then waiting else Cons(Plain(Word("of")), Flow(NamesDoc(names), waiting));
    assert !IsWord(waiting, "of");
    if names != [] {
      NamesRead(names, waiting);
    }
    LockFlow(lock, rest);
    hide Flow, NamesDoc, LockDoc, NamesOf, WaitingOf, References, ReadTables;
  }

  lemma LockFlow(lock: Lock, rest: List)
    ensures var waiting := if lock.waiting.None? then rest else Cons(Plain(Word(lock.waiting.value)), rest);
      var names := References(lock.tables);
      Flow(LockDoc(lock), rest) == Cons(Plain(Word("for")), Cons(Plain(Word(lock.strength)),
        if names == [] then waiting else Cons(Plain(Word("of")), Flow(NamesDoc(names), waiting))))
  {
    assert References(lock.tables) == [] <==> lock.tables == [];
    FlowParts();
    hide Flow, NamesDoc;
  }

  lemma {:induction false} LocksRead(locks: seq<Lock>, tail: List)
    requires forall l :: l in locks && l.waiting.Some? ==> l.waiting.value in WAITING_WORDS
    requires Before(tail, {"for"})
    ensures LocksOf(Flow(LocksDoc(locks), tail)) == Some((ReadLocks(locks), tail))
    decreases |locks|
  {
    BeforeLess(tail, {"for"}, {});
    if locks == [] {
      assert Flow(LocksDoc(locks), tail) == tail;
    } else {
      assert locks[0] in locks;
      LocksRead(locks[1..], tail);
      LocksBefore(locks[1..], tail, {});
      LockReads(locks[0], Flow(LocksDoc(locks[1..]), tail), ReadLocks(locks[1..]), tail);
      FlowParts();
      hide Flow, LockDoc, LocksOf;
    }
  }

  /** The number behind LIMIT or OFFSET. */
  function NumberFlow(word: string, number: Option<int>, tail: List): List {
    if number.None? then tail else Cons(Plain(Word(word)), Cons(Plain(Number(number.value)), tail))
  }

  lemma LimitFlow(select: Select, dialect: Dialect, tail: List)
    ensures Flow(LimitDoc(select, dialect), tail) ==
      NumberFlow("limit", ReadFinish(select, dialect).limit, NumberFlow("offset", select.offset, tail))
  {
    FlowParts();
    hide Flow, ReadOrders, ReadLocks;
  }

  lemma NumberReads(word: string, number: Option<int>, tail: List, words: set<string>)
    requires Before(tail, words) && word !in CONTINUING_WORDS
    ensures !IsWord(tail, word) ==> CountOf(word, NumberFlow(word, number, tail)) == Some((number, tail))
    ensures word !in words ==> Before(NumberFlow(word, number, tail), words)
  {
  }

  lemma {:induction false} OrderBefore(orders: seq<Order>, dialect: Dialect, tail: List, words: set<string>)
    requires Before(tail, words) && "order by" !in words
    ensures Before(Flow(OrderByDoc(orders, dialect), tail), words)
  {
    FlowParts();
    hide Flow, OrdersDoc;
  }

  /** Everything behind the conditions, up to the arms of a compound. */
  lemma FinishFlow(select: Select, dialect: Dialect, tail: List)
    ensures Flow(TailDoc(select, dialect), tail) ==
      Flow(OrderByDoc(select.orderBy, dialect), NumberFlow("limit", ReadFinish(select, dialect).limit,
        NumberFlow("offset", select.offset, Flow(LocksDoc(select.locks), Flow(CompoundsDoc(select.compounds, dialect), tail)))))
  {
    FlowParts();
    LimitFlow(select, dialect, Flow(LocksDoc(select.locks), Flow(CompoundsDoc(select.compounds, dialect), tail)));
    hide Flow, OrderByDoc, LimitDoc, LocksDoc, CompoundsDoc, ReadFinish, NumberFlow;
  }

  lemma {:induction false} FinishReads(select: Select, dialect: Dialect, tail: List)
    requires ProperSelect(select) && Before(Flow(CompoundsDoc(select.compounds, dialect), tail), FINISH_WORDS)
    ensures FinishOf(Flow(TailDoc(select, dialect), tail)) ==
            Some((ReadFinish(select, dialect), Flow(CompoundsDoc(select.compounds, dialect), tail)))
    decreases select, 0
  {
    var arms := Flow(CompoundsDoc(select.compounds, dialect), tail);
    var locks := Flow(LocksDoc(select.locks), arms);
    var said := ReadFinish(select, dialect);
    var offset := NumberFlow("offset", select.offset, locks);
    var limit := NumberFlow("limit", said.limit, offset);
    BeforeLess(arms, FINISH_WORDS, {"for"});
    LocksRead(select.locks, arms);
    FinishNumbers(select.locks, said.limit, select.offset, arms);
    FinishOrders(select);
    OrderByReads(select.orderBy, dialect, limit);
    FinishFlow(select, dialect, tail);
    assert said.orderBy == ReadOrders(select.orderBy, dialect) && said.offset == select.offset && said.locks == ReadLocks(select.locks);
    hide Flow, TailDoc, OrderByDoc, LocksDoc, CompoundsDoc, NumberFlow, OrderOf, CountOf, LocksOf, ReadOrders;
    hide ReadLocks, ProperSelect, Before, ReadFinish;
    hide FinishOf;
    FinishStep(Flow(TailDoc(select, dialect), tail), limit, offset, locks, arms, said);
  }

  /** The numbers are read, and nothing before them is mistaken for them. */
  lemma {:induction false} FinishNumbers(locks: seq<Lock>, limit: Option<int>, offset: Option<int>, arms: List)
    requires Before(arms, FINISH_WORDS)
    ensures var l3 := Flow(LocksDoc(locks), arms);
      var l2 := NumberFlow("offset", offset, l3);
      var l1 := NumberFlow("limit", limit, l2);
      && CountOf("offset", l2) == Some((offset, l3)) && CountOf("limit", l1) == Some((limit, l2))
      && AfterList(l1) && !IsWord(l1, "order by")
  {
    var l3 := Flow(LocksDoc(locks), arms);
    var l2 := NumberFlow("offset", offset, l3);
    var l1 := NumberFlow("limit", limit, l2);
    BeforeLess(arms, FINISH_WORDS, {"order by", "limit", "offset"});
    LocksBefore(locks, arms, {"order by", "limit", "offset"});
    hide Flow, LocksDoc;
    BeforeLess(l3, {"order by", "limit", "offset"}, {"order by", "limit"});
    NumberReads("offset", offset, l3, {"order by", "limit"});
    BeforeLess(l2, {"order by", "limit"}, {"order by"});
    NumberReads("limit", limit, l2, {"order by"});
    BeforeLess(l1, {"order by"}, {});
    BeforeFollows(l1);
    hide NumberFlow;
  }

  lemma {:induction false} FinishStep(list: List, limit: List, offset: List, locks: List, arms: List, said: Finish)
    requires OrderOf(list) == Some((said.orderBy, limit)) && CountOf("limit", limit) == Some((said.limit, offset))
    requires CountOf("offset", offset) == Some((said.offset, locks)) && LocksOf(locks) == Some((said.locks, arms))
    ensures FinishOf(list) == Some((said, arms))
  {
    hide OrderOf, CountOf, LocksOf;
  }

  lemma FinishOrders(select: Select)
    requires ProperSelect(select)
    ensures forall o :: o in select.orderBy ==> Proper(o.expression) && Directed(o)
  {
    forall o | o in select.orderBy ensures Proper(o.expression) && Directed(o) {
      var i :| 0 <= i < |select.orderBy| && select.orderBy[i] == o;
      assert ProperOrder(select.orderBy[i]);
    }
  }

  lemma {:induction false} FinishBefore(select: Select, dialect: Dialect, tail: List, words: set<string>)
    requires Before(Flow(CompoundsDoc(select.compounds, dialect), tail), words) && words !! FINISH_WORDS
    ensures Before(Flow(TailDoc(select, dialect), tail), words)
  {
    var arms := Flow(CompoundsDoc(select.compounds, dialect), tail);
    var locks := Flow(LocksDoc(select.locks), arms);
    var offset := NumberFlow("offset", select.offset, locks);
    FinishFlow(select, dialect, tail);
    hide Flow, TailDoc, OrderByDoc, LocksDoc, CompoundsDoc, NumberFlow, Before, ReadFinish;
    LocksBefore(select.locks, arms, words);
    NumberReads("offset", select.offset, locks, words);
    NumberReads("limit", ReadFinish(select, dialect).limit, offset, words);
    OrderBefore(select.orderBy, dialect, NumberFlow("limit", ReadFinish(select, dialect).limit, offset), words);
  }

  // ---- WITH --------------------------------------------------------------------------------------------

  lemma {:induction false} CteReads(cte: Cte, dialect: Dialect, tail: List)
    requires ProperCte(cte)
    ensures CteOf(Flow(CteDoc(cte, dialect), tail)) == Some((ReadCte(cte, dialect), tail))
    decreases cte
  {
    hide Flow, QueryDoc, ReadQuery, Statement, ProperQuery;
    StatementReads(cte.query, dialect, Cons(Closes, tail));
    var body := Flow(QueryDoc(cte.query, dialect), Cons(Closes, tail));
    assert Flow(CteDoc(cte, dialect), tail) == Cons(Plain(Identifier(cte.name)), Cons(Plain(Word("as")),
      if cte.materialized then Cons(Plain(Word("materialized")), Cons(Opens, body)) else Cons(Opens, body))) by {
      FlowParts();
    }
    hide CteDoc;
  }

  lemma {:induction false} CtesRead(ctes: seq<Cte>, dialect: Dialect, tail: List)
    requires ctes != [] && !(tail.Cons? && tail.head == Plain(Comma))
    requires forall i :: 0 <= i < |ctes| ==> ProperCte(ctes[i])
    ensures CtesOf(Flow(CtesDoc(ctes, dialect), tail)) == Some((ReadCtes(ctes, dialect), tail))
    decreases ctes, 1
  {
    FlowParts();
    hide Flow, CteDoc, ReadCte, ProperCte, CteOf;
    if |ctes| == 1 {
      CteReads(ctes[0], dialect, tail);
      assert ctes[1..] == [] && ReadCtes([], dialect) == [];
      assert [ReadCte(ctes[0], dialect)] + [] == [ReadCte(ctes[0], dialect)];
    } else {
      CteReads(ctes[0], dialect, Cons(Plain(Comma), Flow(CtesDoc(ctes[1..], dialect), tail)));
      CtesRead(ctes[1..], dialect, tail);
    }
  }

  lemma NoCtes(dialect: Dialect)
    ensures ReadCtes([], dialect) == []
  {
  }

  lemma {:induction false} WithReads(select: Select, dialect: Dialect, tail: List)
    requires ProperSelect(select) && IsWord(tail, "select")
    ensures WithOf(Flow(WithDoc(select.ctes, dialect), tail)) ==
            Some((exists c :: c in select.ctes && c.recursive, ReadCtes(select.ctes, dialect), tail))
    decreases select, 0
  {
    hide Flow, CtesDoc, CtesOf, ReadCtes, ProperSelect, ProperCte;
    ProperParts(select);
    FlowParts();
    if select.ctes != [] {
      CtesRead(select.ctes, dialect, tail);
    } else {
      NoCtes(dialect);
    }
  }

  // ---- SELECT --------------------------------------------------------------------------------------------

  lemma SelectFlow(select: Select, dialect: Dialect, tail: List)
    ensures Flow(SelectDoc(select, dialect), tail) ==
      Flow(WithDoc(select.ctes, dialect), Flow(ProjectionDoc(select, dialect), Flow(FilterDoc(select, dialect),
        Flow(TailDoc(select, dialect), tail))))
  {
    FlowParts();
    hide Flow, WithDoc, ProjectionDoc, FilterDoc, TailDoc;
  }

  lemma ProjectionStarts(select: Select, dialect: Dialect, tail: List)
    ensures IsWord(Flow(ProjectionDoc(select, dialect), tail), "select")
  {
    FlowParts();
    hide Flow, ListDoc, BaseDoc, JoinsDoc;
  }

  /** A SELECT up to the arms of its compound. */
  lemma {:induction false} ArmReads(select: Select, dialect: Dialect, tail: List)
    requires ProperSelect(select) && Before(Flow(CompoundsDoc(select.compounds, dialect), tail), ARM_WORDS)
    ensures Arm(Flow(SelectDoc(select, dialect), tail)) ==
            Some((ReadArm(select, dialect), Flow(CompoundsDoc(select.compounds, dialect), tail)))
    decreases select, 1
  {
    hide Flow, SelectDoc, WithDoc, ProjectionDoc, FilterDoc, TailDoc, CompoundsDoc, WithOf, ProjectionOf;
    hide ConditionsOf, FinishOf, Arm, Before, ProperQuery, ProperCells, ProperOption, ProperSelections;
    hide ProperSelect, ProperSource, ProperConflict, ProperBody, AllProper, Proper;
    var arms := Flow(CompoundsDoc(select.compounds, dialect), tail);
    var finish := Flow(TailDoc(select, dialect), tail);
    var conditions := Flow(FilterDoc(select, dialect), finish);
    var projection := Flow(ProjectionDoc(select, dialect), conditions);
    BeforeLess(arms, ARM_WORDS, FINISH_WORDS);
    BeforeLess(arms, ARM_WORDS, JOIN_KINDS + CONDITION_WORDS);
    FinishBefore(select, dialect, tail, JOIN_KINDS + CONDITION_WORDS);
    BeforeLess(finish, JOIN_KINDS + CONDITION_WORDS, CONDITION_WORDS);
    BeforeLess(finish, JOIN_KINDS + CONDITION_WORDS, JOIN_KINDS);
    ConditionsBefore(select, dialect, finish, JOIN_KINDS);
    FinishReads(select, dialect, tail);
    ConditionsRead(select, dialect, finish);
    ProjectionReads(select, dialect, conditions);
    ProjectionStarts(select, dialect, conditions);
    WithReads(select, dialect, projection);
    SelectFlow(select, dialect, tail);
    hide Flow, SelectDoc, WithDoc, ProjectionDoc, FilterDoc, TailDoc, CompoundsDoc, Before, ProperSelect, Arm;
    hide WithOf, ProjectionOf, ConditionsOf, FinishOf, ReadCtes, ReadProjection, ReadConditions, ReadFinish;
    ArmStep(Flow(SelectDoc(select, dialect), tail), projection, conditions, finish, arms, ReadArm(select, dialect));
  }

  lemma {:induction false} ArmStep(list: List, projection: List, conditions: List, finish: List, arms: List, said: QuerySaid)
    requires said.SelectSaid? && said.compounds == []
    requires WithOf(list) == Some((said.recursive, said.ctes, projection))
    requires ProjectionOf(projection) == Some((said.projection, conditions))
    requires ConditionsOf(conditions) == Some((said.conditions, finish))
    requires FinishOf(finish) == Some((said.finish, arms))
    ensures Arm(list) == Some((said, arms))
  {
    hide WithOf, ProjectionOf, ConditionsOf, FinishOf;
  }

  lemma {:induction false} CompoundsBefore(compounds: seq<Compound>, dialect: Dialect, tail: List, words: set<string>)
    requires Before(tail, words) && words !! COMPOUND_WORDS
    requires forall i :: 0 <= i < |compounds| ==> ProperCompound(compounds[i])
    ensures Before(Flow(CompoundsDoc(compounds, dialect), tail), words)
  {
    FlowParts();
    if compounds != [] {
      assert ProperCompound(compounds[0]);
    }
    hide Flow, SelectDoc, ProperSelect;
  }

  lemma {:induction false} CompoundsRead(compounds: seq<Compound>, dialect: Dialect, tail: List)
    requires Before(tail, SELECT_WORDS) && forall i :: 0 <= i < |compounds| ==> ProperCompound(compounds[i])
    ensures CompoundsOf(Flow(CompoundsDoc(compounds, dialect), tail)) == Some((ReadCompounds(compounds, dialect), tail))
    decreases compounds, 1
  {
    if compounds == [] {
      NoneFollow(tail);
      assert Flow(CompoundsDoc(compounds, dialect), tail) == tail && ReadCompounds(compounds, dialect) == [];
      hide CompoundsOf;
    } else {
      var rest := Flow(CompoundsDoc(compounds[1..], dialect), tail);
      CompoundsRead(compounds[1..], dialect, tail);
      ArmsBefore(compounds[1..], dialect, tail);
      CompoundReads(compounds[0], dialect, rest, ReadCompounds(compounds[1..], dialect), tail);
      assert Flow(CompoundsDoc(compounds, dialect), tail) == Flow(CompoundDoc(compounds[0], dialect), rest) by {
        FlowParts();
        hide Flow, CompoundDoc;
      }
      hide Flow, CompoundDoc, CompoundsDoc, CompoundsOf, ReadCompound, ProperCompound, Before;
    }
  }

  lemma ArmsBefore(compounds: seq<Compound>, dialect: Dialect, tail: List)
    requires Before(tail, SELECT_WORDS) && forall i :: 0 <= i < |compounds| ==> ProperCompound(compounds[i])
    ensures Before(Flow(CompoundsDoc(compounds, dialect), tail), ARM_WORDS)
  {
    BeforeLess(tail, SELECT_WORDS, ARM_WORDS);
    hide Before, ProperCompound;
    CompoundsBefore(compounds, dialect, tail, ARM_WORDS);
  }

  lemma NoneFollow(tail: List)
    requires Before(tail, SELECT_WORDS)
    ensures CompoundsOf(tail) == Some(([], tail))
  {
  }

  lemma {:induction false} CompoundReads(compound: Compound, dialect: Dialect, rest: List, more: seq<CompoundSaid>, tail: List)
    requires ProperCompound(compound) && Before(rest, ARM_WORDS) && CompoundsOf(rest) == Some((more, tail))
    ensures CompoundsOf(Flow(CompoundDoc(compound, dialect), rest)) ==
            Some(([ReadCompound(compound, dialect)] + more, tail))
    decreases compound
  {
    hide Flow, SelectDoc, CompoundsDoc, ReadSelect, ReadArm, Arm, Before, ProperSelect;
    var arm := Flow(SelectDoc(compound.query, dialect), rest);
    NoArms(compound.query, dialect, rest);
    ArmReads(compound.query, dialect, rest);
    assert Flow(CompoundDoc(compound, dialect), rest) == Cons(Plain(Word(compound.operator)), arm) by {
      FlowParts();
    }
  }

  lemma NoArms(select: Select, dialect: Dialect, tail: List)
    requires select.compounds == []
    ensures Flow(CompoundsDoc(select.compounds, dialect), tail) == tail
    ensures ReadSelect(select, dialect) == ReadArm(select, dialect)
  {
    assert ReadCompounds([], dialect) == [];
    hide ReadArm;
  }

  /** A whole SELECT is read back, whatever follows it that is no part of one. */
  lemma {:induction false} SelectReads(select: Select, dialect: Dialect, tail: List)
    requires ProperSelect(select) && Before(tail, SELECT_WORDS)
    ensures Reader.Query(Flow(SelectDoc(select, dialect), tail)) == Some((ReadSelect(select, dialect), tail))
    decreases select, 2
  {
    ArmsBefore(select.compounds, dialect, tail);
    ArmReads(select, dialect, tail);
    CompoundsRead(select.compounds, dialect, tail);
    hide Flow, SelectDoc, CompoundsDoc, Arm, CompoundsOf, Before, ProperSelect, ReadArm, ReadCompounds;
  }

  // ---- Arbiter predicates --------------------------------------------------------------------------------

  lemma {:induction false} InfixEnclosed(list: List, left: Surface, operator: string, last: List, right: Surface, tail: List)
    requires StartsExpression(list) && StartsExpression(last) && IsInfix(operator)
    requires Expression(list) == Some((left, Cons(Plain(Operator(operator)), last)))
    requires Expression(last) == Some((right, Cons(Closes, tail)))
    ensures Expression(Cons(Opens, list)) == Some((Infixed(left, operator, right), tail))
  {
    assert Operated(left, Cons(Plain(Operator(operator)), last)) == Some((Infixed(left, operator, right), tail));
    hide Operated;
    assert Enclosed(list) == Operated(left, Cons(Plain(Operator(operator)), last));
  }

  lemma {:induction false} PostfixEnclosed(list: List, operand: Surface, operator: string, tail: List)
    requires StartsExpression(list)
    requires Expression(list) == Some((operand, Cons(Plain(Operator(operator)), Cons(Closes, tail))))
    ensures Expression(Cons(Opens, list)) == Some((Postfixed(operand, operator), tail))
  {
    assert Operated(operand, Cons(Plain(Operator(operator)), Cons(Closes, tail))) == Some((Postfixed(operand, operator), tail));
    hide Operated;
    assert Enclosed(list) == Operated(operand, Cons(Plain(Operator(operator)), Cons(Closes, tail)));
  }

  lemma {:induction false} ConstantReads(value: Value, tail: List)
    requires IsConstant(value) && Follows(tail)
    ensures Expression(Flow(ConstantDoc(value), tail)) == Some((ReadConstant(value), tail))
    ensures StartsExpression(Flow(ConstantDoc(value), tail))
  {
    FlowParts();
    hide Flow;
    match value
    case Null => KeywordReads("null", tail);
    case Bool(flag) => KeywordReads(if flag then "true" else "false", tail);
    case Int(_) =>
    case Str(_) =>
  }

  lemma {:induction false} PredicateStarts(node: Node, tail: List)
    requires Allowed(node) && Follows(tail)
    ensures StartsExpression(Flow(PredicateDoc(node), tail))
  {
    if node.Bound? {
      ConstantReads(node.value, tail);
      hide Flow, ConstantDoc, StartsExpression;
    } else {
      FlowParts();
      hide Flow, ConstantDoc, PredicatesDoc, Allowed;
    }
  }

  predicate PredicateReadsBack(node: Node, tail: List) {
    Expression(Flow(PredicateDoc(node), tail)) == Some((ReadPredicate(node), tail))
  }

  lemma {:induction false} PredicateReads(node: Node, tail: List)
    requires Allowed(node) && Follows(tail)
    ensures PredicateReadsBack(node, tail)
    decreases node, 1
  {
    match node
    case Column(source, name) => ColumnReads(node, tail);
    case Bound(value) =>
      ConstantReads(value, tail);
      hide Flow, ConstantDoc, Expression, ReadConstant;
    case Binary(_, _, _) => BinaryPredicateReads(node, tail);
    case Unary(_, _) => UnaryPredicateReads(node, tail);
    case In(_, _, _) => MemberPredicateReads(node, tail);
    case Between(_, _, _, _) => RangePredicateReads(node, tail);
    case _ =>
  }

  lemma ColumnReads(node: Node, tail: List)
    requires node.Column?
    ensures PredicateReadsBack(node, tail)
  {
    FlowParts();
    hide Flow;
    assert Flow(PredicateDoc(node), tail) ==
      Cons(Plain(Identifier(node.source)), Cons(Plain(Word(".")), Cons(Plain(Identifier(node.name)), tail)));
  }

  lemma {:induction false} BinaryPredicateReads(node: Node, tail: List)
    requires node.Binary? && Allowed(node)
    ensures PredicateReadsBack(node, tail)
    decreases node, 0
  {
    var last := Flow(PredicateDoc(node.right), Cons(Closes, tail));
    var list := Flow(PredicateDoc(node.left), Cons(Plain(Operator(node.operator)), last));
    PredicateReads(node.left, Cons(Plain(Operator(node.operator)), last));
    PredicateReads(node.right, Cons(Closes, tail));
    PredicateStarts(node.left, Cons(Plain(Operator(node.operator)), last));
    PredicateStarts(node.right, Cons(Closes, tail));
    assert Flow(PredicateDoc(node), tail) == Cons(Opens, list) by {
      FlowParts();
      hide Flow;
    }
    assert IsInfix(node.operator);
    assert ReadPredicate(node) == Infixed(ReadPredicate(node.left), node.operator, ReadPredicate(node.right));
    hide Flow, PredicateDoc, Expression, ReadPredicate, StartsExpression, Allowed, IsInfix;
    InfixEnclosed(list, ReadPredicate(node.left), node.operator, last, ReadPredicate(node.right), tail);
  }

  lemma {:induction false} UnaryPredicateReads(node: Node, tail: List)
    requires node.Unary? && Allowed(node)
    ensures PredicateReadsBack(node, tail)
    decreases node, 0
  {
    var last := Cons(Plain(Operator(node.operator)), Cons(Closes, tail));
    var list := Flow(PredicateDoc(node.operand), last);
    PredicateReads(node.operand, last);
    PredicateStarts(node.operand, last);
    assert Flow(PredicateDoc(node), tail) == Cons(Opens, list) by {
      FlowParts();
      hide Flow;
    }
    assert ReadPredicate(node) == Postfixed(ReadPredicate(node.operand), node.operator);
    hide Flow, PredicateDoc, Expression, ReadPredicate, StartsExpression, Allowed;
    PostfixEnclosed(list, ReadPredicate(node.operand), node.operator, tail);
  }

  lemma {:induction false} MemberPredicateReads(node: Node, tail: List)
    requires node.In? && Allowed(node)
    ensures PredicateReadsBack(node, tail)
    decreases node, 0
  {
    var operator := Not(node.negated, "in");
    var list := Flow(PredicatesDoc(node.values), Cons(Closes, Cons(Closes, tail)));
    var last := Cons(Plain(Operator(operator)), Cons(Opens, list));
    var whole := Flow(PredicateDoc(node.expression), last);
    PredicateReads(node.expression, last);
    PredicateStarts(node.expression, last);
    PredicatesRead(node.values, Cons(Closes, tail));
    assert Flow(PredicateDoc(node), tail) == Cons(Opens, whole) by {
      FlowParts();
      hide Flow, PredicatesDoc;
    }
    NegatedWords();
    assert ReadPredicate(node) == Member(ReadPredicate(node.expression), operator, ReadPredicates(node.values));
    hide Flow, PredicateDoc, PredicatesDoc, Expression, Arguments, ReadPredicate, ReadPredicates;
    hide StartsExpression, Allowed;
    MemberEnclosed(whole, ReadPredicate(node.expression), operator, list, ReadPredicates(node.values), tail);
  }

  lemma {:induction false} RangePredicateReads(node: Node, tail: List)
    requires node.Between? && Allowed(node)
    ensures PredicateReadsBack(node, tail)
    decreases node, 0
  {
    var operator := Not(node.negated, "between");
    var last := Flow(PredicateDoc(node.upper), Cons(Closes, tail));
    var bounds := Flow(PredicateDoc(node.lower), Cons(Plain(Word("and")), last));
    var list := Flow(PredicateDoc(node.expression), Cons(Plain(Operator(operator)), bounds));
    PredicateReads(node.expression, Cons(Plain(Operator(operator)), bounds));
    PredicateReads(node.lower, Cons(Plain(Word("and")), last));
    PredicateReads(node.upper, Cons(Closes, tail));
    PredicateStarts(node.expression, Cons(Plain(Operator(operator)), bounds));
    PredicateStarts(node.lower, Cons(Plain(Word("and")), last));
    assert Flow(PredicateDoc(node), tail) == Cons(Opens, list) by {
      FlowParts();
      hide Flow;
    }
    NegatedWords();
    assert ReadPredicate(node) == Within(ReadPredicate(node.expression), operator, ReadPredicate(node.lower), ReadPredicate(node.upper));
    hide Flow, PredicateDoc, Expression, ReadPredicate, StartsExpression, Allowed;
    BetweenEnclosed(list, ReadPredicate(node.expression), operator, bounds, ReadPredicate(node.lower), last,
                    ReadPredicate(node.upper), tail);
  }

  lemma {:induction false} PredicatesRead(nodes: seq<Node>, tail: List)
    requires forall n :: n in nodes ==> Allowed(n)
    ensures Arguments(Flow(PredicatesDoc(nodes), Cons(Closes, tail))) == Some((ReadPredicates(nodes), tail))
    ensures nodes != [] ==> Several(Flow(PredicatesDoc(nodes), Cons(Closes, tail))) == Some((ReadPredicates(nodes), tail))
    ensures !StartsQuery(Flow(PredicatesDoc(nodes), Cons(Closes, tail)))
    decreases nodes
  {
    FlowParts();
    hide Flow, PredicateDoc, ReadPredicate, Allowed, Expression, StartsExpression;
    if nodes != [] {
      var rest := if |nodes| == 1 then Cons(Closes, tail)
                  else Cons(Plain(Comma), Flow(PredicatesDoc(nodes[1..]), Cons(Closes, tail)));
      PredicateReads(nodes[0], rest);
      PredicateStarts(nodes[0], rest);
      if |nodes| == 1 {
        assert nodes[1..] == [] && ReadPredicates([]) == [];
        assert [ReadPredicate(nodes[0])] + [] == [ReadPredicate(nodes[0])];
      } else {
        PredicatesRead(nodes[1..], tail);
      }
      assert Flow(PredicatesDoc(nodes), Cons(Closes, tail)) == Flow(PredicateDoc(nodes[0]), rest);
      NotEmptyHanded(Flow(PredicateDoc(nodes[0]), rest));
    }
  }

  lemma NotEmptyHanded(list: List)
    requires StartsExpression(list)
    ensures Past(list, Closes).None? && !StartsQuery(list)
  {
  }

  // ---- Rows and assignments ----------------------------------------------------------------------------

  lemma {:induction false} CellsRead(cells: seq<Cell>, dialect: Dialect, tail: List)
    requires ProperCells(cells)
    ensures Arguments(Flow(CellsDoc(cells, dialect), Cons(Closes, tail))) == Some((ReadCells(cells, dialect), tail))
    ensures cells != [] ==> Several(Flow(CellsDoc(cells, dialect), Cons(Closes, tail))) == Some((ReadCells(cells, dialect), tail))
    decreases cells
  {
    FlowParts();
    hide Flow, NodeDoc, Read, Proper, Expression, StartsExpression;
    if cells != [] {
      assert ProperCell(cells[0]);
      var rest := if |cells| == 1 then Cons(Closes, tail)
                  else Cons(Plain(Comma), Flow(CellsDoc(cells[1..], dialect), Cons(Closes, tail)));
      CellReads(cells[0], dialect, rest);
      if |cells| == 1 {
        assert cells[1..] == [] && ReadCells([], dialect) == [];
        assert [ReadCell(cells[0], dialect)] + [] == [ReadCell(cells[0], dialect)];
      } else {
        CellsRead(cells[1..], dialect, tail);
      }
      assert Flow(CellsDoc(cells, dialect), Cons(Closes, tail)) == Flow(CellDoc(cells[0], dialect), rest);
      NotEmptyHanded(Flow(CellDoc(cells[0], dialect), rest));
    }
  }

  lemma {:induction false} CellReads(cell: Cell, dialect: Dialect, tail: List)
    requires ProperCell(cell) && Follows(tail)
    ensures Expression(Flow(CellDoc(cell, dialect), tail)) == Some((ReadCell(cell, dialect), tail))
    ensures StartsExpression(Flow(CellDoc(cell, dialect), tail))
    decreases cell
  {
    NodeReads(cell.value, dialect, tail);
    NodeStarts(cell.value, dialect, tail);
    hide Flow, NodeDoc, Read, Proper, Expression, StartsExpression;
  }

  lemma {:induction false} RowsRead(rows: seq<Row>, dialect: Dialect, tail: List)
    requires rows != [] && !(tail.Cons? && tail.head == Plain(Comma))
    requires forall i :: 0 <= i < |rows| ==> ProperRow(rows[i])
    ensures RowsOf(Flow(RowsDoc(rows, dialect), tail)) == Some((ReadRows(rows, dialect), tail))
    decreases rows
  {
    hide Flow, CellsDoc, ReadRow, Arguments, ProperRow;
    var rest := if |rows| == 1 then tail else Cons(Plain(Comma), Flow(RowsDoc(rows[1..], dialect), tail));
    RowReads(rows[0], dialect, rest);
    if |rows| > 1 {
      RowsRead(rows[1..], dialect, tail);
    } else {
      assert rows[1..] == [] && ReadRows([], dialect) == [];
      assert [ReadRow(rows[0], dialect)] + [] == [ReadRow(rows[0], dialect)];
    }
    var row := Flow(CellsDoc(rows[0].cells, dialect), Cons(Closes, rest));
    assert Flow(RowsDoc(rows, dialect), tail) == Cons(Opens, row) by {
      FlowParts();
    }
    hide RowsDoc;
  }

  lemma {:induction false} RowReads(row: Row, dialect: Dialect, tail: List)
    requires ProperRow(row)
    ensures Arguments(Flow(CellsDoc(row.cells, dialect), Cons(Closes, tail))) == Some((ReadRow(row, dialect), tail))
    decreases row
  {
    CellsRead(row.cells, dialect, tail);
    hide Flow, CellsDoc, ReadCells, Arguments;
  }

  lemma {:induction false} AssignmentsRead(cells: seq<Cell>, dialect: Dialect, tail: List)
    requires ProperCells(cells) && Before(tail, {})
    ensures AssignmentsOf(Flow(AssignmentsDoc(cells, dialect), tail)) == Some((ReadComponents(cells, dialect), tail))
    decreases cells
  {
    BeforeFollows(tail);
    if cells == [] {
      assert Flow(AssignmentsDoc(cells, dialect), tail) == tail;
      assert AssignmentsOf(tail) == Some(([], tail));
    } else {
      var rest := if |cells| == 1 then tail else Cons(Plain(Comma), Flow(AssignmentsDoc(cells[1..], dialect), tail));
      assert ProperCell(cells[0]);
      CellReads(cells[0], dialect, rest);
      if |cells| > 1 {
        AssignmentsRead(cells[1..], dialect, tail);
      } else {
        assert cells[1..] == [] && ReadComponents([], dialect) == [];
      }
      AssignmentFlow(cells, dialect, tail, rest);
      assert ReadComponents(cells, dialect) == [(cells[0].name, ReadCell(cells[0], dialect))] + ReadComponents(cells[1..], dialect);
      AssignmentStep(Flow(AssignmentsDoc(cells, dialect), tail), cells[0].name, Flow(CellDoc(cells[0], dialect), rest),
                     ReadCell(cells[0], dialect), rest, ReadComponents(cells[1..], dialect), tail);
      hide Flow, CellDoc, AssignmentsDoc, ReadCell, ReadComponents, ProperCells, AssignmentsOf, Expression;
    }
  }

  lemma AssignmentFlow(cells: seq<Cell>, dialect: Dialect, tail: List, rest: List)
    requires cells != []
    requires rest == if |cells| == 1 then tail else Cons(Plain(Comma), Flow(AssignmentsDoc(cells[1..], dialect), tail))
    ensures Flow(AssignmentsDoc(cells, dialect), tail) ==
      Cons(Plain(Identifier(cells[0].name)), Cons(Plain(Word("=")), Flow(CellDoc(cells[0], dialect), rest)))
  {
    FlowParts();
    hide Flow, NodeDoc;
  }

  lemma {:induction false} AssignmentStep(list: List, name: string, value: List, said: Surface, rest: List,
                                          more: seq<(string, Surface)>, tail: List)
    requires list == Cons(Plain(Identifier(name)), Cons(Plain(Word("=")), value))
    requires Expression(value) == Some((said, rest))
    requires if rest.Cons? && rest.head == Plain(Comma) then AssignmentsOf(rest.tail) == Some((more, tail))
             else more == [] && rest == tail
    ensures AssignmentsOf(list) == Some(([(name, said)] + more, tail))
  {
    hide Expression;
    if !(rest.Cons? && rest.head == Plain(Comma)) {
      assert [(name, said)] + [] == [(name, said)];
    }
  }

  // ---- RETURNING and ON CONFLICT -----------------------------------------------------------------------

  predicate Closed(list: List) {
    list.Nil? || list.head.Closes?
  }

  lemma {:induction false} ReturningReads(nodes: seq<Node>, dialect: Dialect, tail: List)
    requires ProperSelections(nodes) && Closed(tail)
    ensures ReturningOf(Flow(ReturningDoc(nodes, dialect), tail)) == Some((ReadSelections(nodes, dialect), tail))
    decreases nodes, 6
  {
    FlowParts();
    if nodes != [] {
      SelectedAllRead(nodes, dialect, tail);
    }
    hide Flow, ListDoc, SelectedAll;
  }

  lemma ReturningBefore(nodes: seq<Node>, dialect: Dialect, tail: List, words: set<string>)
    requires Closed(tail) && "returning" !in words
    ensures Before(Flow(ReturningDoc(nodes, dialect), tail), words)
  {
    FlowParts();
    hide Flow, ListDoc;
  }

  lemma {:induction false} ActionReads(conflict: Conflict, dialect: Dialect, tail: List)
    requires ProperConflict(conflict) && Before(tail, {"where"})
    ensures ActionOf(Flow(ActionDoc(conflict, dialect), tail)) == Some((ReadAction(conflict, dialect), tail))
    decreases conflict
  {
    hide Flow, ClauseDoc, AssignmentsDoc, ClauseOf, AssignmentsOf, ReadComponents, ReadOption, Before, AfterList;
    hide Follows, Proper, AllProper, ProperOption, ProperSelections, ProperSelect, ProperSource, ProperCells;
    hide ProperBody, ProperConflict, ProperQuery;
    ProperClause(conflict);
    if conflict.action == "nothing" {
      FlowParts();
    } else {
      var filter := Flow(ClauseDoc("where", conflict.updateWhere, dialect), tail);
      var list := Flow(AssignmentsDoc(conflict.updateValues, dialect), filter);
      BeforeLess(tail, {"where"}, {});
      BeforeFollows(tail);
      ClauseBefore("where", conflict.updateWhere, dialect, tail, {});
      ClauseReads("where", conflict.updateWhere, dialect, tail);
      AssignmentsRead(conflict.updateValues, dialect, filter);
      assert Flow(ActionDoc(conflict, dialect), tail) == Cons(Plain(Word("do update set")), list) by {
        FlowParts();
      }
    }
  }

  lemma ActionStarts(conflict: Conflict, dialect: Dialect, tail: List)
    requires ProperConflict(conflict)
    ensures var list := Flow(ActionDoc(conflict, dialect), tail);
      Follows(list) && !IsWord(list, "where") && !(list.Cons? && list.head.Opens?)
  {
    FlowParts();
    hide Flow, ClauseDoc, AssignmentsDoc;
  }

  lemma {:induction false} TargetReads(conflict: Conflict, tail: List)
    requires ProperConflict(conflict) && Follows(tail) && !IsWord(tail, "where")
    ensures ClauseOf("where", TargetFlow(conflict, tail)) ==
      Some((if conflict.targetWhere.None? then None else Some(ReadPredicate(conflict.targetWhere.value)), tail))
  {
    if conflict.targetWhere.Some? {
      PredicateReads(conflict.targetWhere.value, tail);
      hide Flow, PredicateDoc, Expression, ReadPredicate;
    }
  }

  /** The arbiter predicate, if there is one. */
  function TargetFlow(conflict: Conflict, tail: List): List {
    if conflict.targetWhere.None? then tail else Cons(Plain(Word("where")), Flow(PredicateDoc(conflict.targetWhere.value), tail))
  }

  lemma ConflictFlow(conflict: Conflict, dialect: Dialect, tail: List)
    ensures var target := TargetFlow(conflict, Flow(ActionDoc(conflict, dialect), tail));
      Flow(ConflictDoc(conflict, dialect), tail) == Cons(Plain(Word("on conflict")),
        if conflict.columns == [] then target else Cons(Opens, Flow(NamesDoc(conflict.columns), Cons(Closes, target))))
  {
    FlowParts();
    hide Flow, NamesDoc, PredicateDoc, ActionDoc;
  }

  lemma {:induction false} ConflictReads(conflict: Option<Conflict>, dialect: Dialect, tail: List)
    requires (conflict.Some? ==> ProperConflict(conflict.value)) && Before(tail, {"where", "on conflict"})
    ensures ConflictOf(Flow(ConflictClauseDoc(conflict, dialect), tail)) == Some((ReadConflict(conflict, dialect), tail))
    decreases conflict
  {
    if conflict.None? {
      assert Flow(ConflictClauseDoc(conflict, dialect), tail) == tail;
      assert ConflictOf(tail) == Some((None, tail));
    } else {
      var c := conflict.value;
      var action := Flow(ActionDoc(c, dialect), tail);
      var target := TargetFlow(c, action);
      BeforeLess(tail, {"where", "on conflict"}, {"where"});
      ActionReads(c, dialect, tail);
      ActionStarts(c, dialect, tail);
      TargetReads(c, action);
      ColumnsRead(c.columns, target);
      ConflictFlow(c, dialect, tail);
      var said := if c.targetWhere.None? then None else Some(ReadPredicate(c.targetWhere.value));
      assert ReadConflict(conflict, dialect) == Some(ConflictSaid(c.columns, said, ReadAction(c, dialect)));
      assert c.targetWhere.None? ==> target == action;
      var list := if c.columns == [] then target else Cons(Opens, Flow(NamesDoc(c.columns), Cons(Closes, target)));
      assert Flow(ConflictClauseDoc(conflict, dialect), tail) == Cons(Plain(Word("on conflict")), list);
      hide Flow, ConflictClauseDoc, ConflictDoc, ActionDoc, NamesDoc, ColumnsOf, ClauseOf, ActionOf;
      hide ReadConflict, ReadAction, ReadPredicate;
      hide Before, ProperConflict, Expression;
      ConflictStep(list, c.columns, target, said, action, ReadAction(c, dialect), tail);
    }
  }

  lemma {:induction false} ConflictStep(list: List, columns: seq<string>, target: List, said: Option<Surface>, action: List,
                                        done: ActionSaid, tail: List)
    requires if columns == [] then list == target && !(list.Cons? && list.head.Opens?)
             else list.Cons? && list.head.Opens? && ColumnsOf(list.tail) == Some((columns, target))
    requires ClauseOf("where", target) == Some((said, action)) && ActionOf(action) == Some((done, tail))
    ensures ConflictOf(Cons(Plain(Word("on conflict")), list)) == Some((Some(ConflictSaid(columns, said, done)), tail))
  {
    hide ColumnsOf, ClauseOf, ActionOf;
  }

  lemma {:induction false} ConflictBefore(conflict: Option<Conflict>, dialect: Dialect, tail: List, words: set<string>)
    requires Before(tail, words) && "on conflict" !in words
    ensures Before(Flow(ConflictClauseDoc(conflict, dialect), tail), words)
  {
    FlowParts();
    hide Flow, TargetDoc, ActionDoc;
  }

  // ---- Statements ----------------------------------------------------------------------------------------

  lemma {:induction false} BodyReads(source: InsertSource, dialect: Dialect, tail: List)
    requires ProperBody(source) && !source.DefaultValues? && Before(tail, SELECT_WORDS)
    ensures BodyOf(Flow(InsertBody(source, dialect), tail)) == Some((ReadBody(source, dialect), tail))
    decreases source, 1
  {
    hide Flow, InsertBody, BodyOf, ReadBody, ProperBody, Before;
    match source
    case Values(_) => RowReadsAlone(source, dialect, tail);
    case Rows(_) => AllRowsRead(source, dialect, tail);
    case FromSelect(query, _) => QueryBodyReads(source, dialect, tail);
  }

  lemma {:induction false} RowReadsAlone(source: InsertSource, dialect: Dialect, tail: List)
    requires source.Values? && ProperBody(source) && Before(tail, SELECT_WORDS)
    ensures BodyOf(Flow(InsertBody(source, dialect), tail)) == Some((ReadBody(source, dialect), tail))
    decreases source, 0
  {
    var cells := source.cells;
    BeforeLess(tail, SELECT_WORDS, {});
    BeforeFollows(tail);
    hide Before, ProperCells;
    CellsRead(cells, dialect, tail);
    var list := Cons(Opens, Flow(CellsDoc(cells, dialect), Cons(Closes, tail)));
    assert Flow(InsertBody(source, dialect), tail) == Cons(Plain(Word("values")), list) by {
      FlowParts();
      hide Flow, CellsDoc;
    }
    hide Flow, InsertBody, CellsDoc, Arguments, ReadCells;
    assert RowsOf(list) == Some(([ReadCells(cells, dialect)], tail));
  }

  lemma {:induction false} AllRowsRead(source: InsertSource, dialect: Dialect, tail: List)
    requires source.Rows? && ProperBody(source) && Before(tail, SELECT_WORDS)
    ensures BodyOf(Flow(InsertBody(source, dialect), tail)) == Some((ReadBody(source, dialect), tail))
    decreases source, 0
  {
    BeforeLess(tail, SELECT_WORDS, {});
    BeforeFollows(tail);
    hide Before, ProperRow;
    RowsRead(source.rows, dialect, tail);
    assert Flow(InsertBody(source, dialect), tail) == Cons(Plain(Word("values")), Flow(RowsDoc(source.rows, dialect), tail)) by {
      FlowParts();
      hide Flow, RowsDoc;
    }
    hide Flow, InsertBody, RowsDoc, RowsOf, ReadRows;
  }

  lemma {:induction false} QueryBodyReads(source: InsertSource, dialect: Dialect, tail: List)
    requires source.FromSelect? && ProperBody(source) && Before(tail, SELECT_WORDS)
    ensures BodyOf(Flow(InsertBody(source, dialect), tail)) == Some((ReadBody(source, dialect), tail))
    decreases source, 0
  {
    hide ProperSelect, SelectDoc, ReadSelect, Reader.Query, Before;
    SelectReads(source.query, dialect, tail);
    QueryStarts(source.query, dialect, tail);
    hide Flow;
  }

  lemma InsertFlow(table: Table, source: InsertSource, dialect: Dialect, tail: List)
    ensures Flow(InsertDoc(table, Some(source), dialect), tail) == Cons(Plain(Word("insert into")), Flow(TableDoc(table, dialect),
      if source.DefaultValues? then Cons(Plain(Word("default values")), tail)
      else Cons(Opens, Flow(NamesDoc(InsertColumns(source)), Cons(Closes, Flow(InsertBody(source, dialect), tail))))))
  {
    FlowParts();
    hide Flow, TableDoc, NamesDoc, InsertBody;
  }

  lemma {:induction false} ValuesRead(source: InsertSource, conflict: Option<Conflict>, dialect: Dialect, tail: List, query: Ast.Query)
    requires query.Insert? && query.source == Some(source) && query.conflict == conflict && ProperQuery(query)
    requires !source.DefaultValues? && Before(tail, SELECT_WORDS + {"on conflict"})
    ensures var body := Flow(InsertBody(source, dialect), Flow(ConflictClauseDoc(conflict, dialect), tail));
      ValuesOf(Cons(Opens, Flow(NamesDoc(InsertColumns(source)), Cons(Closes, body)))) ==
        Some((InsertColumns(source), ReadBody(source, dialect), ReadConflict(conflict, dialect), tail))
    decreases query, 0
  {
    hide Flow, NamesDoc, InsertBody, ConflictClauseDoc, ColumnsOf, BodyOf, ConflictOf, ReadBody, ReadConflict;
    hide InsertColumns, Before, Proper, AllProper, ProperOption, ProperSelections, ProperSelect, ProperSource;
    hide ProperCells, ProperBody, ProperConflict, ProperQuery;
    ProperStatement(query);
    var clause := Flow(ConflictClauseDoc(conflict, dialect), tail);
    var body := Flow(InsertBody(source, dialect), clause);
    BeforeLess(tail, SELECT_WORDS + {"on conflict"}, SELECT_WORDS);
    BeforeLess(tail, SELECT_WORDS + {"on conflict"}, {"where", "on conflict"});
    ConflictBefore(conflict, dialect, tail, SELECT_WORDS);
    ConflictReads(conflict, dialect, tail);
    BodyReads(source, dialect, clause);
    ColumnsRead(InsertColumns(source), body);
  }

  lemma {:induction false} InsertReads(query: Ast.Query, dialect: Dialect, tail: List)
    requires query.Insert? && ProperQuery(query) && Closed(tail)
    ensures Statement(Flow(QueryDoc(query, dialect), tail)) == Some((ReadQuery(query, dialect), tail))
    decreases query, 1
  {
    hide Flow, QueryDoc, TableDoc, NamesDoc, InsertBody, ConflictClauseDoc, ReturningDoc, ReadBody, ReadConflict;
    hide ReadSelections, InsertColumns, ValuesOf, ReturningOf, TableOf, Before, Proper, AllProper, ProperOption;
    hide ProperSelections, ProperSelect, ProperSource, ProperCells, ProperBody, ProperConflict, ProperQuery;
    ProperStatement(query);
    var source := query.source.value;
    var returning := Flow(ReturningDoc(query.returning, dialect), tail);
    ReturningReads(query.returning, dialect, tail);
    ReturningBefore(query.returning, dialect, tail, SELECT_WORDS + {"on conflict"});
    var after := if source.DefaultValues? then Cons(Plain(Word("default values")), returning)
                 else Cons(Opens, Flow(NamesDoc(InsertColumns(source)), Cons(Closes,
                        Flow(InsertBody(source, dialect), Flow(ConflictClauseDoc(query.conflict, dialect), returning)))));
    if !source.DefaultValues? {
      ValuesRead(source, query.conflict, dialect, returning, query);
    }
    TableReads(query.table, dialect, after);
    InsertQueryFlow(query, dialect, tail);
    var table := Flow(TableDoc(query.table, dialect), after);
    assert Flow(QueryDoc(query, dialect), tail) == Cons(Plain(Word("insert into")), table);
    var columns := if source.DefaultValues? then [] else InsertColumns(source);
    var body := if source.DefaultValues? then NoValues else ReadBody(source, dialect);
    var conflict := if source.DefaultValues? then None else ReadConflict(query.conflict, dialect);
    assert ReadQuery(query, dialect) == InsertSaid(query.table, columns, body, conflict, ReadSelections(query.returning, dialect));
    assert InsertedOf(after) == Some((columns, body, conflict, returning));
    assert InsertOf(table) == Some((ReadQuery(query, dialect), tail));
  }

  lemma InsertQueryFlow(query: Ast.Query, dialect: Dialect, tail: List)
    requires query.Insert? && query.source.Some?
    ensures var source := query.source.value;
      var returning := Flow(ReturningDoc(query.returning, dialect), tail);
      Flow(QueryDoc(query, dialect), tail) == Cons(Plain(Word("insert into")), Flow(TableDoc(query.table, dialect),
        if source.DefaultValues? then Cons(Plain(Word("default values")), returning)
        else Cons(Opens, Flow(NamesDoc(InsertColumns(source)), Cons(Closes,
               Flow(InsertBody(source, dialect), Flow(ConflictClauseDoc(query.conflict, dialect), returning)))))))
  {
    var source := query.source.value;
    var returning := Flow(ReturningDoc(query.returning, dialect), tail);
    var clause := if source.DefaultValues? then returning else Flow(ConflictClauseDoc(query.conflict, dialect), returning);
    InsertFlow(query.table, source, dialect, clause);
    FlowParts();
    hide Flow, InsertDoc, TableDoc, NamesDoc, InsertBody, ConflictClauseDoc, ReturningDoc;
  }

  lemma {:induction false} UpdateReads(query: Ast.Query, dialect: Dialect, tail: List)
    requires query.Update? && ProperQuery(query) && Closed(tail)
    ensures Statement(Flow(QueryDoc(query, dialect), tail)) == Some((ReadQuery(query, dialect), tail))
    decreases query, 1
  {
    hide Flow, TableDoc, AssignmentsDoc, ClauseDoc, ReturningDoc, ReadComponents, ReadOption, ReadSelections;
    hide TableOf, AssignmentsOf, ClauseOf, ReturningOf, Before, AfterList, Follows, Proper, AllProper;
    hide ProperOption, ProperSelections, ProperSelect, ProperSource, ProperCells, ProperBody, ProperConflict;
    hide ProperQuery;
    ProperStatement(query);
    var returning := Flow(ReturningDoc(query.returning, dialect), tail);
    var filter := Flow(ClauseDoc("where", query.condition, dialect), returning);
    var values := Flow(AssignmentsDoc(query.values, dialect), filter);
    var table := Flow(TableDoc(query.table, dialect), Cons(Plain(Word("set")), values));
    ReturningReads(query.returning, dialect, tail);
    ReturningBefore(query.returning, dialect, tail, {"where"});
    BeforeLess(returning, {"where"}, {});
    BeforeFollows(returning);
    ClauseReads("where", query.condition, dialect, returning);
    ClauseBefore("where", query.condition, dialect, returning, {});
    AssignmentsRead(query.values, dialect, filter);
    TableReads(query.table, dialect, Cons(Plain(Word("set")), values));
    assert Flow(QueryDoc(query, dialect), tail) == Cons(Plain(Word("update")), table) by {
      FlowParts();
    }
    assert ReadQuery(query, dialect) == UpdateSaid(query.table, ReadComponents(query.values, dialect),
      ReadOption(query.condition, dialect), ReadSelections(query.returning, dialect));
    assert UpdateOf(table) == Some((ReadQuery(query, dialect), tail));
  }

  lemma {:induction false} DeleteReads(query: Ast.Query, dialect: Dialect, tail: List)
    requires query.Delete? && ProperQuery(query) && Closed(tail)
    ensures Statement(Flow(QueryDoc(query, dialect), tail)) == Some((ReadQuery(query, dialect), tail))
    decreases query, 1
  {
    hide Flow, TableDoc, ClauseDoc, ReturningDoc, ReadOption, ReadSelections, TableOf, ClauseOf, ReturningOf;
    hide Before, AfterList, Follows, Proper, AllProper, ProperOption, ProperSelections, ProperSelect;
    hide ProperSource, ProperCells, ProperBody, ProperConflict, ProperQuery;
    ProperStatement(query);
    var returning := Flow(ReturningDoc(query.returning, dialect), tail);
    var filter := Flow(ClauseDoc("where", query.condition, dialect), returning);
    var table := Flow(TableDoc(query.table, dialect), filter);
    ReturningReads(query.returning, dialect, tail);
    ReturningBefore(query.returning, dialect, tail, {"where"});
    BeforeLess(returning, {"where"}, {});
    BeforeFollows(returning);
    ClauseReads("where", query.condition, dialect, returning);
    ClauseBefore("where", query.condition, dialect, returning, {});
    BeforeFollows(filter);
    TableReads(query.table, dialect, filter);
    assert Flow(QueryDoc(query, dialect), tail) == Cons(Plain(Word("delete from")), table) by {
      FlowParts();
    }
    assert ReadQuery(query, dialect) == DeleteSaid(query.table, ReadOption(query.condition, dialect),
      ReadSelections(query.returning, dialect));
    assert DeleteOf(table) == Some((ReadQuery(query, dialect), tail));
  }

  /** A whole statement is read back. */
  lemma {:induction false} StatementReads(query: Ast.Query, dialect: Dialect, tail: List)
    requires ProperQuery(query) && Closed(tail)
    ensures Statement(Flow(QueryDoc(query, dialect), tail)) == Some((ReadQuery(query, dialect), tail))
    decreases query, 2
  {
    hide Flow, SelectDoc, Reader.Query, ReadSelect, ProperSelect;
    match query
    case SelectQuery(select) =>
      SelectReads(select, dialect, tail);
      QueryStarts(select, dialect, tail);
      hide Flow, SelectDoc, Reader.Query, ReadSelect, ProperSelect;
    case Insert(_, _, _, _) => InsertReads(query, dialect, tail);
    case Update(_, _, _, _, _) => UpdateReads(query, dialect, tail);
    case Delete(_, _, _, _) => DeleteReads(query, dialect, tail);
  }

  /** Printing and reading back an expression gives what it says, and nothing is left over. */
  lemma PrintThenRead(node: Node, dialect: Dialect)
    requires Proper(node)
    ensures Expression(Flow(NodeDoc(node, dialect), Nil)) == Some((Read(node, dialect), Nil))
    ensures Items(Flow(NodeDoc(node, dialect), Nil)) == Meaning(NodeDoc(node, dialect))
  {
    NodeReads(node, dialect, Nil);
    FlowIsMeaning(NodeDoc(node, dialect), Nil);
    hide Expression, Flow, Meaning, NodeDoc;
    assert Meaning(NodeDoc(node, dialect)) + [] == Meaning(NodeDoc(node, dialect));
  }

  lemma {:induction false} ItemsAreText(a: List, b: List)
    requires Items(a) == Items(b)
    ensures a == b
  {
    if a.Cons? && b.Cons? {
      assert Items(a)[0] == Items(b)[0] && Items(a)[1..] == Items(a.tail) && Items(b)[1..] == Items(b.tail);
      ItemsAreText(a.tail, b.tail);
    }
  }

  /** Unique readability: expressions with the same text and values say the same. */
  lemma SameTextSaysTheSame(a: Node, b: Node, dialect: Dialect)
    requires Proper(a) && Proper(b)
    requires Meaning(NodeDoc(a, dialect)) == Meaning(NodeDoc(b, dialect))
    ensures Read(a, dialect) == Read(b, dialect)
  {
    PrintThenRead(a, dialect);
    PrintThenRead(b, dialect);
    ItemsAreText(Flow(NodeDoc(a, dialect), Nil), Flow(NodeDoc(b, dialect), Nil));
    hide Expression, Flow, Meaning, NodeDoc, Read;
  }

  // ---- What goes where -------------------------------------------------------------------------------

  /** The j-th column and the j-th value are the j-th pair. */
  predicate Pairs(columns: seq<string>, values: seq<Surface>, cells: seq<Cell>, dialect: Dialect) {
    && |columns| == |cells| && |values| == |cells|
    && forall j :: 0 <= j < |cells| ==> columns[j] == cells[j].name && values[j] == Read(cells[j].value, dialect)
  }

  /** Each value goes into the column it is paired with. */
  predicate Inserts(said: QuerySaid, source: InsertSource, dialect: Dialect) {
    && said.InsertSaid?
    && match source
       case Values(cells) =>
         said.body.RowsSaid? && |said.body.rows| == 1 && Pairs(said.columns, said.body.rows[0], cells, dialect)
       case Rows(rows) =>
         && said.body.RowsSaid? && |said.body.rows| == |rows|
         && (RowsAgree(rows) ==>
               forall i :: 0 <= i < |rows| ==> Pairs(said.columns, said.body.rows[i], rows[i].cells, dialect))
       case FromSelect(query, columns) => said.columns == columns && said.body == QueryBody(ReadSelect(query, dialect))
       case DefaultValues => said.columns == [] && said.body == NoValues && said.conflict == None
  }

  predicate Assigns(said: seq<(string, Surface)>, cells: seq<Cell>, dialect: Dialect) {
    |said| == |cells| && forall j :: 0 <= j < |cells| ==> said[j] == (cells[j].name, Read(cells[j].value, dialect))
  }

  lemma {:induction false} ComponentsAssign(cells: seq<Cell>, dialect: Dialect)
    ensures Assigns(ReadComponents(cells, dialect), cells, dialect)
    decreases |cells|
  {
    hide Read;
    if cells != [] {
      ComponentsAssign(cells[1..], dialect);
    }
  }

  lemma {:induction false} CellsPair(cells: seq<Cell>, dialect: Dialect)
    ensures |ReadCells(cells, dialect)| == |cells|
    ensures forall j :: 0 <= j < |cells| ==> ReadCells(cells, dialect)[j] == Read(cells[j].value, dialect)
    decreases |cells|
  {
    hide Read;
    if cells != [] {
      CellsPair(cells[1..], dialect);
    }
  }

  lemma {:induction false} RowsPair(rows: seq<Row>, dialect: Dialect)
    ensures |ReadRows(rows, dialect)| == |rows|
    ensures forall i :: 0 <= i < |rows| ==> ReadRows(rows, dialect)[i] == ReadCells(rows[i].cells, dialect)
    decreases |rows|
  {
    hide ReadCells;
    if rows != [] {
      RowsPair(rows[1..], dialect);
    }
  }

  lemma {:induction false} InsertPairs(query: Ast.Query, dialect: Dialect)
    requires query.Insert? && query.source.Some?
    requires query.source.value.Rows? ==> query.source.value.rows != []
    ensures Inserts(ReadQuery(query, dialect), query.source.value, dialect)
  {
    hide Read, ReadCells, ReadSelect, ReadSelections, ReadConflict;
    match query.source.value
    case Values(cells) => CellsPair(cells, dialect);
    case Rows(rows) =>
      RowsPair(rows, dialect);
      forall i | 0 <= i < |rows| && RowsAgree(rows)
        ensures Pairs(InsertColumns(query.source.value), ReadRows(rows, dialect)[i], rows[i].cells, dialect)
      {
        CellsPair(rows[i].cells, dialect);
      }
    case _ =>
  }

  /** What a data-modifying statement says, pair by pair. */
  predicate Modifies(said: QuerySaid, query: Ast.Query, dialect: Dialect) {
    match query
    case SelectQuery(_) => said.SelectSaid?
    case Insert(table, source, conflict, _) =>
      && source.Some? && said.InsertSaid? && said.table == table && Inserts(said, source.value, dialect)
      && (conflict.Some? && conflict.value.action == "update" && !source.value.DefaultValues? ==>
            && said.conflict.Some? && said.conflict.value.action.DoUpdate?
            && said.conflict.value.columns == conflict.value.columns
            && Assigns(said.conflict.value.action.assignments, conflict.value.updateValues, dialect))
    case Update(table, values, _, _, _) => said.UpdateSaid? && said.table == table && Assigns(said.assignments, values, dialect)
    case Delete(table, _, _, _) => said.DeleteSaid? && said.table == table
  }

  lemma ConflictAssigns(conflict: Conflict, dialect: Dialect)
    requires conflict.action == "update"
    ensures var said := ReadConflict(Some(conflict), dialect);
      && said.Some? && said.value.columns == conflict.columns && said.value.action.DoUpdate?
      && Assigns(said.value.action.assignments, conflict.updateValues, dialect)
  {
    hide ReadComponents, Assigns, ReadPredicate, ReadOption;
    ComponentsAssign(conflict.updateValues, dialect);
    assert ReadAction(conflict, dialect) ==
      DoUpdate(ReadComponents(conflict.updateValues, dialect), ReadOption(conflict.updateWhere, dialect));
  }

  lemma {:induction false} StatementModifies(query: Ast.Query, dialect: Dialect)
    requires ProperQuery(query)
    ensures Modifies(ReadQuery(query, dialect), query, dialect)
  {
    hide Read, ReadSelections, ReadComponents, ReadConflict, Assigns, Inserts, ReadBody, ReadOption;
    match query
    case SelectQuery(_) =>
    case Insert(_, source, conflict, _) =>
      ProperStatement(query);
      InsertPairs(query, dialect);
      if conflict.Some? && conflict.value.action == "update" {
        ConflictAssigns(conflict.value, dialect);
      }
    case Update(_, values, _, _, _) => ComponentsAssign(values, dialect);
    case Delete(_, _, _, _) =>
  }

  /**
   The same for a statement, with its CTEs, joins, subqueries and conflict clause, at any depth;
   in particular every value is read back with the column it goes into.
   */
  lemma StatementPrintThenRead(query: Ast.Query, dialect: Dialect)
    requires ProperQuery(query)
    ensures Statement(Flow(QueryDoc(query, dialect), Nil)) == Some((ReadQuery(query, dialect), Nil))
    ensures Modifies(ReadQuery(query, dialect), query, dialect)
    ensures Items(Flow(QueryDoc(query, dialect), Nil)) == Meaning(QueryDoc(query, dialect))
  {
    StatementReads(query, dialect, Nil);
    StatementModifies(query, dialect);
    FlowIsMeaning(QueryDoc(query, dialect), Nil);
    hide Statement, Flow, Meaning, QueryDoc, Modifies;
    assert Meaning(QueryDoc(query, dialect)) + [] == Meaning(QueryDoc(query, dialect));
  }

  /** Statements with the same text and values say the same. */
  lemma SameTextSameStatement(a: Ast.Query, b: Ast.Query, dialect: Dialect)
    requires ProperQuery(a) && ProperQuery(b)
    requires Meaning(QueryDoc(a, dialect)) == Meaning(QueryDoc(b, dialect))
    ensures ReadQuery(a, dialect) == ReadQuery(b, dialect)
  {
    StatementPrintThenRead(a, dialect);
    StatementPrintThenRead(b, dialect);
    ItemsAreText(Flow(QueryDoc(a, dialect), Nil), Flow(QueryDoc(b, dialect), Nil));
    hide Statement, Flow, Meaning, QueryDoc, ReadQuery;
  }
}

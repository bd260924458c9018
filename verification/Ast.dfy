/**
 The private syntax tree that builders construct, and the one traversal over it.
 Temporal nodes that render, traverse and validate alike share a constructor:
 `TemporalCall` is every node compiled as a plain call, `TemporalInfix` every node
 compiled between parentheses around an operator.
 */
module Ast {
  import opened Options

  /** A bound value, as far as the compiler looks into it. */
  datatype Value =
    | Null
    | Bool(flag: bool)
    | Int(number: int)
    | Str(text: string)
    | IntervalValue(months: int, days: int, microseconds: int)
    | Other(identity: nat)

  datatype Node =
    | Column(source: string, name: string)
    | Bound(value: Value)
    | Clock(kind: string)
    | Binary(left: Node, operator: string, right: Node)
    | TemporalCall(callee: string, arguments: seq<Node>)
    | MakeInterval(components: seq<Cell>)
    | Arithmetic(timestamp: Node, operator: string, interval: Node)
    | TemporalInfix(left: Node, operator: string, right: Node)
    | NegatedInterval(interval: Node)
    | Extract(field: string, expression: Node)
    | Trunc(field: string, expression: Node, zone: Option<Node>)
    | Bin(stride: Node, expression: Node, origin: Node)
    | Overlaps(leftStart: Node, leftEnd: Node, rightStart: Node, rightEnd: Node)
    | Unary(operator: string, operand: Node)
    | Function(name: string, arguments: seq<Node>)
    | Case(branches: seq<Branch>, otherwise: Node)
    | Aggregate(name: string, arguments: seq<Node>, filter: Option<Node>)
    | Window(expression: Node, partitionBy: seq<Node>, orderBy: seq<Order>, frame: Option<Frame>, exclusion: Option<string>)
    | Alias(expression: Node, alias: string)
    | NullableResult(expression: Node)
    | Star
    | In(expression: Node, values: seq<Node>, negated: bool)
    | InQuery(expression: Node, query: Select, negated: bool)
    | Between(expression: Node, lower: Node, upper: Node, negated: bool)
    | ScalarSubquery(query: Select)
    | Exists(query: Select, negated: bool)
    | Excluded(source: string, name: string)
    | PostgresInfix(left: Node, operator: string, right: Node)
    | UuidCast(operand: Node)

  /** A named expression: a column and its value, or a `make_interval` component. */
  datatype Cell = Cell(name: string, value: Node)

  datatype Row = Row(cells: seq<Cell>)

  datatype Branch = Branch(condition: Node, value: Node)

  datatype Order = Order(expression: Node, direction: string, nulls: Option<string>)

  datatype Frame = Frame(kind: string, start: FrameBoundary, end: FrameBoundary)

  datatype FrameBoundary = FrameBoundary(kind: string, amount: Option<int>)

  /** A stored relation; its schema is not part of its correlation name. */
  datatype Table = Table(name: string, alias: Option<string>, schema: Option<string>)
  {
    function Reference(): string {
      if alias.Some? && alias.value != "" then alias.value else name
    }
  }

  datatype Source =
    | Stored(table: Table)
    | Derived(query: Select, correlation: string)
    | CteSource(name: string)
  {
    /** The correlation name columns are qualified by. */
    function Reference(): string {
      match this
      case Stored(table) => table.Reference()
      case Derived(_, correlation) => correlation
      case CteSource(name) => name
    }
  }

  datatype Join = Join(source: Source, on: Node, kind: string)

  datatype Cte = Cte(name: string, query: Query, recursive: bool, materialized: bool)

  datatype Compound = Compound(operator: string, query: Select)

  datatype Lock = Lock(strength: string, tables: seq<Table>, waiting: Option<string>)

  datatype Select = Select(
    selections: seq<Node>, base: Option<Source>, joins: seq<Join>, condition: Option<Node>,
    groupBy: seq<Node>, having: Option<Node>, orderBy: seq<Order>, limit: Option<int>,
    offset: Option<int>, distinct: bool, ctes: seq<Cte>, compounds: seq<Compound>, locks: seq<Lock>)

  datatype InsertSource =
    | Values(cells: seq<Cell>)
    | Rows(rows: seq<Row>)
    | FromSelect(query: Select, columns: seq<string>)
    | DefaultValues

  datatype Conflict = Conflict(
    columns: seq<string>, action: string, updateValues: seq<Cell>,
    targetWhere: Option<Node>, updateWhere: Option<Node>)

  datatype Query =
    | SelectQuery(select: Select)
    | Insert(table: Table, source: Option<InsertSource>, conflict: Option<Conflict>, returning: seq<Node>)
    | Update(table: Table, values: seq<Cell>, condition: Option<Node>, bounded: bool, returning: seq<Node>)
    | Delete(table: Table, condition: Option<Node>, bounded: bool, returning: seq<Node>)

  function CellValues(cells: seq<Cell>): (r: seq<Node>)
    ensures |r| == |cells|
  {
    seq(|cells|, i requires 0 <= i < |cells| => cells[i].value)
  }

  function OrderExpressions(orders: seq<Order>): (r: seq<Node>)
    ensures |r| == |orders|
  {
    seq(|orders|, i requires 0 <= i < |orders| => orders[i].expression)
  }

  function BranchNodes(branches: seq<Branch>): (r: seq<Node>)
    ensures forall c :: c in r ==> exists b :: b in branches && (c == b.condition || c == b.value)
  {
    if branches == [] then [] else [branches[0].condition, branches[0].value] + BranchNodes(branches[1..])
  }

  function Present(node: Option<Node>): seq<Node> {
    if node.Some? then [node.value] else []
  }

  /** The direct operands of a node.  A nested SELECT is not an operand. */
  function Children(node: Node): (r: seq<Node>)
    ensures forall c :: c in r ==> c < node
  {
    match node
    case Column(_, _) | Bound(_) | Clock(_) | Star | Excluded(_, _) => []
    case ScalarSubquery(_) | Exists(_, _) => []
    case Binary(left, _, right) => [left, right]
    case TemporalCall(_, arguments) => arguments
    case MakeInterval(components) => CellValues(components)
    case Arithmetic(timestamp, _, interval) => [timestamp, interval]
    case TemporalInfix(left, _, right) => [left, right]
    case NegatedInterval(interval) => [interval]
    case Extract(_, expression) => [expression]
    case Trunc(_, expression, zone) => [expression] + Present(zone)
    case Bin(stride, expression, origin) => [stride, expression, origin]
    case Overlaps(leftStart, leftEnd, rightStart, rightEnd) => [leftStart, leftEnd, rightStart, rightEnd]
    case Unary(_, operand) => [operand]
    case Alias(expression, _) => [expression]
    case NullableResult(expression) => [expression]
    case UuidCast(operand) => [operand]
    case Function(_, arguments) => arguments
    case Case(branches, otherwise) => BranchNodes(branches) + [otherwise]
    case Aggregate(_, arguments, filter) => arguments + Present(filter)
    case Window(expression, partitionBy, orderBy, _, _) =>
      [expression] + partitionBy + OrderExpressions(orderBy)
    case In(expression, values, _) => [expression] + values
    case InQuery(expression, _, _) => [expression]
    case Between(expression, lower, upper, _) => [expression, lower, upper]
    case PostgresInfix(left, _, right) => [left, right]
  }

  /** A node and everything reachable through operands, depth first. */
  function Walk(node: Node): (r: seq<Node>)
    ensures node in r
    ensures forall n :: n in r ==> n == node || n < node
    decreases node, 0
  {
    [node] + WalkAll(Children(node), node)
  }

  function WalkAll(nodes: seq<Node>, ghost parent: Node): (r: seq<Node>)
    requires forall c :: c in nodes ==> c < parent
    ensures forall c :: c in nodes ==> c in r
    ensures forall n :: n in r ==> n < parent
    decreases parent, 0, |nodes|
  {
    if nodes == [] then []
    else
      assert nodes[0] in nodes && forall c :: c in nodes[1..] ==> c in nodes;
      Walk(nodes[0]) + WalkAll(nodes[1..], parent)
  }

  lemma {:induction false} WalkedChild(nodes: seq<Node>, parent: Node, item: Node)
    requires forall c :: c in nodes ==> c < parent
    requires item in WalkAll(nodes, parent)
    ensures exists c :: c in nodes && item in Walk(c)
    decreases |nodes|
  {
    if nodes != [] && item !in Walk(nodes[0]) {
      WalkedChild(nodes[1..], parent, item);
      var c :| c in nodes[1..] && item in Walk(c);
      assert c in nodes;
    }
  }

  lemma {:induction false} WalkedBy(nodes: seq<Node>, parent: Node, c: Node, item: Node)
    requires forall n :: n in nodes ==> n < parent
    requires c in nodes && item in Walk(c)
    ensures item in WalkAll(nodes, parent)
    decreases |nodes|
  {
    if c != nodes[0] {
      assert c in nodes[1..] && forall n :: n in nodes[1..] ==> n in nodes;
      WalkedBy(nodes[1..], parent, c, item);
    }
  }

  /** What a walk reaches: the node itself, and what its operands reach. */
  lemma WalkReaches(node: Node, item: Node)
    ensures item in Walk(node) <==> item == node || exists c :: c in Children(node) && item in Walk(c)
  {
    if item in WalkAll(Children(node), node) {
      WalkedChild(Children(node), node, item);
    }
    forall c | c in Children(node) && item in Walk(c) ensures item in WalkAll(Children(node), node) {
      WalkedBy(Children(node), node, c, item);
    }
  }

  /** The nested SELECT a node opens, if it is a subquery expression. */
  function Subquery(node: Node): Option<Select> {
    match node
    case ScalarSubquery(query) => Some(query)
    case Exists(query, _) => Some(query)
    case InQuery(_, query, _) => Some(query)
    case _ => None
  }

  lemma LeafWalk(node: Node)
    requires Children(node) == []
    ensures Walk(node) == [node]
  {
  }

  /** A correlation name is the alias, or else the relation's own name. */
  lemma ReferenceIsAliasOrName(source: Source)
    ensures source.CteSource? ==> source.Reference() == source.name
    ensures source.Derived? ==> source.Reference() == source.correlation
    ensures source.Stored? ==>
      var Table(name, alias, _) := source.table;
      source.Reference() == if alias == None || alias == Some("") then name else alias.value
  {
  }

  /** Every row names the columns of the first, in the same order. */
  predicate RowsAgree(rows: seq<Row>) {
    forall i :: 0 <= i < |rows| ==>
      && |rows[i].cells| == |rows[0].cells|
      && forall j :: 0 <= j < |rows[0].cells| ==> rows[i].cells[j].name == rows[0].cells[j].name
  }
}

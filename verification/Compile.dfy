/**
 The renderer as it runs: SQL is concatenated while values are appended to one shared
 parameter list, and the first problem met aborts the whole statement.
 */
module Compile {
  import opened Options
  import opened Ast
  import opened Document
  import opened Render

  datatype Result<+T> = Ok(value: T) | Err(fault: Fault)
  {
    predicate IsFailure() {
      Err?
    }

    function PropagateFailure<U>(): Result<U>
      requires Err?
    {
      Err(fault)
    }

    function Extract(): T
      requires Ok?
    {
      value
    }
  }

  type Sql = seq<Output>

  /** The list every compile step appends to. */
  class Parameters {
    var values: seq<Value>

    constructor ()
      ensures values == []
    {
      values := [];
    }
  }

  /** What a document prints once `values` are bound. */
  function Printed(doc: Doc, style: Style, values: seq<Value>): Sql {
    Text(doc, style, |values|)
  }

  /** The parameter list after compiling a document. */
  function After(doc: Doc, values: seq<Value>): seq<Value> {
    values + Binds(doc)
  }

  function Either<T>(a: Option<T>, b: Option<T>): Option<T> {
    if a.Some? then a else b
  }

  /**
   Compiling `doc`: the first fault in compile order, or the text numbered from the
   values bound before, with the document's own values appended.
   */
  ghost predicate Compiled(sql: Result<Sql>, doc: Doc, style: Style, before: seq<Value>, after: seq<Value>) {
    match FirstFault(doc)
    case Some(fault) => sql == Err(fault)
    case None => sql == Ok(Printed(doc, style, before)) && after == After(doc, before)
  }

  lemma PairFaults(a: Doc, b: Doc)
    ensures FirstFault(Seq(a, b)) == Either(FirstFault(a), FirstFault(b))
    ensures FirstFault(Swapped(a, b)) == Either(FirstFault(b), FirstFault(a))
  {
  }

  lemma PairAfter(a: Doc, b: Doc, v: seq<Value>)
    ensures After(Seq(a, b), v) == After(b, After(a, v))
    ensures After(Swapped(a, b), v) == After(a, After(b, v))
  {
    assert v + (Binds(a) + Binds(b)) == (v + Binds(a)) + Binds(b);
    assert v + (Binds(b) + Binds(a)) == (v + Binds(b)) + Binds(a);
  }

  lemma PairPrinted(a: Doc, b: Doc, style: Style, v: seq<Value>)
    ensures Printed(Seq(a, b), style, v) == Printed(a, style, v) + Printed(b, style, After(a, v))
    ensures Printed(Swapped(a, b), style, v) == Printed(a, style, After(b, v)) + Printed(b, style, v)
  {
    hide Binds;
  }

  lemma EmptyFirst(b: Doc, style: Style, v: seq<Value>)
    ensures Printed(Seq(Empty, b), style, v) == Printed(b, style, v)
  {
    PairPrinted(Empty, b, style, v);
    LeafParts(Comma, style, v);
    hide Printed, After;
    assert [] + Printed(b, style, v) == Printed(b, style, v);
  }

  /** How a document behaves in terms of its parts, at any depth. */
  lemma Parts(style: Style)
    ensures forall a, b {:trigger FirstFault(Seq(a, b))} :: FirstFault(Seq(a, b)) == Either(FirstFault(a), FirstFault(b))
    ensures forall a, b {:trigger FirstFault(Swapped(a, b))} :: FirstFault(Swapped(a, b)) == Either(FirstFault(b), FirstFault(a))
    ensures forall a, b, v {:trigger After(Seq(a, b), v)} :: After(Seq(a, b), v) == After(b, After(a, v))
    ensures forall a, b, v {:trigger After(Swapped(a, b), v)} :: After(Swapped(a, b), v) == After(a, After(b, v))
    ensures forall a, b, v {:trigger Printed(Seq(a, b), style, v)} ::
      Printed(Seq(a, b), style, v) == Printed(a, style, v) + Printed(b, style, After(a, v))
    ensures forall a, b, v {:trigger Printed(Swapped(a, b), style, v)} ::
      Printed(Swapped(a, b), style, v) == Printed(a, style, After(b, v)) + Printed(b, style, v)
    ensures forall b, v {:trigger Printed(Seq(Empty, b), style, v)} :: Printed(Seq(Empty, b), style, v) == Printed(b, style, v)
    ensures forall d {:trigger FirstFault(Paren(d))} :: FirstFault(Paren(d)) == FirstFault(d)
    ensures forall d, v {:trigger After(Paren(d), v)} :: After(Paren(d), v) == After(d, v)
    ensures forall d, v {:trigger Printed(Paren(d), style, v)} :: Printed(Paren(d), style, v) == Enclosed(Printed(d, style, v))
    ensures forall t: Token, v {:trigger After(Raw(t), v)} :: After(Raw(t), v) == v
    ensures forall t: Token, v {:trigger Printed(Raw(t), style, v)} :: Printed(Raw(t), style, v) == [Fixed(t)]
    ensures forall v {:trigger After(Empty, v)} :: After(Empty, v) == v
    ensures forall v {:trigger Printed(Empty, style, v)} :: Printed(Empty, style, v) == []
    ensures forall t: Token {:trigger FirstFault(Raw(t))} :: FirstFault(Raw(t)) == None
    ensures forall f: Fault {:trigger FirstFault(Raise(f))} :: FirstFault(Raise(f)) == Some(f)
    ensures FirstFault(Empty) == None
  {
    LeafFaults();
    hide FirstFault, After, Printed, Either;
    forall a, b ensures FirstFault(Seq(a, b)) == Either(FirstFault(a), FirstFault(b))
                        && FirstFault(Swapped(a, b)) == Either(FirstFault(b), FirstFault(a)) {
      PairFaults(a, b);
    }
    forall a, b, v: seq<Value> ensures After(Seq(a, b), v) == After(b, After(a, v))
                                       && After(Swapped(a, b), v) == After(a, After(b, v)) {
      PairAfter(a, b, v);
    }
    forall a, b, v: seq<Value>
      ensures Printed(Seq(a, b), style, v) == Printed(a, style, v) + Printed(b, style, After(a, v))
              && Printed(Swapped(a, b), style, v) == Printed(a, style, After(b, v)) + Printed(b, style, v) {
      PairPrinted(a, b, style, v);
    }
    forall b, v: seq<Value> ensures Printed(Seq(Empty, b), style, v) == Printed(b, style, v) {
      EmptyFirst(b, style, v);
    }
    forall d, v: seq<Value>
      ensures After(Paren(d), v) == After(d, v) && Printed(Paren(d), style, v) == Enclosed(Printed(d, style, v)) {
      EnclosedParts(d, style, v);
    }
    forall t: Token, v: seq<Value> ensures After(Raw(t), v) == v && Printed(Raw(t), style, v) == [Fixed(t)] {
      LeafParts(t, style, v);
    }
    forall v: seq<Value> ensures After(Empty, v) == v && Printed(Empty, style, v) == [] {
      LeafParts(Comma, style, v);
    }
  }

  lemma LeafFaults()
    ensures forall t: Token {:trigger FirstFault(Raw(t))} :: FirstFault(Raw(t)) == None
    ensures forall f: Fault {:trigger FirstFault(Raise(f))} :: FirstFault(Raise(f)) == Some(f)
    ensures forall d {:trigger FirstFault(Paren(d))} :: FirstFault(Paren(d)) == FirstFault(d)
    ensures FirstFault(Empty) == None
  {
  }

  lemma EnclosedParts(d: Doc, style: Style, v: seq<Value>)
    ensures After(Paren(d), v) == After(d, v) && Printed(Paren(d), style, v) == Enclosed(Printed(d, style, v))
  {
  }

  lemma LeafParts(t: Token, style: Style, v: seq<Value>)
    ensures After(Raw(t), v) == v && Printed(Raw(t), style, v) == [Fixed(t)]
    ensures After(Empty, v) == v && Printed(Empty, style, v) == []
  {
  }

  function Key(text: string): Sql {
    [Fixed(Word(text))]
  }

  function Lexeme(token: Token): Sql {
    [Fixed(token)]
  }

  function Enclosed(sql: Sql): Sql {
    [Opening] + sql + [Closing]
  }

  method CompileInfix(left: Node, operator: Token, right: Node, dialect: Dialect, parameters: Parameters,
                      ghost parent: Node)
    returns (sql: Result<Sql>)
    requires left < parent && right < parent
    modifies parameters
    ensures Compiled(sql, Infix(NodeDoc(left, dialect), operator, NodeDoc(right, dialect)),
                     dialect.style, old(parameters.values), parameters.values)
    decreases parent, 0
  {
    hide FirstFault, After, Printed, NodeDoc, ListDoc, SelectDoc;
    Parts(dialect.style);
    var a :- CompileNode(left, dialect, parameters);
    var b :- CompileNode(right, dialect, parameters);
    return Ok(Enclosed(a + (Lexeme(operator) + b)));
  }

  method CompileCall(name: string, arguments: seq<Node>, dialect: Dialect, parameters: Parameters)
    returns (sql: Result<Sql>)
    modifies parameters
    ensures Compiled(sql, Call(name, ListDoc(arguments, dialect)), dialect.style, old(parameters.values), parameters.values)
    decreases arguments, 1
  {
    hide FirstFault, After, Printed, NodeDoc, ListDoc, SelectDoc;
    Parts(dialect.style);
    var list :- CompileList(arguments, dialect, parameters);
    return Ok(Key(name) + Enclosed(list));
  }

  method CompileInterval(node: Node, dialect: Dialect, parameters: Parameters) returns (sql: Result<Sql>)
    modifies parameters
    ensures Compiled(sql, IntervalDoc(node, dialect), dialect.style, old(parameters.values), parameters.values)
    decreases node, 4
  {
    hide FirstFault, After, Printed, NodeDoc, ListDoc, SelectDoc;
    Parts(dialect.style);
    var text :- CompileNode(node, dialect, parameters);
    return Ok(if node.Bound? then text + Key("::interval") else text);
  }

  /** The interval is compiled first, though it prints last. */
  method CompileArithmetic(timestamp: Node, operator: string, interval: Node, dialect: Dialect, parameters: Parameters)
    returns (sql: Result<Sql>)
    modifies parameters
    ensures Compiled(sql, Parenthesized(Swapped(Seq(NodeDoc(timestamp, dialect), Raw(Operator(operator))),
                                                IntervalDoc(interval, dialect))),
                     dialect.style, old(parameters.values), parameters.values)
    decreases Arithmetic(timestamp, operator, interval), 0
  {
    hide FirstFault, After, Printed, NodeDoc, ListDoc, SelectDoc;
    Parts(dialect.style);
    var amount :- CompileInterval(interval, dialect, parameters);
    var base :- CompileNode(timestamp, dialect, parameters);
    return Ok(Enclosed((base + Lexeme(Operator(operator))) + amount));
  }

  method CompileNegated(interval: Node, dialect: Dialect, parameters: Parameters)
    returns (sql: Result<Sql>)
    modifies parameters
    ensures Compiled(sql, Parenthesized(Seq(W("-"), NodeDoc(interval, dialect))),
                     dialect.style, old(parameters.values), parameters.values)
    decreases NegatedInterval(interval), 0
  {
    hide FirstFault, After, Printed, NodeDoc, ListDoc, SelectDoc;
    Parts(dialect.style);
    var operand :- CompileNode(interval, dialect, parameters);
    return Ok(Enclosed(Key("-") + operand));
  }

  method CompileExtract(field: string, expression: Node, dialect: Dialect, parameters: Parameters)
    returns (sql: Result<Sql>)
    modifies parameters
    ensures Compiled(sql, Call("extract", Seq(Raw(Literal(field)), Seq(W("from"), NodeDoc(expression, dialect)))),
                     dialect.style, old(parameters.values), parameters.values)
    decreases Extract(field, expression), 0
  {
    hide FirstFault, After, Printed, NodeDoc, ListDoc, SelectDoc;
    Parts(dialect.style);
    var operand :- CompileNode(expression, dialect, parameters);
    return Ok(Key("extract") + Enclosed(Lexeme(Literal(field)) + (Key("from") + operand)));
  }

  method CompileTrunc(unit: string, expression: Node, zone: Option<Node>, dialect: Dialect, parameters: Parameters)
    returns (sql: Result<Sql>)
    modifies parameters
    ensures Compiled(sql, Call("date_trunc", Seq(Raw(Literal(unit)), Seq(Raw(Comma), Seq(NodeDoc(expression, dialect),
                       if zone.None? then Empty else Seq(Raw(Comma), NodeDoc(zone.value, dialect)))))),
                     dialect.style, old(parameters.values), parameters.values)
    decreases Trunc(unit, expression, zone), 0
  {
    hide FirstFault, After, Printed, NodeDoc, ListDoc, SelectDoc;
    Parts(dialect.style);
    var operand :- CompileNode(expression, dialect, parameters);
    var suffix: Sql := [];
    if zone.Some? {
      var named :- CompileNode(zone.value, dialect, parameters);
      suffix := Lexeme(Comma) + named;
    }
    return Ok(Key("date_trunc") + Enclosed(Lexeme(Literal(unit)) + (Lexeme(Comma) + (operand + suffix))));
  }

  method CompileBin(stride: Node, expression: Node, origin: Node, dialect: Dialect, parameters: Parameters)
    returns (sql: Result<Sql>)
    modifies parameters
    ensures Compiled(sql, Call("date_bin", Seq(IntervalDoc(stride, dialect), Seq(Raw(Comma), Seq(NodeDoc(expression, dialect),
                       Seq(Raw(Comma), NodeDoc(origin, dialect)))))),
                     dialect.style, old(parameters.values), parameters.values)
    decreases Bin(stride, expression, origin), 0
  {
    hide FirstFault, After, Printed, NodeDoc, ListDoc, SelectDoc;
    Parts(dialect.style);
    var width :- CompileInterval(stride, dialect, parameters);
    var operand :- CompileNode(expression, dialect, parameters);
    var base :- CompileNode(origin, dialect, parameters);
    return Ok(Key("date_bin") + Enclosed(width + (Lexeme(Comma) + (operand + (Lexeme(Comma) + base)))));
  }

  method CompilePair(left: Node, right: Node, dialect: Dialect, parameters: Parameters, ghost parent: Node)
    returns (sql: Result<Sql>)
    requires left < parent && right < parent
    modifies parameters
    ensures Compiled(sql, Parenthesized(Seq(NodeDoc(left, dialect), Seq(Raw(Comma), NodeDoc(right, dialect)))),
                     dialect.style, old(parameters.values), parameters.values)
    decreases parent, 0
  {
    hide FirstFault, After, Printed, NodeDoc, ListDoc, SelectDoc;
    Parts(dialect.style);
    var a :- CompileNode(left, dialect, parameters);
    var b :- CompileNode(right, dialect, parameters);
    return Ok(Enclosed(a + (Lexeme(Comma) + b)));
  }

  method CompileOverlaps(a: Node, b: Node, c: Node, d: Node, dialect: Dialect, parameters: Parameters)
    returns (sql: Result<Sql>)
    modifies parameters
    ensures Compiled(sql, Infix(Parenthesized(Seq(NodeDoc(a, dialect), Seq(Raw(Comma), NodeDoc(b, dialect)))),
                                Operator("overlaps"),
                                Parenthesized(Seq(NodeDoc(c, dialect), Seq(Raw(Comma), NodeDoc(d, dialect))))),
                     dialect.style, old(parameters.values), parameters.values)
    decreases Overlaps(a, b, c, d), 1
  {
    hide FirstFault, After, Printed, NodeDoc, ListDoc, SelectDoc;
    Parts(dialect.style);
    ghost var parent := Overlaps(a, b, c, d);
    var left :- CompilePair(a, b, dialect, parameters, parent);
    var right :- CompilePair(c, d, dialect, parameters, parent);
    return Ok(Enclosed(left + (Lexeme(Operator("overlaps")) + right)));
  }

  method CompileTemporal(node: Node, dialect: Dialect, parameters: Parameters) returns (sql: Result<Sql>)
    requires node.Arithmetic? || node.NegatedInterval? || node.Extract? || node.Trunc? || node.Bin? || node.Overlaps?
    modifies parameters
    ensures Compiled(sql, NodeDoc(node, dialect), dialect.style, old(parameters.values), parameters.values)
    decreases node, 2
  {
    hide Compiled, ListDoc, SelectDoc, IntervalDoc, Infix, Call, Parenthesized;
    match node {
      case Arithmetic(timestamp, operator, interval) =>
        sql := CompileArithmetic(timestamp, operator, interval, dialect, parameters);
      case NegatedInterval(interval) =>
        sql := CompileNegated(interval, dialect, parameters);
      case Extract(field, expression) =>
        sql := CompileExtract(field, expression, dialect, parameters);
      case Trunc(unit, expression, zone) =>
        sql := CompileTrunc(unit, expression, zone, dialect, parameters);
      case Bin(stride, expression, origin) =>
        sql := CompileBin(stride, expression, origin, dialect, parameters);
      case Overlaps(a, b, c, d) =>
        sql := CompileOverlaps(a, b, c, d, dialect, parameters);
    }
  }

  method CompileCase(branches: seq<Branch>, otherwise: Node, dialect: Dialect, parameters: Parameters)
    returns (sql: Result<Sql>)
    modifies parameters
    ensures Compiled(sql, Seq(W("case"), Seq(BranchesDoc(branches, dialect),
                       Seq(W("else"), Seq(NodeDoc(otherwise, dialect), W("end"))))),
                     dialect.style, old(parameters.values), parameters.values)
    decreases Case(branches, otherwise), 0
  {
    hide FirstFault, After, Printed, NodeDoc, ListDoc, SelectDoc;
    Parts(dialect.style);
    var arms :- CompileBranches(branches, dialect, parameters);
    var last :- CompileNode(otherwise, dialect, parameters);
    return Ok(Key("case") + (arms + (Key("else") + (last + Key("end")))));
  }

  method CompileAggregate(name: string, arguments: seq<Node>, filter: Option<Node>, dialect: Dialect,
                          parameters: Parameters)
    returns (sql: Result<Sql>)
    modifies parameters
    ensures Compiled(sql, Seq(Call(name, ListDoc(arguments, dialect)),
                       if filter.None? then Empty
                       else Seq(W("filter"), Parenthesized(Seq(W("where"), NodeDoc(filter.value, dialect))))),
                     dialect.style, old(parameters.values), parameters.values)
    decreases Aggregate(name, arguments, filter), 0
  {
    hide FirstFault, After, Printed, NodeDoc, ListDoc, SelectDoc;
    Parts(dialect.style);
    var call :- CompileCall(name, arguments, dialect, parameters);
    var suffix: Sql := [];
    if filter.Some? {
      var condition :- CompileNode(filter.value, dialect, parameters);
      suffix := Key("filter") + Enclosed(Key("where") + condition);
    }
    return Ok(call + suffix);
  }

  method CompileBoundary(boundary: FrameBoundary, style: Style, ghost values: seq<Value>) returns (sql: Sql)
    ensures Compiled(Ok(sql), BoundaryDoc(boundary), style, values, values)
  {
    hide FirstFault, After, Printed;
    Parts(style);
    if boundary.amount.None? {
      return Key(boundary.kind);
    }
    return Lexeme(Number(boundary.amount.value)) + Key(boundary.kind);
  }

  /** The exclusion is checked last, once the boundaries are compiled. */
  method CompileFrame(frame: Option<Frame>, orders: nat, exclusion: Option<string>, style: Style,
                      ghost values: seq<Value>)
    returns (sql: Result<Sql>)
    ensures Compiled(sql, if frame.None? then Empty else FrameDoc(frame.value, orders, exclusion), style, values, values)
  {
    hide FirstFault, After, Printed, BoundaryDoc;
    Parts(style);
    if frame.None? {
      return Ok([]);
    }
    var Frame(kind, first, last) := frame.value;
    if kind == "range" && (first.amount.Some? || last.amount.Some?) && orders != 1 {
      return Err(ValueFault);
    }
    var low := CompileBoundary(first, style, values);
    var high := CompileBoundary(last, style, values);
    var suffix: Sql := [];
    if exclusion.Some? {
      if exclusion.value !in EXCLUSIONS {
        return Err(ValueFault);
      }
      suffix := Key("exclude") + Key(exclusion.value);
    }
    return Ok(Key(kind) + (Key("between") + (low + (Key("and") + (high + suffix)))));
  }

  method CompileWindowClauses(partitionBy: seq<Node>, orderBy: seq<Order>, frame: Option<Frame>,
                              exclusion: Option<string>, dialect: Dialect, parameters: Parameters, ghost expression: Node)
    returns (sql: Result<Sql>)
    modifies parameters
    ensures Compiled(sql, ClausesDoc(partitionBy, orderBy, frame, exclusion, dialect),
                     dialect.style, old(parameters.values), parameters.values)
    decreases Window(expression, partitionBy, orderBy, frame, exclusion), 0
  {
    hide FirstFault, After, Printed, NodeDoc, PartitionDoc, OrderByDoc, FrameDoc, ListDoc, SelectDoc;
    Parts(dialect.style);
    var partition :- CompilePartition(partitionBy, dialect, parameters);
    var order :- CompileOrderBy(orderBy, dialect, parameters);
    var bounds :- CompileFrame(frame, |orderBy|, exclusion, dialect.style, parameters.values);
    return Ok(partition + (order + bounds));
  }

  /** The window is compiled before the expression it follows. */
  method CompileWindow(expression: Node, partitionBy: seq<Node>, orderBy: seq<Order>, frame: Option<Frame>,
                       exclusion: Option<string>, dialect: Dialect, parameters: Parameters)
    returns (sql: Result<Sql>)
    modifies parameters
    ensures Compiled(sql, Swapped(NodeDoc(expression, dialect),
                                  Seq(Guard(exclusion.None? || frame.Some?, ValueFault),
                                  Seq(W("over"), Parenthesized(ClausesDoc(partitionBy, orderBy, frame, exclusion, dialect))))),
                     dialect.style, old(parameters.values), parameters.values)
    decreases Window(expression, partitionBy, orderBy, frame, exclusion), 1
  {
    hide FirstFault, After, Printed, NodeDoc, PartitionDoc, OrderByDoc, FrameDoc, ListDoc, SelectDoc;
    Parts(dialect.style);
    if exclusion.Some? && frame.None? {
      return Err(ValueFault);
    }
    var clauses :- CompileWindowClauses(partitionBy, orderBy, frame, exclusion, dialect, parameters, expression);
    var text :- CompileNode(expression, dialect, parameters);
    return Ok(text + (Key("over") + Enclosed(clauses)));
  }

  method CompileIn(expression: Node, values: seq<Node>, negated: bool, dialect: Dialect, parameters: Parameters)
    returns (sql: Result<Sql>)
    modifies parameters
    ensures Compiled(sql, Infix(NodeDoc(expression, dialect), Operator(Not(negated, "in")), Parenthesized(ListDoc(values, dialect))),
                     dialect.style, old(parameters.values), parameters.values)
    decreases In(expression, values, negated), 0
  {
    hide FirstFault, After, Printed, NodeDoc, ListDoc, SelectDoc;
    Parts(dialect.style);
    var left :- CompileNode(expression, dialect, parameters);
    var list :- CompileList(values, dialect, parameters);
    return Ok(Enclosed(left + (Lexeme(Operator(Not(negated, "in"))) + Enclosed(list))));
  }

  method CompileInQuery(expression: Node, query: Select, negated: bool, dialect: Dialect, parameters: Parameters)
    returns (sql: Result<Sql>)
    modifies parameters
    ensures Compiled(sql, Infix(NodeDoc(expression, dialect), Operator(Not(negated, "in")), Parenthesized(SelectDoc(query, dialect))),
                     dialect.style, old(parameters.values), parameters.values)
    decreases InQuery(expression, query, negated), 0
  {
    hide FirstFault, After, Printed, NodeDoc, ListDoc, SelectDoc;
    Parts(dialect.style);
    var left :- CompileNode(expression, dialect, parameters);
    var nested :- CompileSelect(query, dialect, parameters);
    return Ok(Enclosed(left + (Lexeme(Operator(Not(negated, "in"))) + Enclosed(nested))));
  }

  method CompileBetween(expression: Node, lower: Node, upper: Node, negated: bool, dialect: Dialect,
                        parameters: Parameters)
    returns (sql: Result<Sql>)
    modifies parameters
    ensures Compiled(sql, Infix(NodeDoc(expression, dialect), Operator(Not(negated, "between")),
                                Seq(NodeDoc(lower, dialect), Seq(W("and"), NodeDoc(upper, dialect)))),
                     dialect.style, old(parameters.values), parameters.values)
    decreases Between(expression, lower, upper, negated), 0
  {
    hide FirstFault, After, Printed, NodeDoc, ListDoc, SelectDoc;
    Parts(dialect.style);
    var left :- CompileNode(expression, dialect, parameters);
    var low :- CompileNode(lower, dialect, parameters);
    var high :- CompileNode(upper, dialect, parameters);
    return Ok(Enclosed(left + (Lexeme(Operator(Not(negated, "between"))) + (low + (Key("and") + high)))));
  }

  method CompileSubquery(query: Select, dialect: Dialect, parameters: Parameters)
    returns (sql: Result<Sql>)
    modifies parameters
    ensures Compiled(sql, Parenthesized(SelectDoc(query, dialect)),
                     dialect.style, old(parameters.values), parameters.values)
    decreases query, 3
  {
    hide FirstFault, After, Printed, NodeDoc, ListDoc, SelectDoc;
    Parts(dialect.style);
    var nested :- CompileSelect(query, dialect, parameters);
    return Ok(Enclosed(nested));
  }

  method CompileExists(query: Select, negated: bool, dialect: Dialect, parameters: Parameters)
    returns (sql: Result<Sql>)
    modifies parameters
    ensures Compiled(sql, Seq(W(Not(negated, "exists")), Parenthesized(SelectDoc(query, dialect))),
                     dialect.style, old(parameters.values), parameters.values)
    decreases query, 3
  {
    hide FirstFault, After, Printed, NodeDoc, ListDoc, SelectDoc;
    Parts(dialect.style);
    var nested :- CompileSelect(query, dialect, parameters);
    return Ok(Key(Not(negated, "exists")) + Enclosed(nested));
  }

  method CompilePostgresInfix(left: Node, operator: string, right: Node, dialect: Dialect, parameters: Parameters)
    returns (sql: Result<Sql>)
    modifies parameters
    ensures Compiled(sql, Seq(Guard(dialect.supportsPostgresExpressions, ValueFault),
                              Infix(NodeDoc(left, dialect), Operator(operator), NodeDoc(right, dialect))),
                     dialect.style, old(parameters.values), parameters.values)
    decreases PostgresInfix(left, operator, right), 1
  {
    hide FirstFault, After, Printed, NodeDoc, ListDoc, SelectDoc;
    Parts(dialect.style);
    hide Infix;
    if !dialect.supportsPostgresExpressions {
      return Err(ValueFault);
    }
    sql := CompileInfix(left, Operator(operator), right, dialect, parameters, PostgresInfix(left, operator, right));
  }

  method CompileUuidCast(operand: Node, dialect: Dialect, parameters: Parameters)
    returns (sql: Result<Sql>)
    modifies parameters
    ensures Compiled(sql, Seq(Guard(dialect.supportsPostgresExpressions, ValueFault),
                              Call("cast", Seq(NodeDoc(operand, dialect), Seq(W("as"), W("uuid"))))),
                     dialect.style, old(parameters.values), parameters.values)
    decreases UuidCast(operand), 0
  {
    hide FirstFault, After, Printed, NodeDoc, ListDoc, SelectDoc;
    Parts(dialect.style);
    if !dialect.supportsPostgresExpressions {
      return Err(ValueFault);
    }
    var text :- CompileNode(operand, dialect, parameters);
    return Ok(Key("cast") + Enclosed(text + (Key("as") + Key("uuid"))));
  }

  /** Tokens only. */
  method CompileLeaf(node: Node, dialect: Dialect, ghost values: seq<Value>) returns (sql: Result<Sql>)
    requires node.Column? || node.Clock? || node.Star? || node.Excluded?
    ensures Compiled(sql, NodeDoc(node, dialect), dialect.style, values, values)
  {
    hide FirstFault, After, Printed, ListDoc, SelectDoc;
    Parts(dialect.style);
    match node {
      case Column(source, name) =>
        return Ok(Lexeme(Identifier(source)) + (Key(".") + Lexeme(Identifier(name))));
      case Clock(kind) =>
        if kind == "current_date" || kind == "current_time" {
          return Ok(Key(kind));
        } else if kind == "local_time" {
          return Ok(Key("localtime"));
        } else if kind == "local_timestamp" {
          return Ok(Key("localtimestamp"));
        }
        return Ok(Key(kind) + Enclosed([]));
      case Star =>
        return Ok(Key("*"));
      case Excluded(_, name) =>
        return Ok(Key("excluded") + (Key(".") + Lexeme(Identifier(name))));
    }
  }

  method CompileOperator(node: Node, dialect: Dialect, parameters: Parameters) returns (sql: Result<Sql>)
    requires node.Binary? || node.TemporalInfix? || node.PostgresInfix? || node.Unary? || node.UuidCast? || node.Alias?
    modifies parameters
    ensures Compiled(sql, NodeDoc(node, dialect), dialect.style, old(parameters.values), parameters.values)
    decreases node, 2
  {
    hide Compiled, Infix, Call, Parenthesized, Guard, FirstFault, After, Printed;
    match node {
      case Binary(left, operator, right) =>
        sql := CompileInfix(left, Operator(operator), right, dialect, parameters, node);
      case TemporalInfix(left, operator, right) =>
        sql := CompileInfix(left, Operator(operator), right, dialect, parameters, node);
      case PostgresInfix(left, operator, right) =>
        sql := CompilePostgresInfix(left, operator, right, dialect, parameters);
      case Unary(operator, operand) =>
        sql := CompileUnary(operator, operand, dialect, parameters);
      case UuidCast(operand) =>
        sql := CompileUuidCast(operand, dialect, parameters);
      case Alias(expression, alias) =>
        sql := CompileAlias(expression, alias, dialect, parameters);
    }
  }

  method CompilePredicate(node: Node, dialect: Dialect, parameters: Parameters) returns (sql: Result<Sql>)
    requires node.In? || node.InQuery? || node.Between? || node.ScalarSubquery? || node.Exists?
    modifies parameters
    ensures Compiled(sql, NodeDoc(node, dialect), dialect.style, old(parameters.values), parameters.values)
    decreases node, 2
  {
    hide Compiled, Infix, Parenthesized, ListDoc, SelectDoc, FirstFault, After, Printed;
    match node {
      case In(expression, values, negated) =>
        sql := CompileIn(expression, values, negated, dialect, parameters);
      case InQuery(expression, query, negated) =>
        sql := CompileInQuery(expression, query, negated, dialect, parameters);
      case Between(expression, lower, upper, negated) =>
        sql := CompileBetween(expression, lower, upper, negated, dialect, parameters);
      case ScalarSubquery(query) =>
        sql := CompileSubquery(query, dialect, parameters);
      case Exists(query, negated) =>
        sql := CompileExists(query, negated, dialect, parameters);
    }
  }

  /** One parameter per bound value; everything else only passes the list on. */
  method CompileNode(node: Node, dialect: Dialect, parameters: Parameters) returns (sql: Result<Sql>)
    modifies parameters
    ensures Compiled(sql, NodeDoc(node, dialect), dialect.style, old(parameters.values), parameters.values)
    decreases node, 3
  {
    hide Compiled, ListDoc, ComponentsDoc, BranchesDoc, PartitionDoc, OrderByDoc, FrameDoc, SelectDoc, IntervalDoc;
    hide Infix, Call, Parenthesized, Guard, FirstFault, After, Printed;
    match node {
      case Bound(value) =>
        sql := CompileBound(value, dialect, parameters);
      case Column(_, _) | Clock(_) | Star | Excluded(_, _) =>
        sql := CompileLeaf(node, dialect, parameters.values);
      case Binary(_, _, _) | TemporalInfix(_, _, _) | PostgresInfix(_, _, _) | Unary(_, _) | UuidCast(_) | Alias(_, _) =>
        sql := CompileOperator(node, dialect, parameters);
      case In(_, _, _) | InQuery(_, _, _) | Between(_, _, _, _) | ScalarSubquery(_) | Exists(_, _) =>
        sql := CompilePredicate(node, dialect, parameters);
      case Arithmetic(_, _, _) | NegatedInterval(_) | Extract(_, _) | Trunc(_, _, _) | Bin(_, _, _) | Overlaps(_, _, _, _) =>
        sql := CompileTemporal(node, dialect, parameters);
      case TemporalCall(callee, arguments) =>
        sql := CompileCall(callee, arguments, dialect, parameters);
      case MakeInterval(components) =>
        sql := CompileMakeInterval(components, dialect, parameters);
      case Function(name, arguments) =>
        sql := CompileCall(name, arguments, dialect, parameters);
      case Case(branches, otherwise) =>
        sql := CompileCase(branches, otherwise, dialect, parameters);
      case Aggregate(name, arguments, filter) =>
        sql := CompileAggregate(name, arguments, filter, dialect, parameters);
      case Window(expression, partitionBy, orderBy, frame, exclusion) =>
        sql := CompileWindow(expression, partitionBy, orderBy, frame, exclusion, dialect, parameters);
      case NullableResult(expression) =>
        sql := CompileNode(expression, dialect, parameters);
    }
  }

  method CompileBound(value: Value, dialect: Dialect, parameters: Parameters) returns (sql: Result<Sql>)
    modifies parameters
    ensures Compiled(sql, Bind(value), dialect.style, old(parameters.values), parameters.values)
  {
    parameters.values := parameters.values + [value];
    return Ok([if dialect.style.Dollar? then Numbered(|parameters.values|) else Question]);
  }

  method CompileUnary(operator: string, operand: Node, dialect: Dialect, parameters: Parameters)
    returns (sql: Result<Sql>)
    modifies parameters
    ensures Compiled(sql, Parenthesized(Seq(NodeDoc(operand, dialect), Raw(Operator(operator)))),
                     dialect.style, old(parameters.values), parameters.values)
    decreases Unary(operator, operand), 0
  {
    hide FirstFault, After, Printed, NodeDoc, ListDoc, SelectDoc;
    Parts(dialect.style);
    var text :- CompileNode(operand, dialect, parameters);
    return Ok(Enclosed(text + Lexeme(Operator(operator))));
  }

  method CompileAlias(expression: Node, alias: string, dialect: Dialect, parameters: Parameters)
    returns (sql: Result<Sql>)
    modifies parameters
    ensures Compiled(sql, Seq(NodeDoc(expression, dialect), Seq(W("as"), I(alias))),
                     dialect.style, old(parameters.values), parameters.values)
    decreases Alias(expression, alias), 0
  {
    hide FirstFault, After, Printed, NodeDoc, ListDoc, SelectDoc;
    Parts(dialect.style);
    var text :- CompileNode(expression, dialect, parameters);
    return Ok(text + (Key("as") + Lexeme(Identifier(alias))));
  }

  method CompileMakeInterval(components: seq<Cell>, dialect: Dialect, parameters: Parameters)
    returns (sql: Result<Sql>)
    modifies parameters
    ensures Compiled(sql, Call("make_interval", ComponentsDoc(components, dialect)),
                     dialect.style, old(parameters.values), parameters.values)
    decreases components, 1
  {
    hide FirstFault, After, Printed, NodeDoc, ListDoc, SelectDoc;
    Parts(dialect.style);
    var list :- CompileComponents(components, dialect, parameters);
    return Ok(Key("make_interval") + Enclosed(list));
  }

  method CompileList(nodes: seq<Node>, dialect: Dialect, parameters: Parameters) returns (sql: Result<Sql>)
    modifies parameters
    ensures Compiled(sql, ListDoc(nodes, dialect), dialect.style, old(parameters.values), parameters.values)
    decreases nodes, 0
  {
    hide FirstFault, After, Printed, NodeDoc, SelectDoc;
    Parts(dialect.style);
    if nodes == [] {
      return Ok([]);
    }
    var first :- CompileNode(nodes[0], dialect, parameters);
    if |nodes| == 1 {
      return Ok(first);
    }
    var rest :- CompileList(nodes[1..], dialect, parameters);
    return Ok(first + (Lexeme(Comma) + rest));
  }

  method CompileComponents(components: seq<Cell>, dialect: Dialect, parameters: Parameters) returns (sql: Result<Sql>)
    modifies parameters
    ensures Compiled(sql, ComponentsDoc(components, dialect), dialect.style, old(parameters.values), parameters.values)
    decreases components, 0
  {
    hide FirstFault, After, Printed, NodeDoc, ListDoc, SelectDoc;
    Parts(dialect.style);
    if components == [] {
      return Ok([]);
    }
    var value :- CompileCell(components[0], dialect, parameters);
    var first := Key(components[0].name) + (Key("=>") + value);
    if |components| == 1 {
      return Ok(first);
    }
    var rest :- CompileComponents(components[1..], dialect, parameters);
    return Ok(first + (Lexeme(Comma) + rest));
  }

  method CompileCell(cell: Cell, dialect: Dialect, parameters: Parameters) returns (sql: Result<Sql>)
    modifies parameters
    ensures Compiled(sql, NodeDoc(cell.value, dialect), dialect.style, old(parameters.values), parameters.values)
    decreases cell
  {
    sql := CompileNode(cell.value, dialect, parameters);
  }

  method CompileBranch(branch: Branch, dialect: Dialect, parameters: Parameters) returns (sql: Result<Sql>)
    modifies parameters
    ensures Compiled(sql, BranchDoc(branch, dialect), dialect.style, old(parameters.values), parameters.values)
    decreases branch
  {
    hide FirstFault, After, Printed, NodeDoc, ListDoc, SelectDoc;
    Parts(dialect.style);
    var condition :- CompileNode(branch.condition, dialect, parameters);
    var value :- CompileNode(branch.value, dialect, parameters);
    return Ok(Key("when") + (condition + (Key("then") + value)));
  }

  method CompileBranches(branches: seq<Branch>, dialect: Dialect, parameters: Parameters) returns (sql: Result<Sql>)
    modifies parameters
    ensures Compiled(sql, BranchesDoc(branches, dialect), dialect.style, old(parameters.values), parameters.values)
    decreases branches
  {
    hide FirstFault, After, Printed, NodeDoc, ListDoc, SelectDoc;
    Parts(dialect.style);
    if branches == [] {
      return Ok([]);
    }
    var first :- CompileBranch(branches[0], dialect, parameters);
    var rest :- CompileBranches(branches[1..], dialect, parameters);
    return Ok(first + rest);
  }

  /** The NULL placement is checked after its expression is compiled. */
  method CompileOrder(order: Order, dialect: Dialect, parameters: Parameters) returns (sql: Result<Sql>)
    modifies parameters
    ensures Compiled(sql, OrderDoc(order, dialect), dialect.style, old(parameters.values), parameters.values)
    decreases order
  {
    hide FirstFault, After, Printed, NodeDoc, ListDoc, SelectDoc;
    Parts(dialect.style);
    var text :- CompileNode(order.expression, dialect, parameters);
    if order.nulls.None? {
      return Ok(text + (Key(order.direction) + []));
    }
    if order.nulls.value !in NULL_PLACEMENTS {
      return Err(ValueFault);
    }
    return Ok(text + (Key(order.direction) + (Key("nulls") + Key(order.nulls.value))));
  }

  method CompileOrders(orders: seq<Order>, dialect: Dialect, parameters: Parameters) returns (sql: Result<Sql>)
    modifies parameters
    ensures Compiled(sql, OrdersDoc(orders, dialect), dialect.style, old(parameters.values), parameters.values)
    decreases orders, 0
  {
    hide FirstFault, After, Printed, NodeDoc, ListDoc, SelectDoc;
    Parts(dialect.style);
    if orders == [] {
      return Ok([]);
    }
    var first :- CompileOrder(orders[0], dialect, parameters);
    if |orders| == 1 {
      return Ok(first);
    }
    var rest :- CompileOrders(orders[1..], dialect, parameters);
    return Ok(first + (Lexeme(Comma) + rest));
  }

  method CompileOrderBy(orders: seq<Order>, dialect: Dialect, parameters: Parameters) returns (sql: Result<Sql>)
    modifies parameters
    ensures Compiled(sql, OrderByDoc(orders, dialect), dialect.style, old(parameters.values), parameters.values)
    decreases orders, 1
  {
    hide FirstFault, After, Printed, NodeDoc, ListDoc, SelectDoc;
    Parts(dialect.style);
    if orders == [] {
      return Ok([]);
    }
    var list :- CompileOrders(orders, dialect, parameters);
    return Ok(Key("order by") + list);
  }

  method CompilePartition(nodes: seq<Node>, dialect: Dialect, parameters: Parameters) returns (sql: Result<Sql>)
    modifies parameters
    ensures Compiled(sql, PartitionDoc(nodes, dialect), dialect.style, old(parameters.values), parameters.values)
    decreases nodes, 1
  {
    hide FirstFault, After, Printed, NodeDoc, ListDoc, SelectDoc;
    Parts(dialect.style);
    if nodes == [] {
      return Ok([]);
    }
    var list :- CompileList(nodes, dialect, parameters);
    return Ok(Key("partition by") + list);
  }

  method CompileTable(table: Table, dialect: Dialect, ghost values: seq<Value>) returns (sql: Result<Sql>)
    ensures Compiled(sql, TableDoc(table, dialect), dialect.style, values, values)
  {
    hide FirstFault, After, Printed;
    Parts(dialect.style);
    var alias: Sql := if table.alias.None? then [] else Key("as") + Lexeme(Identifier(table.alias.value));
    if table.schema.None? {
      return Ok(Lexeme(Identifier(table.name)) + alias);
    }
    if !dialect.supportsSchemaQualifiedTables {
      return Err(ValueFault);
    }
    return Ok((Lexeme(Identifier(table.schema.value)) + (Key(".") + Lexeme(Identifier(table.name)))) + alias);
  }

  method CompileSource(source: Source, dialect: Dialect, parameters: Parameters) returns (sql: Result<Sql>)
    modifies parameters
    ensures Compiled(sql, SourceDoc(source, dialect), dialect.style, old(parameters.values), parameters.values)
    decreases source, 0
  {
    hide FirstFault, After, Printed, NodeDoc, ListDoc, SelectDoc, TableDoc;
    Parts(dialect.style);
    match source {
      case Stored(table) =>
        sql := CompileTable(table, dialect, parameters.values);
      case CteSource(name) =>
        return Ok(Lexeme(Identifier(name)));
      case Derived(query, correlation) =>
        var nested :- CompileSelect(query, dialect, parameters);
        return Ok(Enclosed(nested) + (Key("as") + Lexeme(Identifier(correlation))));
    }
  }

  /** A cross join's predicate is never compiled. */
  method CompileJoin(join: Join, dialect: Dialect, parameters: Parameters) returns (sql: Result<Sql>)
    modifies parameters
    ensures Compiled(sql, JoinDoc(join, dialect), dialect.style, old(parameters.values), parameters.values)
    decreases join, 0
  {
    hide FirstFault, After, Printed, NodeDoc, ListDoc, SelectDoc, SourceDoc;
    Parts(dialect.style);
    var source :- CompileSource(join.source, dialect, parameters);
    var on: Sql := [];
    if join.kind != "cross" {
      var condition :- CompileNode(join.on, dialect, parameters);
      on := Key("on") + condition;
    }
    return Ok(Key(join.kind) + (Key("join") + (source + on)));
  }

  /** Midway through a document: `text` is printed, `rest` is still to be compiled. */
  ghost predicate Remaining(whole: Doc, rest: Doc, style: Style, before: seq<Value>, values: seq<Value>, text: Sql) {
    && FirstFault(whole) == FirstFault(rest)
    && After(whole, before) == After(rest, values)
    && Printed(whole, style, before) == text + Printed(rest, style, values)
  }

  lemma Continue(text: Sql, next: Sql, rest: Sql)
    ensures text + (next + rest) == (text + next) + rest
  {
  }

  method CompileJoins(joins: seq<Join>, dialect: Dialect, parameters: Parameters) returns (sql: Result<Sql>)
    modifies parameters
    ensures Compiled(sql, JoinsDoc(joins, dialect), dialect.style, old(parameters.values), parameters.values)
    decreases joins
  {
    hide FirstFault, After, Printed, NodeDoc, ListDoc, SelectDoc, JoinDoc;
    Parts(dialect.style);
    var i := 0;
    var text: Sql := [];
    ghost var before, all := parameters.values, JoinsDoc(joins, dialect);
    assert joins[0..] == joins;
    while i < |joins|
      invariant i <= |joins|
      invariant Remaining(all, JoinsDoc(joins[i..], dialect), dialect.style, before, parameters.values, text)
    {
      assert joins[i..][1..] == joins[i + 1..];
      var next :- CompileJoin(joins[i], dialect, parameters);
      Continue(text, next, Printed(JoinsDoc(joins[i + 1..], dialect), dialect.style, parameters.values));
      text, i := text + next, i + 1;
    }
    assert text + [] == text;
    return Ok(text);
  }

  method CompileCompound(compound: Compound, dialect: Dialect, parameters: Parameters) returns (sql: Result<Sql>)
    modifies parameters
    ensures Compiled(sql, CompoundDoc(compound, dialect), dialect.style, old(parameters.values), parameters.values)
    decreases compound
  {
    hide FirstFault, After, Printed, NodeDoc, ListDoc, SelectDoc;
    Parts(dialect.style);
    var query :- CompileSelect(compound.query, dialect, parameters);
    return Ok(Key(compound.operator) + query);
  }

  method CompileCompounds(compounds: seq<Compound>, dialect: Dialect, parameters: Parameters) returns (sql: Result<Sql>)
    modifies parameters
    ensures Compiled(sql, CompoundsDoc(compounds, dialect), dialect.style, old(parameters.values), parameters.values)
    decreases compounds
  {
    hide FirstFault, After, Printed, NodeDoc, ListDoc, SelectDoc, CompoundDoc;
    Parts(dialect.style);
    var i := 0;
    var text: Sql := [];
    ghost var before, all := parameters.values, CompoundsDoc(compounds, dialect);
    assert compounds[0..] == compounds;
    while i < |compounds|
      invariant i <= |compounds|
      invariant Remaining(all, CompoundsDoc(compounds[i..], dialect), dialect.style, before, parameters.values, text)
    {
      assert compounds[i..][1..] == compounds[i + 1..];
      var next :- CompileCompound(compounds[i], dialect, parameters);
      Continue(text, next, Printed(CompoundsDoc(compounds[i + 1..], dialect), dialect.style, parameters.values));
      text, i := text + next, i + 1;
    }
    assert text + [] == text;
    return Ok(text);
  }

  method CompileCteBody(query: Query, dialect: Dialect, parameters: Parameters) returns (sql: Result<Sql>)
    modifies parameters
    ensures Compiled(sql, Seq(Guard(query.SelectQuery? || dialect.supportsDataModifyingCtes, ValueFault), QueryDoc(query, dialect)),
                     dialect.style, old(parameters.values), parameters.values)
    decreases query, 1
  {
    hide FirstFault, After, Printed, NodeDoc, ListDoc, SelectDoc, QueryDoc;
    Parts(dialect.style);
    if !query.SelectQuery? && !dialect.supportsDataModifyingCtes {
      return Err(ValueFault);
    }
    sql := CompileStatement(query, dialect, parameters);
  }

  method CompileCte(cte: Cte, dialect: Dialect, parameters: Parameters) returns (sql: Result<Sql>)
    modifies parameters
    ensures Compiled(sql, CteDoc(cte, dialect), dialect.style, old(parameters.values), parameters.values)
    decreases cte
  {
    hide FirstFault, After, Printed, NodeDoc, ListDoc, SelectDoc, QueryDoc;
    Parts(dialect.style);
    var body :- CompileCteBody(cte.query, dialect, parameters);
    var modifier: Sql := if cte.materialized then Key("materialized") else [];
    return Ok(Lexeme(Identifier(cte.name)) + (Key("as") + (modifier + Enclosed(body))));
  }

  method CompileCtes(ctes: seq<Cte>, dialect: Dialect, parameters: Parameters) returns (sql: Result<Sql>)
    modifies parameters
    ensures Compiled(sql, CtesDoc(ctes, dialect), dialect.style, old(parameters.values), parameters.values)
    decreases ctes, 0
  {
    hide FirstFault, After, Printed, NodeDoc, ListDoc, SelectDoc, CteDoc;
    Parts(dialect.style);
    if ctes == [] {
      return Ok([]);
    }
    var first :- CompileCte(ctes[0], dialect, parameters);
    if |ctes| == 1 {
      return Ok(first);
    }
    var rest :- CompileCtes(ctes[1..], dialect, parameters);
    return Ok(first + (Lexeme(Comma) + rest));
  }

  method CompileWith(ctes: seq<Cte>, dialect: Dialect, parameters: Parameters) returns (sql: Result<Sql>)
    modifies parameters
    ensures Compiled(sql, WithDoc(ctes, dialect), dialect.style, old(parameters.values), parameters.values)
    decreases ctes, 1
  {
    hide FirstFault, After, Printed, NodeDoc, ListDoc, SelectDoc, CtesDoc;
    Parts(dialect.style);
    if ctes == [] {
      return Ok([]);
    }
    var list :- CompileCtes(ctes, dialect, parameters);
    return Ok(Key(if exists c :: c in ctes && c.recursive then "with recursive" else "with") + list);
  }

  method CompileClause(keyword: string, node: Option<Node>, dialect: Dialect,
                       parameters: Parameters) returns (sql: Result<Sql>)
    modifies parameters
    ensures Compiled(sql, ClauseDoc(keyword, node, dialect), dialect.style, old(parameters.values), parameters.values)
    decreases node
  {
    hide FirstFault, After, Printed, NodeDoc, ListDoc, SelectDoc;
    Parts(dialect.style);
    if node.None? {
      return Ok([]);
    }
    var text :- CompileNode(node.value, dialect, parameters);
    return Ok(Key(keyword) + text);
  }

  method CompileBase(base: Option<Source>, dialect: Dialect, parameters: Parameters) returns (sql: Result<Sql>)
    modifies parameters
    ensures Compiled(sql, BaseDoc(base, dialect), dialect.style, old(parameters.values), parameters.values)
    decreases base
  {
    hide FirstFault, After, Printed, NodeDoc, ListDoc, SelectDoc, SourceDoc;
    Parts(dialect.style);
    if base.None? {
      return Ok([]);
    }
    var text :- CompileSource(base.value, dialect, parameters);
    return Ok(Key("from") + text);
  }

  method CompileGroupBy(nodes: seq<Node>, dialect: Dialect, parameters: Parameters) returns (sql: Result<Sql>)
    modifies parameters
    ensures Compiled(sql, GroupByDoc(nodes, dialect), dialect.style, old(parameters.values), parameters.values)
    decreases nodes, 1
  {
    hide FirstFault, After, Printed, NodeDoc, ListDoc, SelectDoc;
    Parts(dialect.style);
    if nodes == [] {
      return Ok([]);
    }
    var list :- CompileList(nodes, dialect, parameters);
    return Ok(Key("group by") + list);
  }

  method CompileProjection(select: Select, dialect: Dialect, parameters: Parameters) returns (sql: Result<Sql>)
    modifies parameters
    ensures Compiled(sql, ProjectionDoc(select, dialect), dialect.style, old(parameters.values), parameters.values)
    decreases select, 0
  {
    hide FirstFault, After, Printed, NodeDoc, ListDoc, SelectDoc, BaseDoc, JoinsDoc;
    Parts(dialect.style);
    var distinct: Sql := if select.distinct then Key("distinct") else [];
    var list :- CompileList(select.selections, dialect, parameters);
    var base :- CompileBase(select.base, dialect, parameters);
    var joins :- CompileJoins(select.joins, dialect, parameters);
    return Ok(Key("select") + (distinct + (list + (base + joins))));
  }

  method CompileFilter(select: Select, dialect: Dialect, parameters: Parameters) returns (sql: Result<Sql>)
    modifies parameters
    ensures Compiled(sql, FilterDoc(select, dialect), dialect.style, old(parameters.values), parameters.values)
    decreases select, 0
  {
    hide FirstFault, After, Printed, NodeDoc, ListDoc, SelectDoc, ClauseDoc, GroupByDoc;
    Parts(dialect.style);
    var condition :- CompileClause("where", select.condition, dialect, parameters);
    var groups :- CompileGroupBy(select.groupBy, dialect, parameters);
    var having :- CompileClause("having", select.having, dialect, parameters);
    return Ok(condition + (groups + having));
  }

  /** SQLite takes an offset only behind a limit. */
  method CompileLimit(select: Select, dialect: Dialect, ghost values: seq<Value>) returns (sql: Sql)
    ensures Compiled(Ok(sql), LimitDoc(select, dialect), dialect.style, values, values)
  {
    hide FirstFault, After, Printed;
    Parts(dialect.style);
    var limit: Sql := [];
    if select.limit.Some? {
      limit := Key("limit") + Lexeme(Number(select.limit.value));
    } else if select.offset.Some? && dialect.offsetRequiresLimit {
      limit := Key("limit") + Lexeme(Number(-1));
    }
    if select.offset.None? {
      return limit + [];
    }
    return limit + (Key("offset") + Lexeme(Number(select.offset.value)));
  }

  method CompileNames(names: seq<string>, style: Style, ghost values: seq<Value>) returns (sql: Sql)
    ensures Compiled(Ok(sql), NamesDoc(names), style, values, values)
    decreases |names|
  {
    hide FirstFault, After, Printed;
    Parts(style);
    if names == [] {
      return [];
    }
    if |names| == 1 {
      return Lexeme(Identifier(names[0]));
    }
    var rest := CompileNames(names[1..], style, values);
    return Lexeme(Identifier(names[0])) + (Lexeme(Comma) + rest);
  }

  method CompileLock(lock: Lock, style: Style, ghost values: seq<Value>) returns (sql: Sql)
    ensures Compiled(Ok(sql), LockDoc(lock), style, values, values)
  {
    hide FirstFault, After, Printed, NamesDoc;
    Parts(style);
    var targets: Sql := [];
    if lock.tables != [] {
      var names := CompileNames(References(lock.tables), style, values);
      targets := Key("of") + names;
    }
    var waiting: Sql := if lock.waiting.None? then [] else Key(lock.waiting.value);
    return Key("for") + (Key(lock.strength) + (targets + waiting));
  }

  method CompileLocks(locks: seq<Lock>, style: Style, ghost values: seq<Value>) returns (sql: Sql)
    ensures Compiled(Ok(sql), LocksDoc(locks), style, values, values)
  {
    hide FirstFault, After, Printed, LockDoc;
    Parts(style);
    var i := 0;
    var text: Sql := [];
    assert locks[0..] == locks;
    while i < |locks|
      invariant i <= |locks|
      invariant Remaining(LocksDoc(locks), LocksDoc(locks[i..]), style, values, values, text)
    {
      assert locks[i..][1..] == locks[i + 1..];
      var next := CompileLock(locks[i], style, values);
      Continue(text, next, Printed(LocksDoc(locks[i + 1..]), style, values));
      text, i := text + next, i + 1;
    }
    assert text + [] == text;
    return text;
  }

  method CompileTail(select: Select, dialect: Dialect, parameters: Parameters) returns (sql: Result<Sql>)
    modifies parameters
    ensures Compiled(sql, TailDoc(select, dialect), dialect.style, old(parameters.values), parameters.values)
    decreases select, 0
  {
    hide FirstFault, After, Printed, NodeDoc, ListDoc, SelectDoc, OrderByDoc, LimitDoc, LocksDoc, CompoundsDoc;
    Parts(dialect.style);
    var order :- CompileOrderBy(select.orderBy, dialect, parameters);
    var limit := CompileLimit(select, dialect, parameters.values);
    var locks := CompileLocks(select.locks, dialect.style, parameters.values);
    var compounds :- CompileCompounds(select.compounds, dialect, parameters);
    return Ok(order + (limit + (locks + compounds)));
  }

  /** The `with` prefix is compiled first, so text and parameters agree. */
  method CompileSelect(select: Select, dialect: Dialect, parameters: Parameters) returns (sql: Result<Sql>)
    modifies parameters
    ensures Compiled(sql, SelectDoc(select, dialect), dialect.style, old(parameters.values), parameters.values)
    decreases select, 2
  {
    hide FirstFault, After, Printed, NodeDoc, ListDoc, WithDoc, ProjectionDoc, FilterDoc, TailDoc;
    Parts(dialect.style);
    if select.base.None? {
      return Err(AssertionFault);
    }
    var prefix :- CompileWith(select.ctes, dialect, parameters);
    var projection :- CompileProjection(select, dialect, parameters);
    var filter :- CompileFilter(select, dialect, parameters);
    var tail :- CompileTail(select, dialect, parameters);
    return Ok(prefix + (projection + (filter + tail)));
  }

  method CompileCells(cells: seq<Cell>, dialect: Dialect, parameters: Parameters) returns (sql: Result<Sql>)
    modifies parameters
    ensures Compiled(sql, CellsDoc(cells, dialect), dialect.style, old(parameters.values), parameters.values)
    decreases cells, 0
  {
    hide FirstFault, After, Printed, NodeDoc, ListDoc, SelectDoc;
    Parts(dialect.style);
    if cells == [] {
      return Ok([]);
    }
    var first :- CompileCell(cells[0], dialect, parameters);
    if |cells| == 1 {
      return Ok(first);
    }
    var rest :- CompileCells(cells[1..], dialect, parameters);
    return Ok(first + (Lexeme(Comma) + rest));
  }

  method CompileRow(row: Row, dialect: Dialect, parameters: Parameters) returns (sql: Result<Sql>)
    modifies parameters
    ensures Compiled(sql, RowDoc(row, dialect), dialect.style, old(parameters.values), parameters.values)
    decreases row
  {
    hide FirstFault, After, Printed, NodeDoc, ListDoc, SelectDoc, CellsDoc;
    Parts(dialect.style);
    var cells :- CompileCells(row.cells, dialect, parameters);
    return Ok(Enclosed(cells));
  }

  method CompileRows(rows: seq<Row>, dialect: Dialect, parameters: Parameters) returns (sql: Result<Sql>)
    modifies parameters
    ensures Compiled(sql, RowsDoc(rows, dialect), dialect.style, old(parameters.values), parameters.values)
    decreases rows
  {
    hide FirstFault, After, Printed, NodeDoc, ListDoc, SelectDoc, RowDoc;
    Parts(dialect.style);
    if rows == [] {
      return Ok([]);
    }
    var first :- CompileRow(rows[0], dialect, parameters);
    if |rows| == 1 {
      return Ok(first);
    }
    var rest :- CompileRows(rows[1..], dialect, parameters);
    return Ok(first + (Lexeme(Comma) + rest));
  }

  method CompileAssignments(cells: seq<Cell>, dialect: Dialect, parameters: Parameters) returns (sql: Result<Sql>)
    modifies parameters
    ensures Compiled(sql, AssignmentsDoc(cells, dialect), dialect.style, old(parameters.values), parameters.values)
    decreases cells
  {
    hide FirstFault, After, Printed, NodeDoc, ListDoc, SelectDoc;
    Parts(dialect.style);
    if cells == [] {
      return Ok([]);
    }
    var value :- CompileCell(cells[0], dialect, parameters);
    var first := Lexeme(Identifier(cells[0].name)) + (Key("=") + value);
    if |cells| == 1 {
      return Ok(first);
    }
    var rest :- CompileAssignments(cells[1..], dialect, parameters);
    return Ok(first + (Lexeme(Comma) + rest));
  }

  method CompileReturning(nodes: seq<Node>, dialect: Dialect, parameters: Parameters) returns (sql: Result<Sql>)
    modifies parameters
    ensures Compiled(sql, ReturningDoc(nodes, dialect), dialect.style, old(parameters.values), parameters.values)
    decreases nodes, 1
  {
    hide FirstFault, After, Printed, NodeDoc, ListDoc, SelectDoc;
    Parts(dialect.style);
    if nodes == [] {
      return Ok([]);
    }
    if !dialect.supportsReturning {
      return Err(ValueFault);
    }
    var list :- CompileList(nodes, dialect, parameters);
    return Ok(Key("returning") + list);
  }

  /** A constant, or the error for a value that has no constant form. */
  method CompileConstant(value: Value, style: Style, ghost values: seq<Value>) returns (sql: Result<Sql>)
    ensures Compiled(sql, ConstantDoc(value), style, values, values)
  {
    hide FirstFault, After, Printed;
    Parts(style);
    match value {
      case Null => return Ok(Key("null"));
      case Bool(flag) => return Ok(Key(if flag then "true" else "false"));
      case Int(number) => return Ok(Lexeme(Number(number)));
      case Str(text) =>
        if '\0' in text {
          return Err(ValueFault);
        }
        return Ok(Lexeme(EscapeString(text)));
      case _ => return Err(ValueFault);
    }
  }

  /** The arbiter predicate, node by node, and nothing outside its closed set. */
  method CompileIndexPredicate(node: Node, style: Style, ghost values: seq<Value>) returns (sql: Result<Sql>)
    ensures Compiled(sql, PredicateDoc(node), style, values, values)
    decreases node, 1
  {
    hide FirstFault, After, Printed, ConstantDoc, PredicatesDoc, Qualified;
    LeafFaults();
    match node {
      case Column(source, name) =>
        sql := CompileQualified(source, name, style, values);
      case Bound(value) =>
        sql := CompileConstant(value, style, values);
      case Binary(left, operator, right) =>
        sql := CompileIndexInfix(left, operator, right, style, values);
      case Unary(operator, operand) =>
        sql := CompileIndexPostfix(operator, operand, style, values);
      case In(expression, members, negated) =>
        sql := CompileIndexMembership(expression, members, negated, style, values);
      case Between(expression, lower, upper, negated) =>
        sql := CompileIndexRange(expression, lower, upper, negated, style, values);
      case _ =>
        return Err(ValueFault);
    }
  }

  method CompileQualified(source: string, name: string, style: Style, ghost values: seq<Value>) returns (sql: Result<Sql>)
    ensures Compiled(sql, Qualified(source, name), style, values, values)
  {
    hide FirstFault, After, Printed;
    Parts(style);
    return Ok(Lexeme(Identifier(source)) + (Key(".") + Lexeme(Identifier(name))));
  }

  lemma InfixParts(left: Doc, operator: Token, right: Doc, style: Style, v: seq<Value>)
    ensures FirstFault(Infix(left, operator, right)) == Either(FirstFault(left), FirstFault(right))
    ensures After(Infix(left, operator, right), v) == After(right, After(left, v))
    ensures Printed(Infix(left, operator, right), style, v) ==
            Enclosed(Printed(left, style, v) + (Lexeme(operator) + Printed(right, style, After(left, v))))
  {
    Parts(style);
    hide FirstFault, After, Printed, Enclosed;
  }

  method CompileIndexInfix(left: Node, operator: string, right: Node, style: Style, ghost values: seq<Value>)
    returns (sql: Result<Sql>)
    ensures Compiled(sql, if operator in PREDICATE_BINARY
                          then Infix(PredicateDoc(left), Operator(operator), PredicateDoc(right)) else Raise(ValueFault),
                     style, values, values)
    decreases Binary(left, operator, right), 0
  {
    if operator !in PREDICATE_BINARY {
      return Err(ValueFault);
    }
    hide FirstFault, After, Printed, PredicateDoc, Infix, Enclosed;
    InfixParts(PredicateDoc(left), Operator(operator), PredicateDoc(right), style, values);
    var a :- CompileIndexPredicate(left, style, values);
    var b :- CompileIndexPredicate(right, style, values);
    return Ok(Enclosed(a + (Lexeme(Operator(operator)) + b)));
  }

  method CompileIndexPostfix(operator: string, operand: Node, style: Style, ghost values: seq<Value>)
    returns (sql: Result<Sql>)
    ensures Compiled(sql, if operator in PREDICATE_UNARY then Parenthesized(Seq(PredicateDoc(operand), Raw(Operator(operator))))
                          else Raise(ValueFault), style, values, values)
    decreases Unary(operator, operand), 0
  {
    if operator !in PREDICATE_UNARY {
      return Err(ValueFault);
    }
    hide FirstFault, After, Printed, PredicateDoc;
    Parts(style);
    var a :- CompileIndexPredicate(operand, style, values);
    return Ok(Enclosed(a + Lexeme(Operator(operator))));
  }

  /** The values are compiled before the operand they follow. */
  method CompileIndexMembership(expression: Node, members: seq<Node>, negated: bool, style: Style, ghost values: seq<Value>)
    returns (sql: Result<Sql>)
    ensures Compiled(sql, Parenthesized(Swapped(Seq(PredicateDoc(expression), Raw(Operator(Not(negated, "in")))),
                                                Parenthesized(PredicatesDoc(members)))), style, values, values)
    decreases In(expression, members, negated), 0
  {
    hide FirstFault, After, Printed, PredicateDoc, PredicatesDoc;
    Parts(style);
    var items :- CompileIndexPredicates(members, style, values);
    var a :- CompileIndexPredicate(expression, style, values);
    return Ok(Enclosed((a + Lexeme(Operator(Not(negated, "in")))) + Enclosed(items)));
  }

  method CompileIndexRange(expression: Node, lower: Node, upper: Node, negated: bool, style: Style, ghost values: seq<Value>)
    returns (sql: Result<Sql>)
    ensures Compiled(sql, Infix(PredicateDoc(expression), Operator(Not(negated, "between")),
                                Seq(PredicateDoc(lower), Seq(W("and"), PredicateDoc(upper)))), style, values, values)
    decreases Between(expression, lower, upper, negated), 0
  {
    hide FirstFault, After, Printed, PredicateDoc;
    Parts(style);
    var a :- CompileIndexPredicate(expression, style, values);
    var low :- CompileIndexPredicate(lower, style, values);
    var high :- CompileIndexPredicate(upper, style, values);
    return Ok(Enclosed(a + (Lexeme(Operator(Not(negated, "between"))) + (low + (Key("and") + high)))));
  }

  method CompileIndexPredicates(nodes: seq<Node>, style: Style, ghost values: seq<Value>) returns (sql: Result<Sql>)
    ensures Compiled(sql, PredicatesDoc(nodes), style, values, values)
    decreases nodes
  {
    hide FirstFault, After, Printed, PredicateDoc;
    Parts(style);
    if nodes == [] {
      return Ok([]);
    }
    var first :- CompileIndexPredicate(nodes[0], style, values);
    if |nodes| == 1 {
      return Ok(first);
    }
    var rest :- CompileIndexPredicates(nodes[1..], style, values);
    return Ok(first + (Lexeme(Comma) + rest));
  }

  method CompileTarget(conflict: Conflict, style: Style, ghost values: seq<Value>) returns (sql: Result<Sql>)
    ensures Compiled(sql, TargetDoc(conflict), style, values, values)
  {
    hide FirstFault, After, Printed, NamesDoc, PredicateDoc;
    Parts(style);
    var target: Sql := [];
    if conflict.columns != [] {
      var names := CompileNames(conflict.columns, style, values);
      target := Enclosed(names);
    }
    var condition: Sql := [];
    if conflict.targetWhere.Some? {
      if conflict.columns == [] {
        return Err(AssertionFault);
      }
      var text :- CompileIndexPredicate(conflict.targetWhere.value, style, values);
      condition := Key("where") + text;
    }
    return Ok(target + condition);
  }

  method CompileAction(conflict: Conflict, dialect: Dialect, parameters: Parameters) returns (sql: Result<Sql>)
    modifies parameters
    ensures Compiled(sql, ActionDoc(conflict, dialect), dialect.style, old(parameters.values), parameters.values)
    decreases conflict, 0
  {
    hide FirstFault, After, Printed, NodeDoc, ListDoc, SelectDoc, AssignmentsDoc, ClauseDoc;
    Parts(dialect.style);
    if conflict.action == "nothing" {
      return if conflict.updateWhere.Some? then Err(AssertionFault) else Ok(Key("do nothing"));
    }
    if conflict.action != "update" || conflict.updateValues == [] {
      return Err(ValueFault);
    }
    var assignments :- CompileAssignments(conflict.updateValues, dialect, parameters);
    var condition :- CompileClause("where", conflict.updateWhere, dialect, parameters);
    return Ok(Key("do update set") + (assignments + condition));
  }

  /** The arbiter predicate is printed with constants, so it leaves the list alone. */
  method CompileConflict(conflict: Option<Conflict>, dialect: Dialect,
                         parameters: Parameters) returns (sql: Result<Sql>)
    modifies parameters
    ensures Compiled(sql, ConflictClauseDoc(conflict, dialect), dialect.style, old(parameters.values), parameters.values)
    decreases conflict
  {
    hide FirstFault, After, Printed, NodeDoc, ListDoc, SelectDoc, TargetDoc, ActionDoc;
    Parts(dialect.style);
    if conflict.None? {
      return Ok([]);
    }
    var target :- CompileTarget(conflict.value, dialect.style, parameters.values);
    var action :- CompileAction(conflict.value, dialect, parameters);
    return Ok(Key("on conflict") + (target + action));
  }

  method CompileBody(source: InsertSource, dialect: Dialect, parameters: Parameters) returns (sql: Result<Sql>)
    modifies parameters
    ensures Compiled(sql, InsertBody(source, dialect), dialect.style, old(parameters.values), parameters.values)
    decreases source, 0
  {
    hide FirstFault, After, Printed, NodeDoc, ListDoc, SelectDoc, CellsDoc, RowsDoc;
    Parts(dialect.style);
    match source {
      case Values(cells) =>
        var list :- CompileCells(cells, dialect, parameters);
        return Ok(Key("values") + Enclosed(list));
      case Rows(rows) =>
        if rows == [] {
          return Err(IndexFault);
        }
        var list :- CompileRows(rows, dialect, parameters);
        return Ok(Key("values") + list);
      case FromSelect(query, _) =>
        sql := CompileSelect(query, dialect, parameters);
      case DefaultValues =>
        return Ok(Key("default values"));
    }
  }

  /** The source is compiled before the table and the columns it follows. */
  method CompileInsert(table: Table, source: Option<InsertSource>, dialect: Dialect,
                       parameters: Parameters) returns (sql: Result<Sql>)
    modifies parameters
    ensures Compiled(sql, InsertDoc(table, source, dialect), dialect.style, old(parameters.values), parameters.values)
    decreases source
  {
    hide FirstFault, After, Printed, NodeDoc, ListDoc, SelectDoc, TableDoc, InsertBody, NamesDoc;
    Parts(dialect.style);
    if source.None? {
      return Err(AssertionFault);
    }
    if source.value.DefaultValues? {
      var target :- CompileTable(table, dialect, parameters.values);
      return Ok(Key("insert into") + (target + Key("default values")));
    }
    var body :- CompileBody(source.value, dialect, parameters);
    var target :- CompileTable(table, dialect, parameters.values);
    var columns := CompileNames(InsertColumns(source.value), dialect.style, parameters.values);
    return Ok((Key("insert into") + (target + Enclosed(columns))) + body);
  }

  method CompileStatement(query: Query, dialect: Dialect, parameters: Parameters) returns (sql: Result<Sql>)
    modifies parameters
    ensures Compiled(sql, QueryDoc(query, dialect), dialect.style, old(parameters.values), parameters.values)
    decreases query, 0
  {
    hide FirstFault, After, Printed, NodeDoc, ListDoc, SelectDoc, InsertDoc, ConflictClauseDoc, ReturningDoc;
    hide AssignmentsDoc, ClauseDoc, TableDoc;
    Parts(dialect.style);
    match query {
      case SelectQuery(select) =>
        sql := CompileSelect(select, dialect, parameters);
      case Insert(table, source, conflict, returning) =>
        var insert :- CompileInsert(table, source, dialect, parameters);
        var action: Sql := [];
        if source != Some(DefaultValues) {
          action :- CompileConflict(conflict, dialect, parameters);
        }
        var rows :- CompileReturning(returning, dialect, parameters);
        return Ok(insert + (action + rows));
      case Update(table, values, condition, _, returning) =>
        var assignments :- CompileAssignments(values, dialect, parameters);
        var target :- CompileTable(table, dialect, parameters.values);
        var filter :- CompileClause("where", condition, dialect, parameters);
        var rows :- CompileReturning(returning, dialect, parameters);
        return Ok(((Key("update") + (target + Key("set"))) + assignments) + (filter + rows));
      case Delete(table, condition, _, returning) =>
        var target :- CompileTable(table, dialect, parameters.values);
        var filter :- CompileClause("where", condition, dialect, parameters);
        var rows :- CompileReturning(returning, dialect, parameters);
        return Ok(Key("delete from") + (target + (filter + rows)));
    }
  }

  datatype CompiledQuery = CompiledQuery(sql: Sql, parameters: seq<Value>)

  /**
   One statement.  What it sends to a `$n` database reads back as the statement with every
   value in the place that bound it, and so does what it sends to a `?` database if nothing
   in it binds on both sides of a pair compiled against its text order.  With distinct values
   that is the only case.  The list never exceeds the dialect's ceiling.
   */
  method RenderQuery(query: Query, dialect: Dialect) returns (rendered: Result<CompiledQuery>)
    ensures rendered.Ok? <==> FirstFault(QueryDoc(query, dialect)).None?
                              && (dialect.maxParameters.None? || CountParameters(query, dialect) <= dialect.maxParameters.value)
    ensures rendered.Err? && FirstFault(QueryDoc(query, dialect)).Some? ==>
              rendered.fault == FirstFault(QueryDoc(query, dialect)).value
    ensures rendered.Err? && FirstFault(QueryDoc(query, dialect)).None? ==> rendered.fault == ValueFault
    ensures rendered.Ok? ==> rendered.value.parameters == Binds(QueryDoc(query, dialect))
    ensures rendered.Ok? ==> rendered.value.sql == Text(QueryDoc(query, dialect), dialect.style, 0)
    ensures rendered.Ok? && dialect.style.Dollar? ==>
              Resolve(rendered.value.sql, rendered.value.parameters) == Known(Meaning(QueryDoc(query, dialect)))
    ensures rendered.Ok? && dialect.style.QuestionMark? && Ordered(QueryDoc(query, dialect)) ==>
              ReadInOrder(rendered.value.sql, rendered.value.parameters) == Known(Meaning(QueryDoc(query, dialect)))
    ensures rendered.Ok? && dialect.style.QuestionMark? && Distinct(rendered.value.parameters) &&
            ReadInOrder(rendered.value.sql, rendered.value.parameters) == Known(Meaning(QueryDoc(query, dialect))) ==>
              Ordered(QueryDoc(query, dialect))
  {
    hide FirstFault, QueryDoc, Binds, Text, Resolve, Known, Meaning, Ordered, Distinct, ReadInOrder;
    var parameters := new Parameters();
    var sql :- CompileStatement(query, dialect, parameters);
    assert [] + Binds(QueryDoc(query, dialect)) == Binds(QueryDoc(query, dialect));
    if dialect.maxParameters.Some? && |parameters.values| > dialect.maxParameters.value {
      return Err(ValueFault);
    }
    if dialect.style.Dollar? {
      NumbersResolve(QueryDoc(query, dialect), [], []);
      assert [] + Binds(QueryDoc(query, dialect)) + [] == parameters.values;
    } else {
      if Ordered(QueryDoc(query, dialect)) {
        OrderedQuestionMarksResolve(QueryDoc(query, dialect));
      } else if Distinct(Binds(QueryDoc(query, dialect))) {
        QuestionMarksResolve(QueryDoc(query, dialect));
      }
    }
    return Ok(CompiledQuery(sql, parameters.values));
  }
}

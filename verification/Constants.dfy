/**
 A conflict arbiter's predicate is printed with constants.  It is the parameterized form
 of the same expression with every `$n` replaced by the constant it stands for, and the
 spelling of a text constant can be read back.
 */
module Constants {
  import opened Options
  import opened Ast
  import opened Document
  import opened Render
  import Compile

  /** Bound values spelled as constants. */
  function Spelled(items: seq<Item>): (r: seq<Item>)
    ensures |r| == |items|
  {
    seq(|items|, i requires 0 <= i < |items| =>
      if items[i].Valued? && IsConstant(items[i].value) then Plain(ConstantToken(items[i].value)) else items[i])
  }

  function SpelledDoc(doc: Doc): seq<Item> {
    Spelled(Meaning(doc))
  }

  lemma SpelledConcat(a: seq<Item>, b: seq<Item>)
    ensures Spelled(a + b) == Spelled(a) + Spelled(b)
  {
  }

  lemma SpelledPair(a: Doc, b: Doc)
    ensures SpelledDoc(Seq(a, b)) == SpelledDoc(a) + SpelledDoc(b)
    ensures SpelledDoc(Swapped(a, b)) == SpelledDoc(a) + SpelledDoc(b)
  {
    hide Spelled;
    SpelledConcat(Meaning(a), Meaning(b));
  }

  lemma SpelledEnclosed(d: Doc)
    ensures SpelledDoc(Paren(d)) == [Opens] + SpelledDoc(d) + [Closes]
  {
    hide Spelled;
    assert Spelled([Opens]) == [Opens] && Spelled([Closes]) == [Closes] by {
      SpelledParens();
    }
    SpelledConcat([Opens], Meaning(d));
    SpelledConcat([Opens] + Meaning(d), [Closes]);
  }

  lemma SpelledParens()
    ensures Spelled([Opens]) == [Opens] && Spelled([Closes]) == [Closes]
  {
  }

  lemma SpelledParts()
    ensures forall d {:trigger SpelledDoc(Paren(d))} :: SpelledDoc(Paren(d)) == [Opens] + SpelledDoc(d) + [Closes]
    ensures forall a, b {:trigger SpelledDoc(Seq(a, b))} :: SpelledDoc(Seq(a, b)) == SpelledDoc(a) + SpelledDoc(b)
    ensures forall a, b {:trigger SpelledDoc(Swapped(a, b))} :: SpelledDoc(Swapped(a, b)) == SpelledDoc(a) + SpelledDoc(b)
    ensures forall t: Token {:trigger SpelledDoc(Raw(t))} :: SpelledDoc(Raw(t)) == [Plain(t)]
  {
    forall t: Token ensures SpelledDoc(Raw(t)) == [Plain(t)] {
      assert Meaning(Raw(t)) == [Plain(t)];
    }
    hide SpelledDoc;
    forall d ensures SpelledDoc(Paren(d)) == [Opens] + SpelledDoc(d) + [Closes] {
      SpelledEnclosed(d);
    }
    forall a, b ensures SpelledDoc(Seq(a, b)) == SpelledDoc(a) + SpelledDoc(b)
                        && SpelledDoc(Swapped(a, b)) == SpelledDoc(a) + SpelledDoc(b) {
      SpelledPair(a, b);
    }
  }

  /** The arbiter predicate renders without an error. */
  predicate Acceptable(node: Node) {
    FirstFault(PredicateDoc(node)).None?
  }

  /** What the closed set of arbiter predicates allows, node by node. */
  predicate Allowed(node: Node)
    decreases node
  {
    match node
    case Column(_, _) => true
    case Bound(value) => IsConstant(value)
    case Binary(left, operator, right) => operator in PREDICATE_BINARY && Allowed(left) && Allowed(right)
    case Unary(operator, operand) => operator in PREDICATE_UNARY && Allowed(operand)
    case In(expression, values, _) => Allowed(expression) && forall v :: v in values ==> Allowed(v)
    case Between(expression, lower, upper, _) => Allowed(expression) && Allowed(lower) && Allowed(upper)
    case _ => false
  }

  lemma {:induction false} AcceptableIsAllowed(node: Node)
    ensures Acceptable(node) <==> Allowed(node)
    decreases node
  {
    Compile.Parts(Dollar);
    hide FirstFault, Compile.After, Compile.Printed, PredicatesDoc;
    match node
    case Column(_, _) =>
    case Bound(value) =>
    case Binary(left, operator, right) =>
      AcceptableIsAllowed(left);
      AcceptableIsAllowed(right);
    case Unary(operator, operand) =>
      AcceptableIsAllowed(operand);
    case In(expression, values, _) =>
      AcceptableIsAllowed(expression);
      AcceptableList(values);
    case Between(expression, lower, upper, _) =>
      AcceptableIsAllowed(expression);
      AcceptableIsAllowed(lower);
      AcceptableIsAllowed(upper);
    case _ =>
  }

  lemma {:induction false} AcceptableList(nodes: seq<Node>)
    ensures FirstFault(PredicatesDoc(nodes)).None? <==> forall n :: n in nodes ==> Allowed(n)
    decreases nodes
  {
    Compile.Parts(Dollar);
    hide FirstFault, Compile.After, Compile.Printed, PredicateDoc, Allowed;
    if nodes != [] {
      AcceptableIsAllowed(nodes[0]);
      AcceptableList(nodes[1..]);
      assert nodes == [nodes[0]] + nodes[1..];
    }
  }

  /** The constant form is the parameterized form with its values spelled out. */
  lemma {:induction false} ConstantForm(node: Node, dialect: Dialect)
    requires Allowed(node)
    ensures SpelledDoc(NodeDoc(node, dialect)) == SpelledDoc(PredicateDoc(node))
    decreases node
  {
    SpelledParts();
    hide SpelledDoc;
    match node
    case Column(_, _) =>
    case Bound(value) =>
      BoundForm(value);
    case Binary(left, _, right) =>
      ConstantForm(left, dialect);
      ConstantForm(right, dialect);
    case Unary(_, operand) =>
      ConstantForm(operand, dialect);
    case In(expression, values, negated) =>
      InForm(expression, values, negated, dialect);
    case Between(expression, lower, upper, _) =>
      ConstantForm(expression, dialect);
      ConstantForm(lower, dialect);
      ConstantForm(upper, dialect);
  }

  lemma BoundForm(value: Value)
    requires IsConstant(value)
    ensures SpelledDoc(Bind(value)) == SpelledDoc(ConstantDoc(value))
  {
    assert Meaning(Bind(value)) == [Valued(value)];
    assert Meaning(ConstantDoc(value)) == [Plain(ConstantToken(value))];
  }

  lemma InForm(expression: Node, values: seq<Node>, negated: bool, dialect: Dialect)
    requires Allowed(expression) && forall v :: v in values ==> Allowed(v)
    ensures SpelledDoc(NodeDoc(In(expression, values, negated), dialect)) ==
            SpelledDoc(PredicateDoc(In(expression, values, negated)))
    decreases In(expression, values, negated), 0
  {
    SpelledParts();
    hide SpelledDoc, ListDoc, PredicatesDoc, Allowed;
    ConstantForm(expression, dialect);
    ConstantList(values, dialect);
    var operator := [Plain(Operator(Not(negated, "in")))];
    var left := SpelledDoc(PredicateDoc(expression));
    var list := [Opens] + SpelledDoc(PredicatesDoc(values)) + [Closes];
    assert left + (operator + list) == (left + operator) + list;
  }

  lemma {:induction false} ConstantList(nodes: seq<Node>, dialect: Dialect)
    requires forall n :: n in nodes ==> Allowed(n)
    ensures SpelledDoc(ListDoc(nodes, dialect)) == SpelledDoc(PredicatesDoc(nodes))
    decreases nodes
  {
    SpelledParts();
    hide SpelledDoc, NodeDoc, PredicateDoc, Allowed;
    if nodes != [] {
      ConstantForm(nodes[0], dialect);
      if |nodes| > 1 {
        ConstantList(nodes[1..], dialect);
      }
    }
  }

  /** Replace each `$n` by the constant for the value it resolves to. */
  function Inline(sql: seq<Output>, parameters: seq<Value>): (r: seq<Output>)
    ensures |r| == |sql|
  {
    seq(|sql|, i requires 0 <= i < |sql| =>
      if sql[i].Numbered? && 1 <= sql[i].number <= |parameters| && IsConstant(parameters[sql[i].number - 1])
      then Fixed(ConstantToken(parameters[sql[i].number - 1])) else sql[i])
  }

  function AsOutput(item: Item): Output
    requires !item.Valued?
  {
    match item
    case Plain(token) => Fixed(token)
    case Opens => Opening
    case Closes => Closing
  }

  function AsText(items: seq<Item>): (r: seq<Output>)
    requires AllPlain(items)
    ensures |r| == |items|
  {
    seq(|items|, i requires 0 <= i < |items| => AsOutput(items[i]))
  }

  predicate AllPlain(items: seq<Item>) {
    forall i :: 0 <= i < |items| ==> !items[i].Valued?
  }

  lemma PlainConcat(a: seq<Item>, b: seq<Item>)
    requires AllPlain(a) && AllPlain(b)
    ensures AllPlain(a + b) && AsText(a + b) == AsText(a) + AsText(b) && Spelled(a + b) == a + b
  {
  }

  /** A document without values means its own text. */
  lemma {:induction false} BindlessIsPlain(doc: Doc, n: nat)
    requires Binds(doc) == []
    ensures AllPlain(Meaning(doc)) && Spelled(Meaning(doc)) == Meaning(doc)
    ensures Text(doc, Dollar, n) == AsText(Meaning(doc))
  {
    match doc
    case Empty | Raise(_) | Raw(_) | Bind(_) =>
    case Paren(inner) =>
      BindlessIsPlain(inner, n);
      PlainConcat([Opens], Meaning(inner));
      PlainConcat([Opens] + Meaning(inner), [Closes]);
      assert AsText([Opens]) == [Opening] && AsText([Closes]) == [Closing];
    case Seq(first, second) =>
      assert |Binds(first)| + |Binds(second)| == 0;
      BindlessIsPlain(first, n);
      BindlessIsPlain(second, n + |Binds(first)|);
      PlainConcat(Meaning(first), Meaning(second));
    case Swapped(first, second) =>
      assert |Binds(second)| + |Binds(first)| == 0;
      BindlessIsPlain(first, n + |Binds(second)|);
      BindlessIsPlain(second, n);
      PlainConcat(Meaning(first), Meaning(second));
  }

  lemma InlineSpells(sql: seq<Output>, parameters: seq<Value>, items: seq<Item>)
    requires Resolve(sql, parameters) == Known(items)
    requires AllPlain(Spelled(items))
    ensures Inline(sql, parameters) == AsText(Spelled(items))
  {
    assert |sql| == |Resolve(sql, parameters)| == |Known(items)| == |items|;
    forall i | 0 <= i < |sql| ensures Inline(sql, parameters)[i] == AsText(Spelled(items))[i] {
      assert ResolveOne(sql[i], parameters) == Resolve(sql, parameters)[i] == Known(items)[i] == Some(items[i]);
      assert !Spelled(items)[i].Valued?;
    }
  }

  /**
   In PostgreSQL text: rendering with parameters and inlining every parameter as a constant
   gives exactly what the constant-only renderer prints.
   */
  lemma ConstantsRefineParameters(node: Node, dialect: Dialect)
    requires Acceptable(node)
    ensures Inline(Text(NodeDoc(node, dialect), Dollar, 0), Binds(NodeDoc(node, dialect)))
            == Text(PredicateDoc(node), Dollar, 0)
  {
    hide NodeDoc, PredicateDoc, Text, Binds, Meaning, Inline, Spelled, AsText, Resolve, Known;
    AcceptableIsAllowed(node);
    ConstantForm(node, dialect);
    PredicateBindsNothing(node);
    BindlessIsPlain(PredicateDoc(node), 0);
    NumbersResolve(NodeDoc(node, dialect), [], []);
    assert [] + Binds(NodeDoc(node, dialect)) + [] == Binds(NodeDoc(node, dialect));
    assert Spelled(Meaning(NodeDoc(node, dialect))) == Meaning(PredicateDoc(node));
    InlineSpells(Text(NodeDoc(node, dialect), Dollar, 0), Binds(NodeDoc(node, dialect)), Meaning(NodeDoc(node, dialect)));
  }

  // ---- The spelling of a text constant -----------------------------------------------------------

  /** Backslashes and quotes doubled. */
  function Escaped(text: string): string {
    if text == "" then ""
    else (if text[0] == '\\' then "\\\\" else if text[0] == '\'' then "''" else [text[0]]) + Escaped(text[1..])
  }

  function EscapeLiteral(text: string): string {
    "E'" + Escaped(text) + "'"
  }

  function Replaced(text: string, c: char): string {
    if text == "" then ""
    else (if text[0] == c then [c, c] else [text[0]]) + Replaced(text[1..], c)
  }

  lemma ReplacedFirst(x: char, rest: string, c: char)
    ensures Replaced([x] + rest, c) == (if x == c then [c, c] else [x]) + Replaced(rest, c)
  {
    assert ([x] + rest)[1..] == rest;
  }

  /** Two passes of replacement double each special character once. */
  lemma {:induction false} EscapedInTwoPasses(text: string)
    ensures Escaped(text) == Replaced(Replaced(text, '\\'), '\'')
  {
    if text != "" {
      EscapedInTwoPasses(text[1..]);
      var rest := Replaced(text[1..], '\\');
      hide Replaced;
      assert text == [text[0]] + text[1..];
      ReplacedFirst(text[0], text[1..], '\\');
      ReplacedFirst(text[0], rest, '\'');
      if text[0] == '\\' {
        ReplacedFirst('\\', "\\" + rest, '\'');
        assert "\\\\" + rest == "\\" + ("\\" + rest);
        assert "\\" + ("\\" + Replaced(rest, '\'')) == "\\\\" + Replaced(rest, '\'');
      }
    } else {
      assert Replaced("", '\\') == "";
    }
  }

  /**
   PostgreSQL's reading of the inside of an escape string (section 4.1.2.2): the value, and
   how many characters it takes including the closing quote.  Only the two escapes that
   the renderer writes are given a meaning.
   */
  function ReadEscaped(sql: string): Option<(string, nat)> {
    if sql == "" then None
    else if sql[0] == '\\' then
      if |sql| < 2 then None
      else
        match ReadEscaped(sql[2..])
        case None => None
        case Some((rest, length)) => if sql[1] == '\\' || sql[1] ==
          '\'' then Some(([sql[1]] + rest, length + 2)) else None
    else if sql[0] == '\'' then
      if |sql| > 1 && sql[1] == '\'' then
        match ReadEscaped(sql[2..])
        case None => None
        case Some((rest, length)) => Some(("'" + rest, length + 2))
      else Some(("", 1))
    else
      match ReadEscaped(sql[1..])
      case None => None
      case Some((rest, length)) => Some(([sql[0]] + rest, length + 1))
  }

  /** Whatever follows, unless another quote does, a text constant reads back as itself. */
  lemma {:induction false} EscapeRoundTrip(text: string, after: string)
    requires after == "" || after[0] != '\''
    ensures ReadEscaped(Escaped(text) + "'" + after) == Some((text, |Escaped(text)| + 1))
  {
    var sql := Escaped(text) + "'" + after;
    if text == "" {
      assert sql == "'" + after;
    } else {
      var rest := Escaped(text[1..]) + "'" + after;
      EscapeRoundTrip(text[1..], after);
      assert text == [text[0]] + text[1..];
      var piece := if text[0] == '\\' then "\\\\" else if text[0] == '\'' then "''" else [text[0]];
      assert Escaped(text) == piece + Escaped(text[1..]);
      hide Escaped;
      assert sql == piece + rest;
      assert sql[|piece|..] == rest && sql[0] == piece[0];
    }
  }
}

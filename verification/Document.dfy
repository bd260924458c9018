/**
 What the renderer produces, before parameters are numbered: SQL text with the bound
 values in place.  Numbering follows the order in which values are compiled, which is
 the order of the text except inside a `Swapped` pair.
 */
module Document {
  import opened Options
  import opened Ast

  /** A piece of SQL text.  An operator stands between two operands or behind one. */
  datatype Token =
    | Comma
    | Word(text: string)
    | Operator(text: string)
    | Identifier(name: string)
    | Literal(text: string)
    | EscapeString(text: string)
    | Number(number: int)

  /** The exceptions rendering can raise. */
  datatype Fault = ValueFault | AssertionFault | IndexFault

  datatype Doc =
    | Empty
    | Raise(fault: Fault)
    | Raw(token: Token)
    | Bind(value: Value)
    | Paren(inner: Doc)
    | Seq(first: Doc, second: Doc)
    | Swapped(first: Doc, second: Doc) // first comes first in the text, but is compiled second

  /** Rendered SQL: text, parentheses, `$n`, or `?`. */
  datatype Output = Fixed(token: Token) | Opening | Closing | Numbered(number: nat) | Question

  datatype Style = Dollar | QuestionMark

  /** SQL read with its values put back in. */
  datatype Item = Plain(token: Token) | Opens | Closes | Valued(value: Value)

  /** The values appended to the parameter list, in the order they are compiled. */
  function Binds(doc: Doc): seq<Value> {
    match doc
    case Empty | Raise(_) | Raw(_) => []
    case Bind(value) => [value]
    case Paren(inner) => Binds(inner)
    case Seq(first, second) => Binds(first) + Binds(second)
    case Swapped(first, second) => Binds(second) + Binds(first)
  }

  /** A document binds what its parts bind. */
  lemma BindParts()
    ensures forall a, b {:trigger Binds(Seq(a, b))} :: |Binds(Seq(a, b))| == |Binds(a)| + |Binds(b)|
    ensures forall a, b {:trigger Binds(Swapped(a, b))} :: |Binds(Swapped(a, b))| == |Binds(a)| + |Binds(b)|
    ensures forall a, b {:trigger Binds(Seq(a, b))} :: Binds(Seq(a, b)) == [] <==> Binds(a) == [] && Binds(b) == []
    ensures forall a, b {:trigger Binds(Swapped(a, b))} ::
      Binds(Swapped(a, b)) == [] <==> Binds(a) == [] && Binds(b) == []
    ensures forall d {:trigger Binds(Paren(d))} :: Binds(Paren(d)) == Binds(d)
    ensures forall t: Token {:trigger Binds(Raw(t))} :: Binds(Raw(t)) == []
    ensures forall f: Fault {:trigger Binds(Raise(f))} :: Binds(Raise(f)) == []
    ensures Binds(Empty) == []
  {
    forall a, b ensures Binds(Seq(a, b)) == [] <==> Binds(a) == [] && Binds(b) == [] {
      assert |Binds(Seq(a, b))| == |Binds(a)| + |Binds(b)|;
    }
    forall a, b ensures Binds(Swapped(a, b)) == [] <==> Binds(a) == [] && Binds(b) == [] {
      assert |Binds(Swapped(a, b))| == |Binds(a)| + |Binds(b)|;
    }
  }

  /** The rendered text when `n` values are bound already. */
  function Text(doc: Doc, style: Style, n: nat): seq<Output> {
    match doc
    case Empty | Raise(_) => []
    case Raw(token) => [Fixed(token)]
    case Bind(_) => [if style.Dollar? then Numbered(n + 1) else Question]
    case Paren(inner) => [Opening] + Text(inner, style, n) + [Closing]
    case Seq(first, second) => Text(first, style, n) + Text(second, style, n + |Binds(first)|)
    case Swapped(first, second) => Text(first, style, n + |Binds(second)|) + Text(second, style, n)
  }

  /** The exception rendering stops at, in compile order. */
  function FirstFault(doc: Doc): Option<Fault> {
    match doc
    case Empty | Raw(_) | Bind(_) => None
    case Raise(fault) => Some(fault)
    case Paren(inner) => FirstFault(inner)
    case Seq(first, second) => if FirstFault(first).Some? then FirstFault(first) else FirstFault(second)
    case Swapped(first, second) => if FirstFault(second).Some? then FirstFault(second) else FirstFault(first)
  }

  /** What the text means: each placeholder is the value of the node that printed it. */
  function Meaning(doc: Doc): seq<Item> {
    match doc
    case Empty | Raise(_) => []
    case Raw(token) => [Plain(token)]
    case Bind(value) => [Valued(value)]
    case Paren(inner) => [Opens] + Meaning(inner) + [Closes]
    case Seq(first, second) => Meaning(first) + Meaning(second)
    case Swapped(first, second) => Meaning(first) + Meaning(second)
  }

  /** The values in the order their placeholders appear in the text. */
  function TextOrder(doc: Doc): seq<Value> {
    match doc
    case Empty | Raise(_) | Raw(_) => []
    case Bind(value) => [value]
    case Paren(inner) => TextOrder(inner)
    case Seq(first, second) => TextOrder(first) + TextOrder(second)
    case Swapped(first, second) => TextOrder(first) + TextOrder(second)
  }

  /** PostgreSQL's reading of one placeholder; `None` when the number is out of range. */
  function ResolveOne(output: Output, parameters: seq<Value>): Option<Item> {
    match output
    case Fixed(token) => Some(Plain(token))
    case Opening => Some(Opens)
    case Closing => Some(Closes)
    case Numbered(number) =>
      if 1 <= number <= |parameters| then Some(Valued(parameters[number - 1])) else None
    case Question => None
  }

  function Resolve(sql: seq<Output>, parameters: seq<Value>): (r: seq<Option<Item>>)
    ensures |r| == |sql|
  {
    seq(|sql|, i requires 0 <= i < |sql| => ResolveOne(sql[i], parameters))
  }

  function Known<T>(items: seq<T>): (r: seq<Option<T>>)
    ensures |r| == |items|
  {
    seq(|items|, i requires 0 <= i < |items| => Some(items[i]))
  }

  lemma ResolveConcat(a: seq<Output>, b: seq<Output>, parameters: seq<Value>)
    ensures Resolve(a + b, parameters) == Resolve(a, parameters) + Resolve(b, parameters)
  {
  }

  lemma KnownConcat<T>(a: seq<T>, b: seq<T>)
    ensures Known(a + b) == Known(a) + Known(b)
  {
  }

  lemma ResolvePair(x: seq<Output>, y: seq<Output>, a: seq<Item>, b: seq<Item>, parameters: seq<Value>)
    requires Resolve(x, parameters) == Known(a) && Resolve(y, parameters) == Known(b)
    ensures Resolve(x + y, parameters) == Known(a + b)
  {
    hide Resolve, Known;
    ResolveConcat(x, y, parameters);
    KnownConcat(a, b);
  }

  /** Every `$n` resolves to the value of the node that printed it, in any surroundings. */
  lemma {:induction false} NumbersResolve(doc: Doc, before: seq<Value>, after: seq<Value>)
    ensures Resolve(Text(doc, Dollar, |before|), before + Binds(doc) + after) == Known(Meaning(doc))
  {
    hide Resolve, Known;
    match doc
    case Empty | Raise(_) | Raw(_) | Bind(_) =>
      LeafResolves(doc, before, after);
    case Paren(inner) =>
      NumbersResolve(inner, before, after);
      ResolveEnclosed(Text(inner, Dollar, |before|), Meaning(inner), before + Binds(inner) + after);
    case Seq(first, second) =>
      var a, b := Binds(first), Binds(second);
      Reassociate(before, a, b, after);
      NumbersResolve(first, before, b + after);
      NumbersResolve(second, before + a, after);
      ResolvePair(Text(first, Dollar, |before|), Text(second, Dollar, |before| + |a|),
                  Meaning(first), Meaning(second), before + (a + b) + after);
    case Swapped(first, second) =>
      var a, b := Binds(first), Binds(second);
      Reassociate(before, b, a, after);
      NumbersResolve(second, before, a + after);
      NumbersResolve(first, before + b, after);
      ResolvePair(Text(first, Dollar, |before| + |b|), Text(second, Dollar, |before|),
                  Meaning(first), Meaning(second), before + (b + a) + after);
  }

  lemma ResolveEnclosed(x: seq<Output>, a: seq<Item>, parameters: seq<Value>)
    requires Resolve(x, parameters) == Known(a)
    ensures Resolve([Opening] + x + [Closing], parameters) == Known([Opens] + a + [Closes])
  {
    assert Resolve([Opening], parameters) == Known([Opens]) && Resolve([Closing], parameters) == Known([Closes]);
    hide Resolve, Known;
    ResolvePair([Opening], x, [Opens], a, parameters);
    ResolvePair([Opening] + x, [Closing], [Opens] + a, [Closes], parameters);
  }

  lemma Reassociate(before: seq<Value>, a: seq<Value>, b: seq<Value>, after: seq<Value>)
    ensures before + (a + b) + after == before + a + (b + after) == (before + a) + b + after
  {
  }

  lemma LeafResolves(doc: Doc, before: seq<Value>, after: seq<Value>)
    requires doc.Empty? || doc.Raise? || doc.Raw? || doc.Bind?
    ensures Resolve(Text(doc, Dollar, |before|), before + Binds(doc) + after) == Known(Meaning(doc))
  {
    if doc.Bind? {
      assert (before + [doc.value] + after)[|before|] == doc.value;
    }
  }

  /** The numbers of the `$n` placeholders, in text order. */
  function Numbers(sql: seq<Output>): seq<nat> {
    if sql == [] then []
    else NumberOf(sql[0]) + Numbers(sql[1..])
  }

  function NumberOf(output: Output): seq<nat> {
    if output.Numbered? then [output.number] else []
  }

  function Consecutive(n: nat, count: nat): (r: seq<nat>)
    ensures |r| == count && forall i :: 0 <= i < count ==> r[i] == n + 1 + i
  {
    seq(count, i => n + 1 + i)
  }

  lemma {:induction false} NumbersConcat(a: seq<Output>, b: seq<Output>)
    ensures Numbers(a + b) == Numbers(a) + Numbers(b)
  {
    if a == [] {
      assert a + b == b;
    } else {
      hide NumberOf;
      NumbersConcat(a[1..], b);
      assert (a + b)[1..] == a[1..] + b && (a + b)[0] == a[0];
      assert NumberOf(a[0]) + (Numbers(a[1..]) + Numbers(b)) == (NumberOf(a[0]) + Numbers(a[1..])) + Numbers(b);
    }
  }

  lemma ConsecutiveSplit(n: nat, a: nat, b: nat)
    ensures Consecutive(n, a + b) == Consecutive(n, a) + Consecutive(n + a, b)
  {
  }

  /** The placeholders use n + 1 .. n + count, each exactly once. */
  ghost predicate UsesNext(sql: seq<Output>, n: nat, count: nat) {
    multiset(Numbers(sql)) == multiset(Consecutive(n, count))
  }

  /** A document uses the next free numbers, each exactly once. */
  lemma {:induction false} NumbersAreConsecutive(doc: Doc, n: nat)
    ensures UsesNext(Text(doc, Dollar, n), n, |Binds(doc)|)
  {
    hide UsesNext;
    match doc
    case Empty | Raise(_) | Raw(_) | Bind(_) =>
      LeafIsConsecutive(doc, n);
    case Paren(inner) =>
      NumbersAreConsecutive(inner, n);
      EnclosedIsConsecutive(Text(inner, Dollar, n), n, |Binds(inner)|);
    case Seq(first, second) =>
      NumbersAreConsecutive(first, n);
      NumbersAreConsecutive(second, n + |Binds(first)|);
      SeqIsConsecutive(first, second, n);
    case Swapped(first, second) =>
      NumbersAreConsecutive(second, n);
      NumbersAreConsecutive(first, n + |Binds(second)|);
      SwappedIsConsecutive(first, second, n);
  }

  lemma SeqIsConsecutive(first: Doc, second: Doc, n: nat)
    requires UsesNext(Text(first, Dollar, n), n, |Binds(first)|)
    requires UsesNext(Text(second, Dollar, n + |Binds(first)|), n + |Binds(first)|, |Binds(second)|)
    ensures UsesNext(Text(Seq(first, second), Dollar, n), n, |Binds(Seq(first, second))|)
  {
    hide UsesNext;
    PairIsConsecutive(Text(first, Dollar, n), Text(second, Dollar, n + |Binds(first)|), n, |Binds(first)|, |Binds(second)|);
  }

  lemma SwappedIsConsecutive(first: Doc, second: Doc, n: nat)
    requires UsesNext(Text(second, Dollar, n), n, |Binds(second)|)
    requires UsesNext(Text(first, Dollar, n + |Binds(second)|), n + |Binds(second)|, |Binds(first)|)
    ensures UsesNext(Text(Swapped(first, second), Dollar, n), n, |Binds(Swapped(first, second))|)
  {
    hide UsesNext;
    PairIsConsecutive(Text(second, Dollar, n), Text(first, Dollar, n + |Binds(second)|), n, |Binds(second)|, |Binds(first)|);
  }

  lemma LeafIsConsecutive(doc: Doc, n: nat)
    requires doc.Empty? || doc.Raise? || doc.Raw? || doc.Bind?
    ensures UsesNext(Text(doc, Dollar, n), n, |Binds(doc)|)
  {
    assert Numbers(Text(doc, Dollar, n)) == Consecutive(n, |Binds(doc)|);
  }

  lemma EnclosedIsConsecutive(x: seq<Output>, n: nat, count: nat)
    requires UsesNext(x, n, count)
    ensures UsesNext([Opening] + x + [Closing], n, count)
  {
    assert Numbers([Opening]) == [] && Numbers([Closing]) == [] by {
      assert [Opening][1..] == [] && [Closing][1..] == [];
    }
    hide Numbers, Consecutive;
    NumbersConcat([Opening], x);
    NumbersConcat([Opening] + x, [Closing]);
    assert [] + Numbers(x) + [] == Numbers(x);
  }

  lemma PairIsConsecutive(x: seq<Output>, y: seq<Output>, n: nat, a: nat, b: nat)
    requires UsesNext(x, n, a) && UsesNext(y, n + a, b)
    ensures UsesNext(x + y, n, a + b) && UsesNext(y + x, n, a + b)
  {
    hide Numbers, Consecutive;
    NumbersConcat(x, y);
    NumbersConcat(y, x);
    ConsecutiveSplit(n, a, b);
  }

  /** SQLite's reading: the k-th `?` takes the k-th parameter. */
  function ReadInOrder(sql: seq<Output>, parameters: seq<Value>): seq<Option<Item>> {
    if sql == [] then []
    else
      match sql[0]
      case Fixed(token) => [Some(Plain(token))] + ReadInOrder(sql[1..], parameters)
      case Opening => [Some(Opens)] + ReadInOrder(sql[1..], parameters)
      case Closing => [Some(Closes)] + ReadInOrder(sql[1..], parameters)
      case Numbered(_) => [None] + ReadInOrder(sql[1..], parameters)
      case Question =>
        if parameters == [] then [None] + ReadInOrder(sql[1..], parameters)
        else [Some(Valued(parameters[0]))] + ReadInOrder(sql[1..], parameters[1..])
  }

  lemma {:induction false} ReadsTextOrder(doc: Doc, n: nat, later: seq<Output>, after: seq<Value>)
    ensures Reads(Text(doc, QuestionMark, n), later, TextOrder(doc), after, Meaning(doc))
  {
    hide Reads;
    match doc
    case Empty | Raise(_) | Raw(_) | Bind(_) =>
      ReadsLeaf(doc, n, later, after);
    case Paren(inner) =>
      ReadsTextOrder(inner, n, [Closing] + later, after);
      ReadsEnclosed(Text(inner, QuestionMark, n), later, TextOrder(inner), after, Meaning(inner));
    case Seq(first, second) =>
      ReadsPair(first, second, n, n + |Binds(first)|, later, after);
      ReadsTextOrder(first, n, Text(second, QuestionMark, n + |Binds(first)|) + later, TextOrder(second) + after);
      ReadsTextOrder(second, n + |Binds(first)|, later, after);
    case Swapped(first, second) =>
      ReadsPair(first, second, n + |Binds(second)|, n, later, after);
      ReadsTextOrder(first, n + |Binds(second)|, Text(second, QuestionMark, n) + later, TextOrder(second) + after);
      ReadsTextOrder(second, n, later, after);
  }

  lemma ReadsEnclosed(sql: seq<Output>, later: seq<Output>, values: seq<Value>, after: seq<Value>, items: seq<Item>)
    requires Reads(sql, [Closing] + later, values, after, items)
    ensures Reads([Opening] + sql + [Closing], later, values, after, [Opens] + items + [Closes])
  {
    assert ReadInOrder([Closing] + later, after) == [Some(Closes)] + ReadInOrder(later, after) by {
      assert ([Closing] + later)[1..] == later;
    }
    assert ReadInOrder([Opening] + (sql + ([Closing] + later)), values + after)
           == [Some(Opens)] + ReadInOrder(sql + ([Closing] + later), values + after) by {
      assert ([Opening] + (sql + ([Closing] + later)))[1..] == sql + ([Closing] + later);
    }
    hide ReadInOrder;
    assert ([Opening] + sql + [Closing]) + later == [Opening] + (sql + ([Closing] + later));
    assert Known([Opens] + items + [Closes]) == [Some(Opens)] + Known(items) + [Some(Closes)];
    assert [Some(Opens)] + (Known(items) + ([Some(Closes)] + ReadInOrder(later, after)))
           == ([Some(Opens)] + Known(items) + [Some(Closes)]) + ReadInOrder(later, after);
  }

  lemma ReadsLeaf(doc: Doc, n: nat, later: seq<Output>, after: seq<Value>)
    requires doc.Empty? || doc.Raise? || doc.Raw? || doc.Bind?
    ensures Reads(Text(doc, QuestionMark, n), later, TextOrder(doc), after, Meaning(doc))
  {
    var sql, values := Text(doc, QuestionMark, n) + later, TextOrder(doc) + after;
    assert sql[|Text(doc, QuestionMark, n)|..] == later && values[|TextOrder(doc)|..] == after;
    assert sql == later || sql[1..] == later;
    assert values == after || values[1..] == after;
  }

  ghost predicate Reads(sql: seq<Output>, later: seq<Output>, values: seq<Value>, after: seq<Value>, items: seq<Item>) {
    ReadInOrder(sql + later, values + after) == Known(items) + ReadInOrder(later, after)
  }

  lemma ReadsPair(first: Doc, second: Doc, m: nat, n: nat, later: seq<Output>, after: seq<Value>)
    ensures var a, b := Text(first, QuestionMark, m), Text(second, QuestionMark, n);
      var x, y := TextOrder(first), TextOrder(second);
      Reads(a, b + later, x, y + after, Meaning(first)) && Reads(b, later, y, after, Meaning(second)) ==>
      Reads(a + b, later, x + y, after, Meaning(first) + Meaning(second))
  {
    hide Text, TextOrder, Meaning, ReadInOrder, Known;
    var a, b := Text(first, QuestionMark, m), Text(second, QuestionMark, n);
    var x, y := TextOrder(first), TextOrder(second);
    if Reads(a, b + later, x, y + after, Meaning(first)) && Reads(b, later, y, after, Meaning(second)) {
      ReadPairGlue(a, b, later, x, y, after, Meaning(first), Meaning(second));
    }
  }

  lemma ReadPairGlue(a: seq<Output>, b: seq<Output>, later: seq<Output>,
                     x: seq<Value>, y: seq<Value>, after: seq<Value>, m: seq<Item>, k: seq<Item>)
    requires ReadInOrder(a + (b + later), x + (y + after)) == Known(m) + ReadInOrder(b + later, y + after)
    requires ReadInOrder(b + later, y + after) == Known(k) + ReadInOrder(later, after)
    ensures ReadInOrder((a + b) + later, (x + y) + after) == Known(m + k) + ReadInOrder(later, after)
  {
    hide ReadInOrder;
    assert (a + b) + later == a + (b + later) && (x + y) + after == x + (y + after);
    KnownConcat(m, k);
  }

  /** Nothing is bound on both sides of a pair that is compiled against its text order. */
  predicate Ordered(doc: Doc) {
    match doc
    case Empty | Raise(_) | Raw(_) | Bind(_) => true
    case Paren(inner) => Ordered(inner)
    case Seq(first, second) => Ordered(first) && Ordered(second)
    case Swapped(first, second) =>
      Ordered(first) && Ordered(second) && (Binds(first) == [] || Binds(second) == [])
  }

  lemma {:induction false} OrderedIsTextOrder(doc: Doc)
    requires Ordered(doc)
    ensures TextOrder(doc) == Binds(doc)
  {
    match doc
    case Empty | Raise(_) | Raw(_) | Bind(_) =>
    case Paren(inner) =>
      OrderedIsTextOrder(inner);
    case Seq(first, second) =>
      OrderedIsTextOrder(first);
      OrderedIsTextOrder(second);
    case Swapped(first, second) =>
      OrderedIsTextOrder(first);
      OrderedIsTextOrder(second);
  }

  lemma {:induction false} TextOrderPermutes(doc: Doc)
    ensures multiset(TextOrder(doc)) == multiset(Binds(doc)) && |TextOrder(doc)| == |Binds(doc)|
  {
    match doc
    case Empty | Raise(_) | Raw(_) | Bind(_) =>
    case Paren(inner) =>
      TextOrderPermutes(inner);
    case Seq(first, second) =>
      TextOrderPermutes(first);
      TextOrderPermutes(second);
    case Swapped(first, second) =>
      TextOrderPermutes(first);
      TextOrderPermutes(second);
  }

  ghost predicate Distinct(values: seq<Value>) {
    forall i, j :: 0 <= i < j < |values| ==> values[i] != values[j]
  }

  /** With distinct values, text order and compile order agree only in ordered documents. */
  lemma {:induction false} TextOrderIsOrdered(doc: Doc)
    requires Distinct(Binds(doc)) && TextOrder(doc) == Binds(doc)
    ensures Ordered(doc)
  {
    match doc
    case Empty | Raise(_) | Raw(_) | Bind(_) =>
    case Paren(inner) =>
      TextOrderIsOrdered(inner);
    case Seq(first, second) =>
      TextOrderPermutes(first);
      PairSplits(TextOrder(first), TextOrder(second), Binds(first), Binds(second));
      DistinctParts(Binds(first), Binds(second));
      TextOrderIsOrdered(first);
      TextOrderIsOrdered(second);
    case Swapped(first, second) =>
      TextOrderPermutes(first);
      TextOrderPermutes(second);
      DistinctParts(Binds(second), Binds(first));
      if Binds(first) != [] && Binds(second) != [] {
        SwappedClash(first, second);
      } else {
        assert Binds(second) + Binds(first) == Binds(first) + Binds(second);
        PairSplits(TextOrder(first), TextOrder(second), Binds(first), Binds(second));
        TextOrderIsOrdered(first);
        TextOrderIsOrdered(second);
      }
  }

  lemma PairSplits(a: seq<Value>, b: seq<Value>, c: seq<Value>, d: seq<Value>)
    requires a + b == c + d && |a| == |c|
    ensures a == c && b == d
  {
    assert a == (a + b)[..|a|] && c == (c + d)[..|c|];
    assert b == (a + b)[|a|..] && d == (c + d)[|c|..];
  }

  lemma DistinctParts(a: seq<Value>, b: seq<Value>)
    requires Distinct(a + b)
    ensures Distinct(a) && Distinct(b) && forall x :: x in a ==> x !in b
  {
    forall i, j | 0 <= i < |a| && 0 <= j < |b| ensures a[i] != b[j] {
      assert (a + b)[i] == a[i] && (a + b)[|a| + j] == b[j];
    }
    forall i, j | 0 <= i < j < |a| ensures a[i] != a[j] {
      assert (a + b)[i] == a[i] && (a + b)[j] == a[j];
    }
    forall i, j | 0 <= i < j < |b| ensures b[i] != b[j] {
      assert (a + b)[|a| + i] == b[i] && (a + b)[|a| + j] == b[j];
    }
  }

  /** The first placeholder of a swapped pair belongs to `first`, its value to `second`. */
  lemma SwappedClash(first: Doc, second: Doc)
    requires Binds(first) != [] && Binds(second) != []
    requires forall x :: x in Binds(second) ==> x !in Binds(first)
    ensures TextOrder(first) + TextOrder(second) != Binds(second) + Binds(first)
  {
    TextOrderPermutes(first);
    var x := TextOrder(first)[0];
    assert x in multiset(TextOrder(first));
    assert x in Binds(first);
    assert (TextOrder(first) + TextOrder(second))[0] == x;
    assert (Binds(second) + Binds(first))[0] == Binds(second)[0];
  }

  /**
   For `?` placeholders: a statement with pairwise distinct values reaches the database
   with every value in its place exactly when it is ordered.
   */
  lemma QuestionMarksResolve(doc: Doc)
    requires Distinct(Binds(doc))
    ensures ReadInOrder(Text(doc, QuestionMark, 0), Binds(doc)) == Known(Meaning(doc)) <==> Ordered(doc)
  {
    var sql := Text(doc, QuestionMark, 0);
    ReadsTextOrder(doc, 0, [], []);
    assert sql + [] == sql && TextOrder(doc) + [] == TextOrder(doc);
    assert Known(Meaning(doc)) + [] == Known(Meaning(doc));
    if Ordered(doc) {
      OrderedIsTextOrder(doc);
    }
    if ReadInOrder(sql, Binds(doc)) == Known(Meaning(doc)) {
      TextOrderPermutes(doc);
      QuestionsCount(doc, 0);
      ReadingIsInjective(sql, TextOrder(doc), Binds(doc));
      TextOrderIsOrdered(doc);
    }
  }

  /** Ordered statements are read correctly whatever the values are. */
  lemma OrderedQuestionMarksResolve(doc: Doc)
    requires Ordered(doc)
    ensures ReadInOrder(Text(doc, QuestionMark, 0), Binds(doc)) == Known(Meaning(doc))
  {
    var sql := Text(doc, QuestionMark, 0);
    ReadsTextOrder(doc, 0, [], []);
    assert sql + [] == sql && TextOrder(doc) + [] == TextOrder(doc);
    assert Known(Meaning(doc)) + [] == Known(Meaning(doc));
    OrderedIsTextOrder(doc);
  }

  function Questions(sql: seq<Output>): nat {
    if sql == [] then 0 else (if sql[0].Question? then 1 else 0) + Questions(sql[1..])
  }

  lemma {:induction false} QuestionsConcat(a: seq<Output>, b: seq<Output>)
    ensures Questions(a + b) == Questions(a) + Questions(b)
  {
    if a == [] {
      assert a + b == b;
    } else {
      assert (a + b)[1..] == a[1..] + b;
      QuestionsConcat(a[1..], b);
    }
  }

  /** As many `?` as values. */
  lemma {:induction false} QuestionsCount(doc: Doc, n: nat)
    ensures Questions(Text(doc, QuestionMark, n)) == |Binds(doc)|
  {
    match doc
    case Empty | Raise(_) | Raw(_) | Bind(_) =>
    case Paren(inner) =>
      QuestionsCount(inner, n);
      QuestionsConcat([Opening], Text(inner, QuestionMark, n));
      QuestionsConcat([Opening] + Text(inner, QuestionMark, n), [Closing]);
    case Seq(first, second) =>
      QuestionsCount(first, n);
      QuestionsCount(second, n + |Binds(first)|);
      QuestionsConcat(Text(first, QuestionMark, n), Text(second, QuestionMark, n + |Binds(first)|));
    case Swapped(first, second) =>
      QuestionsCount(first, n + |Binds(second)|);
      QuestionsCount(second, n);
      QuestionsConcat(Text(first, QuestionMark, n + |Binds(second)|), Text(second, QuestionMark, n));
  }

  lemma {:induction false} ReadingIsInjective(sql: seq<Output>, a: seq<Value>, b: seq<Value>)
    requires |a| == |b| == Questions(sql)
    requires ReadInOrder(sql, a) == ReadInOrder(sql, b)
    ensures a == b
  {
    if sql != [] {
      var x, y := ReadInOrder(sql, a), ReadInOrder(sql, b);
      assert x[0] == y[0];
      if sql[0].Question? {
        assert x == [Some(Valued(a[0]))] + ReadInOrder(sql[1..], a[1..]);
        assert x[1..] == ReadInOrder(sql[1..], a[1..]) && y[1..] == ReadInOrder(sql[1..], b[1..]);
        ReadingIsInjective(sql[1..], a[1..], b[1..]);
        assert a == [a[0]] + a[1..] && b == [b[0]] + b[1..];
      } else {
        assert x[1..] == ReadInOrder(sql[1..], a) && y[1..] == ReadInOrder(sql[1..], b);
        ReadingIsInjective(sql[1..], a, b);
      }
    }
  }
}

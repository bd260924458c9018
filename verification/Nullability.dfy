/**
 Which sources an outer join can NULL-extend, against the join chain's own semantics:
 a source outside the set is never NULL-extended, and every source inside it is, for
 some tables and join predicates.
 */
module Nullability {
  import opened Options
  import opened Ast

  const JOIN_KINDS: set<string> := {"inner", "cross", "left", "right", "full"}

  predicate KindsKnown(select: Select) {
    forall j :: j in select.joins ==> j.kind in JOIN_KINDS
  }

  function Kinds(select: Select): (r: seq<string>)
    ensures |r| == |select.joins|
  {
    seq(|select.joins|, i requires 0 <= i < |select.joins| => select.joins[i].kind)
  }

  /** FROM first, then the joins: the correlation name of source `i`. */
  function ReferenceAt(select: Select, i: nat): string
    requires select.base.Some? && i <= |select.joins|
  {
    if i == 0 then select.base.value.Reference() else select.joins[i - 1].source.Reference()
  }

  /** Source `i` is extended by its own join from the left, or by a later one from the right. */
  predicate Extended(kinds: seq<string>, i: nat)
    requires i <= |kinds|
  {
    || (i > 0 && (kinds[i - 1] == "left" || kinds[i - 1] == "full"))
    || exists k :: i <= k < |kinds| && (kinds[k] == "right" || kinds[k] == "full")
  }

  /** The names of the extended sources. */
  function NullExtended(select: Select): set<string> {
    if select.base.None? then {}
    else set i | 0 <= i <= |select.joins| && Extended(Kinds(select), i) :: ReferenceAt(select, i)
  }

  function VisibleReferences(select: Select, n: nat): set<string>
    requires select.base.Some? && n <= |select.joins|
  {
    set i | 0 <= i <= n :: ReferenceAt(select, i)
  }

  function PrefixExtended(select: Select, n: nat): set<string>
    requires select.base.Some? && n <= |select.joins|
  {
    set i | 0 <= i <= n && Extended(Kinds(select)[..n], i) :: ReferenceAt(select, i)
  }

  /** One pass over the joins; `None` is the error for an unsupported kind. */
  method NullExtendedSources(select: Select) returns (nullable: Option<set<string>>)
    ensures nullable == if select.base.Some? && !KindsKnown(select) then None else Some(NullExtended(select))
  {
    hide VisibleReferences, PrefixExtended, NullExtended;
    if select.base.None? {
      NothingExtended(select);
      return Some({});
    }
    var visible := {select.base.value.Reference()};
    var names: set<string> := {};
    var n := 0;
    PassBegins(select);
    while n < |select.joins|
      invariant n <= |select.joins|
      invariant forall j :: j in select.joins[..n] ==> j.kind in JOIN_KINDS
      invariant visible == VisibleReferences(select, n)
      invariant names == PrefixExtended(select, n)
    {
      var join := select.joins[n];
      match join.kind {
        case "left" => names := names + {join.source.Reference()};
        case "right" => names := names + visible;
        case "full" => names := names + visible + {join.source.Reference()};
        case "inner" | "cross" =>
        case _ =>
          assert join in select.joins;
          return None;
      }
      PrefixStep(select, n);
      VisibleStep(select, n);
      visible := visible + {join.source.Reference()};
      assert select.joins[..n + 1] == select.joins[..n] + [join];
      n := n + 1;
    }
    PassEnds(select);
    assert select.joins[..n] == select.joins;
    return Some(names);
  }

  lemma NothingExtended(select: Select)
    requires select.base.None?
    ensures NullExtended(select) == {}
  {
  }

  lemma PassBegins(select: Select)
    requires select.base.Some?
    ensures VisibleReferences(select, 0) == {select.base.value.Reference()} && PrefixExtended(select, 0) == {}
  {
    assert ReferenceAt(select, 0) in VisibleReferences(select, 0);
  }

  lemma VisibleStep(select: Select, n: nat)
    requires select.base.Some? && n < |select.joins|
    ensures VisibleReferences(select, n + 1) == VisibleReferences(select, n) + {select.joins[n].source.Reference()}
    ensures ReferenceAt(select, n + 1) == select.joins[n].source.Reference()
  {
    assert ReferenceAt(select, n + 1) in VisibleReferences(select, n + 1);
  }

  lemma PassEnds(select: Select)
    requires select.base.Some?
    ensures PrefixExtended(select, |select.joins|) == NullExtended(select)
  {
    assert Kinds(select)[..|select.joins|] == Kinds(select);
  }

  lemma ExtendedStep(kinds: seq<string>, n: nat, i: nat)
    requires i <= n < |kinds|
    ensures Extended(kinds[..n + 1], i) <==> Extended(kinds[..n], i) || kinds[n] == "right" || kinds[n] == "full"
  {
    var a, b := kinds[..n], kinds[..n + 1];
    if kinds[n] == "right" || kinds[n] == "full" {
      assert b[n] == kinds[n];
    }
    forall k | i <= k < n && (a[k] == "right" || a[k] == "full") ensures Extended(b, i) {
      assert b[k] == a[k];
    }
  }

  lemma NewestExtended(kinds: seq<string>, n: nat)
    requires n < |kinds|
    ensures Extended(kinds[..n + 1], n + 1) <==> kinds[n] == "left" || kinds[n] == "full"
  {
  }

  /** What one more join adds. */
  lemma PrefixStep(select: Select, n: nat)
    requires select.base.Some? && n < |select.joins|
    ensures PrefixExtended(select, n + 1) == PrefixExtended(select, n)
      + (if select.joins[n].kind == "left" || select.joins[n].kind == "full" then {ReferenceAt(select, n + 1)} else {})
      + (if select.joins[n].kind == "right" || select.joins[n].kind == "full"
         then VisibleReferences(select, n) else {})
  {
    var kinds := Kinds(select);
    assert kinds[n] == select.joins[n].kind;
    forall i: nat | i <= n
      ensures Extended(kinds[..n + 1], i) <==> Extended(kinds[..n], i) || kinds[n] == "right" || kinds[n] == "full"
    {
      ExtendedStep(kinds, n, i);
    }
    NewestExtended(kinds, n);
    hide Extended;
  }

  /** A row of one table, and a row of the join: `None` where the source is NULL-extended. */
  type Tuple = map<string, int>
  type Joined = seq<Option<Tuple>>

  /** Tables by source index, and the predicate of each join. */
  datatype Database = Database(tables: seq<set<Tuple>>, predicates: seq<Joined -> bool>)

  ghost predicate Fits(db: Database, kinds: seq<string>) {
    |db.tables| == |kinds| + 1 && |db.predicates| == |kinds|
  }

  ghost predicate Matches(db: Database, kinds: seq<string>, n: nat, left: Joined, right: Tuple)
    requires Fits(db, kinds) && n < |kinds|
  {
    kinds[n] == "cross" || db.predicates[n](left + [Some(right)])
  }

  function Nulls(n: nat): (r: Joined)
    ensures |r| == n
  {
    seq(n, _ => None)
  }

  /** `row` is a result of the first `n` joins. */
  ghost predicate InChain(db: Database, kinds: seq<string>, n: nat, row: Joined)
    requires Fits(db, kinds) && n <= |kinds|
    decreases n, 0
  {
    |row| == n + 1 &&
    if n == 0 then
      row[0].Some? && row[0].value in db.tables[0]
    else
      var left, right := row[..n], row[n];
      || (right.Some? && right.value in db.tables[n] && InChain(db, kinds, n - 1, left)
          && Matches(db, kinds, n - 1, left, right.value))
      || ((kinds[n - 1] == "left" || kinds[n - 1] == "full") && right.None? && InChain(db, kinds, n - 1, left)
          && forall t :: t in db.tables[n] ==> !Matches(db, kinds, n - 1, left, t))
      || ((kinds[n - 1] == "right" || kinds[n - 1] == "full") && right.Some? && right.value in db.tables[n]
          && left == Nulls(n) && Unmatched(db, kinds, n - 1, right.value))
  }

  /** No row of the first `n` joins matches `right`. */
  ghost predicate Unmatched(db: Database, kinds: seq<string>, n: nat, right: Tuple)
    requires Fits(db, kinds) && n < |kinds|
    decreases n, 1
  {
    forall left :: InChain(db, kinds, n, left) ==> !Matches(db, kinds, n, left, right)
  }

  /** A source outside the set is present in every result row of every database. */
  lemma {:induction false} NeverExtended(db: Database, kinds: seq<string>, n: nat, row: Joined, i: nat)
    requires Fits(db, kinds) && i <= n <= |kinds| && InChain(db, kinds, n, row)
    requires !Extended(kinds[..n], i)
    ensures row[i].Some?
    decreases n
  {
    if n > 0 {
      if i == n {
        assert kinds[..n][n - 1] == kinds[n - 1];
      } else {
        ExtendedStep(kinds, n - 1, i);
        NeverExtended(db, kinds, n - 1, row[..n], i);
      }
    }
  }

  /**
   Where a result row begins: with FROM, or with a row of the right side that matched
   nothing to its left.
   */
  predicate IsCut(kinds: seq<string>, c: nat)
    requires c <= |kinds|
  {
    c == 0 || kinds[c - 1] == "right" || kinds[c - 1] == "full"
  }

  /** In a row that begins at `c`, source `i` is extended from the right, or by its own join. */
  predicate AbsentAfter(kinds: seq<string>, c: nat, i: nat)
    requires c <= |kinds| && i <= |kinds|
  {
    i < c || (i > c && (kinds[i - 1] == "left" || kinds[i - 1] == "full"))
  }

  /** An extended source is absent from the rows of some cut. */
  lemma ExtendedIsSomeCut(kinds: seq<string>, i: nat)
    requires i <= |kinds|
    ensures Extended(kinds, i) <==> exists c: nat :: c <= |kinds| && IsCut(kinds, c) && AbsentAfter(kinds, c, i)
  {
    if i > 0 && (kinds[i - 1] == "left" || kinds[i - 1] == "full") {
      assert IsCut(kinds, 0) && AbsentAfter(kinds, 0, i);
    } else if Extended(kinds, i) {
      var k :| i <= k < |kinds| && (kinds[k] == "right" || kinds[k] == "full");
      assert IsCut(kinds, k + 1) && AbsentAfter(kinds, k + 1, i);
    }
    forall c: nat | c <= |kinds| && IsCut(kinds, c) && AbsentAfter(kinds, c, i) ensures Extended(kinds, i) {
      if i < c {
        assert i <= c - 1 < |kinds|;
      }
    }
  }

  /** The sources absent from one result row are absent together after one cut. */
  lemma {:induction false} RowHasCut(db: Database, kinds: seq<string>, n: nat, row: Joined) returns (c: nat)
    requires Fits(db, kinds) && n <= |kinds| && InChain(db, kinds, n, row)
    ensures c <= n && IsCut(kinds, c)
    ensures forall i :: 0 <= i <= n && row[i].None? ==> AbsentAfter(kinds, c, i)
    decreases n
  {
    c := 0;
    if n > 0 {
      if InChain(db, kinds, n - 1, row[..n]) && (row[n].Some? || kinds[n - 1] == "left" || kinds[n - 1] == "full") {
        c := RowHasCut(db, kinds, n - 1, row[..n]);
      } else {
        c := n;
      }
    }
  }

  /** One row per table; the join that begins the row, and outer joins behind it, match nothing. */
  function Witness(kinds: seq<string>, c: nat, rows: seq<Tuple>): (db: Database)
    requires |rows| == |kinds| + 1
    ensures Fits(db, kinds)
  {
    Database(seq(|rows|, i requires 0 <= i < |rows| => {rows[i]}),
             seq(|kinds|, j requires 0 <= j < |kinds| =>
               if j + 1 == c || (j + 1 > c && (kinds[j] == "left" || kinds[j] == "full")) then Never else Always))
  }

  function Never(row: Joined): bool {
    false
  }

  function Always(row: Joined): bool {
    true
  }

  /** The row in which everything that can be absent after a cut is absent. */
  function WitnessRow(kinds: seq<string>, c: nat, rows: seq<Tuple>, n: nat): (r: Joined)
    requires c <= |kinds| && |rows| == |kinds| + 1 && n <= |kinds|
    ensures |r| == n + 1
  {
    seq(n + 1, i requires 0 <= i <= n => if AbsentAfter(kinds, c, i) then None else Some(rows[i]))
  }

  lemma {:induction false} WitnessInChain(kinds: seq<string>, c: nat, rows: seq<Tuple>, n: nat)
    requires c <= n <= |kinds| && |rows| == |kinds| + 1 && IsCut(kinds, c)
    requires forall k :: k in kinds ==> k in JOIN_KINDS
    ensures InChain(Witness(kinds, c, rows), kinds, n, WitnessRow(kinds, c, rows, n))
    decreases n
  {
    var db, row := Witness(kinds, c, rows), WitnessRow(kinds, c, rows, n);
    if n == c {
      if n > 0 {
        assert row[..n] == Nulls(n);
        assert Unmatched(db, kinds, n - 1, rows[n]);
      }
    } else {
      WitnessInChain(kinds, c, rows, n - 1);
      assert row[..n] == WitnessRow(kinds, c, rows, n - 1);
      assert kinds[n - 1] in kinds;
    }
  }

  /** Every source inside the set is NULL-extended in some result row of some database. */
  lemma CanBeExtended(kinds: seq<string>, i: nat) returns (db: Database, row: Joined)
    requires i <= |kinds| && Extended(kinds, i) && forall k :: k in kinds ==> k in JOIN_KINDS
    ensures Fits(db, kinds) && InChain(db, kinds, |kinds|, row) && row[i].None?
  {
    ExtendedIsSomeCut(kinds, i);
    var c: nat :| c <= |kinds| && IsCut(kinds, c) && AbsentAfter(kinds, c, i);
    var rows: seq<Tuple> := seq(|kinds| + 1, _ => map[]);
    WitnessInChain(kinds, c, rows, |kinds|);
    db, row := Witness(kinds, c, rows), WitnessRow(kinds, c, rows, |kinds|);
  }

  ghost predicate Reaches(db: Database, kinds: seq<string>, row: Joined, i: nat) {
    Fits(db, kinds) && i <= |kinds| && InChain(db, kinds, |kinds|, row) && row[i].None?
  }

  /** The analysis is exact, source by source. */
  lemma ExtensionIsExact(kinds: seq<string>, i: nat)
    requires i <= |kinds| && forall k :: k in kinds ==> k in JOIN_KINDS
    ensures Extended(kinds, i) <==> exists db, row :: Reaches(db, kinds, row, i)
  {
    assert kinds[..|kinds|] == kinds;
    if Extended(kinds, i) {
      var db, row := CanBeExtended(kinds, i);
      assert Reaches(db, kinds, row, i);
    } else {
      forall db, row | Reaches(db, kinds, row, i) ensures false {
        NeverExtended(db, kinds, |kinds|, row, i);
      }
    }
  }


  /** Each FROM/JOIN source has its own correlation name. */
  predicate DistinctReferences(select: Select)
    requires select.base.Some?
  {
    forall i, j :: 0 <= i < j <= |select.joins| ==> ReferenceAt(select, i) != ReferenceAt(select, j)
  }

  lemma KnownKinds(select: Select)
    requires KindsKnown(select)
    ensures forall k :: k in Kinds(select) ==> k in JOIN_KINDS
  {
    forall k | k in Kinds(select) ensures k in JOIN_KINDS {
      var j :| 0 <= j < |select.joins| && Kinds(select)[j] == k;
      assert select.joins[j] in select.joins;
    }
  }

  /** The same, for the names the analysis returns. */
  lemma NamesAreExact(select: Select, i: nat)
    requires select.base.Some? && KindsKnown(select) && DistinctReferences(select) && i <= |select.joins|
    ensures ReferenceAt(select, i) in NullExtended(select) <==> exists db, row :: Reaches(db, Kinds(select), row, i)
  {
    KnownKinds(select);
    ExtensionIsExact(Kinds(select), i);
  }

  /** The sources whose NULL rows make an expression NULL. */
  function NullableResultSources(node: Node): set<string>
    decreases node, 0
  {
    match node
    case Column(source, _) => {source}
    case NullableResult(_) => {}
    case Alias(expression, _) => NullableResultSources(expression)
    case UuidCast(operand) => NullableResultSources(operand)
    case Binary(left, operator, right) =>
      if operator in ARITHMETIC then NullableResultSources(left) + NullableResultSources(right) else {}
    case Arithmetic(timestamp, _, interval) => NullableResultSources(timestamp) + NullableResultSources(interval)
    case TemporalInfix(left, _, right) => NullableResultSources(left) + NullableResultSources(right)
    case TemporalCall(_, arguments) => NullableArguments(arguments)
    case MakeInterval(components) => NullableComponents(components)
    case NegatedInterval(interval) => NullableResultSources(interval)
    case Extract(_, expression) => NullableResultSources(expression)
    case Trunc(_, expression, zone) => NullableResultSources(expression) + NullableOption(zone)
    case Bin(stride, expression, origin) =>
      NullableResultSources(stride) + NullableResultSources(expression) + NullableResultSources(origin)
    case Case(branches, otherwise) => NullableResultSources(otherwise) + NullableBranches(branches)
    case _ => {}
  }

  const ARITHMETIC: set<string> := {"+", "-", "*", "/"}

  function NullableOption(node: Option<Node>): set<string>
    decreases node
  {
    if node.None? then {} else NullableResultSources(node.value)
  }

  function NullableArguments(nodes: seq<Node>): set<string>
    decreases nodes
  {
    if nodes == [] then {} else NullableResultSources(nodes[0]) + NullableArguments(nodes[1..])
  }

  function NullableComponent(cell: Cell): set<string>
    decreases cell
  {
    NullableResultSources(cell.value)
  }

  function NullableComponents(cells: seq<Cell>): set<string>
    decreases cells
  {
    if cells == [] then {} else NullableComponent(cells[0]) + NullableComponents(cells[1..])
  }

  /** Only the value of a branch reaches the result. */
  function NullableBranch(branch: Branch): set<string>
    decreases branch
  {
    NullableResultSources(branch.value)
  }

  function NullableBranches(branches: seq<Branch>): set<string>
    decreases branches
  {
    if branches == [] then {} else NullableBranch(branches[0]) + NullableBranches(branches[1..])
  }

  /** Every projection acknowledges the outer joins it depends on. */
  predicate ProjectedNullability(select: Select) {
    forall e :: e in select.selections ==> NullableResultSources(e) !! NullExtended(select)
  }

  /** How values and operators are interpreted; `None` is SQL NULL. */
  datatype Interpretation = Interpretation(
    literal: Value -> int, apply: (string, int, int) -> Option<int>, cast: int -> int, temporal: (Node, seq<int>) -> int,
    test: (string, Option<int>) -> int, isTrue: int -> bool, other: Node -> Option<int>)

  /**
   What the builders' types say: the columns that are never None, and the operators that have a
   value whenever their operands do.  Division is not one of them where a zero divisor is NULL.
   */
  datatype Typing = Typing(columns: set<(string, string)>, total: set<string>)

  /** The four operators that compute a number from two. */
  predicate Arithmetical(operator: string) {
    operator == "+" || operator == "-" || operator == "*" || operator == "/"
  }

  /** Only such operators are ever typed by their operands. */
  predicate Typed(typing: Typing) {
    forall o :: o in typing.total ==> Arithmetical(o)
  }

  ghost predicate Total(i: Interpretation, typing: Typing) {
    && Typed(typing)
    && forall operator, a: Option<int>, b: Option<int> :: operator in typing.total && a.Some? && b.Some? ==>
         Strict(i, operator, a, b).Some?
  }

  /** Temporal nodes whose value is computed from the values of all their operands. */
  predicate Pointwise(node: Node) {
    node.Clock? || node.Arithmetic? || node.TemporalInfix? || node.TemporalCall? || node.MakeInterval?
    || node.NegatedInterval? || node.Extract? || node.Trunc? || node.Bin?
  }

  /** The row of each source: `None` where the source is NULL-extended. */
  type Environment = string -> Option<Tuple>

  function Strict(i: Interpretation, operator: string, a: Option<int>, b: Option<int>): Option<int> {
    if a.Some? && b.Some? then i.apply(operator, a.value, b.value) else None
  }

  /** The value of an expression on one row; other expressions mean whatever `other` says. */
  function Evaluate(node: Node, env: Environment, i: Interpretation): Option<int>
    decreases node, 1
  {
    if Pointwise(node) then
      var operands := AllPresent(EvaluateAll(node, env, i));
      if operands.Some? then Some(i.temporal(node, operands.value)) else None
    else
    match node
    case Column(source, name) =>
      if env(source).Some? && name in env(source).value then Some(env(source).value[name]) else None
    case Bound(value) => if value.Null? then None else Some(i.literal(value))
    case Binary(left, operator, right) =>
      if Arithmetical(operator) then Strict(i, operator, Evaluate(left, env, i), Evaluate(right, env, i))
      else i.other(node)
    case Unary(operator, operand) =>
      if operator in IS_CHECKS then Some(i.test(operator, Evaluate(operand, env, i))) else i.other(node)
    case Case(branches, otherwise) => EvaluateCase(branches, otherwise, env, i)
    case Function(name, arguments) => if name == "coalesce" then Coalesce(arguments, env, i) else i.other(node)
    case Alias(expression, _) => Evaluate(expression, env, i)
    case NullableResult(expression) => Evaluate(expression, env, i)
    case UuidCast(operand) =>
      var value := Evaluate(operand, env, i);
      if value.Some? then Some(i.cast(value.value)) else None
    case _ => i.other(node)
  }

  /** The operands' values, if they all have one. */
  function AllPresent(values: seq<Option<int>>): Option<seq<int>> {
    if forall k :: 0 <= k < |values| ==> values[k].Some?
    then Some(seq(|values|, k requires 0 <= k < |values| => values[k].value)) else None
  }

  function EvaluateAll(node: Node, env: Environment, i: Interpretation): (r: seq<Option<int>>)
    ensures |r| == |Children(node)|
    ensures forall k :: 0 <= k < |r| ==>
      r[k] == (assert Children(node)[k] in Children(node); Evaluate(Children(node)[k], env, i))
    decreases node, 0
  {
    seq(|Children(node)|, k requires 0 <= k < |Children(node)| =>
      assert Children(node)[k] in Children(node);
      Evaluate(Children(node)[k], env, i))
  }

  const IS_CHECKS: set<string> := {"is null", "is not null", "is true", "is false", "is not true", "is not false"}

  function EvaluateBranch(branch: Branch, env: Environment, i: Interpretation): (r: (bool, Option<int>))
    decreases branch
  {
    var condition := Evaluate(branch.condition, env, i);
    (condition.Some? && i.isTrue(condition.value), Evaluate(branch.value, env, i))
  }

  function EvaluateBranches(branches: seq<Branch>, env: Environment, i: Interpretation): Option<Option<int>>
    decreases branches
  {
    if branches == [] then None
    else
      var (chosen, value) := EvaluateBranch(branches[0], env, i);
      if chosen then Some(value) else EvaluateBranches(branches[1..], env, i)
  }

  function EvaluateCase(branches: seq<Branch>, otherwise: Node, env: Environment, i: Interpretation): Option<int>
    decreases Case(branches, otherwise), 0
  {
    var chosen := EvaluateBranches(branches, env, i);
    if chosen.Some? then chosen.value else Evaluate(otherwise, env, i)
  }

  function Coalesce(arguments: seq<Node>, env: Environment, i: Interpretation): Option<int>
    decreases arguments
  {
    if arguments == [] then None
    else
      var first := Evaluate(arguments[0], env, i);
      if first.Some? then first else Coalesce(arguments[1..], env, i)
  }

  /** The builder types the expression as never None, given the columns declared so. */
  predicate NonOptional(node: Node, typing: Typing)
    decreases node, 0
  {
    match node
    case Column(source, name) => (source, name) in typing.columns
    case Bound(value) => !value.Null?
    case Binary(left, operator, right) =>
      operator in typing.total && NonOptional(left, typing) && NonOptional(right, typing)
    case Unary(operator, _) => operator in IS_CHECKS
    case Case(branches, otherwise) => NonOptional(otherwise, typing) && NonOptionalBranches(branches, typing)
    case Alias(expression, _) => NonOptional(expression, typing)
    case UuidCast(operand) => NonOptional(operand, typing)
    case _ => Pointwise(node) && forall c :: c in Children(node) ==> NonOptional(c, typing)
  }

  predicate NonOptionalBranch(branch: Branch, typing: Typing)
    decreases branch
  {
    NonOptional(branch.value, typing)
  }

  predicate NonOptionalBranches(branches: seq<Branch>, typing: Typing)
    decreases branches
  {
    branches == [] || (NonOptionalBranch(branches[0], typing) && NonOptionalBranches(branches[1..], typing))
  }

  /** Declared columns of sources outside `nullable` have values. */
  ghost predicate Supplies(env: Environment, typing: Typing, nullable: set<string>) {
    forall d :: d in typing.columns && d.0 !in nullable ==> env(d.0).Some? && d.1 in env(d.0).value
  }

  lemma NullOperator(i: Interpretation, typing: Typing, operator: string, a: Option<int>, b: Option<int>)
    requires Total(i, typing) && operator in typing.total
    ensures Arithmetical(operator)
    ensures Strict(i, operator, a, b).None? <==> a.None? || b.None?
  {
  }

  lemma {:induction false} NonOptionalHasValue(node: Node, env: Environment, i: Interpretation,
                                               typing: Typing, nullable: set<string>)
    requires NonOptional(node, typing) && NullableResultSources(node) !! nullable
    requires Supplies(env, typing, nullable) && Total(i, typing)
    ensures Evaluate(node, env, i).Some?
    decreases node, 0
  {
    if Pointwise(node) {
      forall c | c in Children(node) ensures Evaluate(c, env, i).Some? {
        OperandSources(node, c);
        NonOptionalHasValue(c, env, i, typing, nullable);
      }
      NullOperand(node, env, i);
      return;
    }
    match node
    case Column(source, name) =>
      assert source in NullableResultSources(node);
    case Binary(left, operator, right) =>
      NonOptionalHasValue(left, env, i, typing, nullable);
      NonOptionalHasValue(right, env, i, typing, nullable);
      NullOperator(i, typing, operator, Evaluate(left, env, i), Evaluate(right, env, i));
    case Case(branches, otherwise) =>
      BranchesHaveValue(branches, env, i, typing, nullable);
      NonOptionalHasValue(otherwise, env, i, typing, nullable);
    case Alias(expression, _) =>
      NonOptionalHasValue(expression, env, i, typing, nullable);
    case UuidCast(operand) =>
      NonOptionalHasValue(operand, env, i, typing, nullable);
    case _ =>
  }

  lemma {:induction false} ArgumentSources(nodes: seq<Node>, s: string)
    ensures s in NullableArguments(nodes) <==> exists c :: c in nodes && s in NullableResultSources(c)
  {
    hide NullableResultSources;
    if nodes != [] {
      ArgumentSources(nodes[1..], s);
      assert nodes == [nodes[0]] + nodes[1..];
      assert s in NullableArguments(nodes) <==> s in NullableResultSources(nodes[0]) || s in NullableArguments(nodes[1..]);
      if c :| c in nodes && s in NullableResultSources(c) {
        assert c == nodes[0] || c in nodes[1..];
      }
    }
  }

  lemma {:induction false} ComponentSources(cells: seq<Cell>, s: string)
    ensures s in NullableComponents(cells) <==> exists k :: 0 <= k < |cells| && s in NullableResultSources(cells[k].value)
  {
    if cells != [] {
      ComponentSources(cells[1..], s);
      assert cells == [cells[0]] + cells[1..];
    }
  }

  /** A temporal expression is NULL exactly when an operand is. */
  lemma NullOperand(node: Node, env: Environment, i: Interpretation)
    requires Pointwise(node)
    ensures Evaluate(node, env, i).None? <==> exists c :: c in Children(node) && Evaluate(c, env, i).None?
  {
    var values := EvaluateAll(node, env, i);
    assert Evaluate(node, env, i).None? <==> AllPresent(values).None?;
    if c :| c in Children(node) && Evaluate(c, env, i).None? {
      var k :| 0 <= k < |values| && Children(node)[k] == c;
      assert values[k].None?;
    }
  }

  /** A temporal expression inherits the sources of each of its operands. */
  lemma OperandSources(node: Node, c: Node)
    requires Pointwise(node) && c in Children(node)
    ensures NullableResultSources(c) <= NullableResultSources(node)
  {
    forall s | s in NullableResultSources(c) ensures s in NullableResultSources(node) {
      match node
      case TemporalCall(_, arguments) => ArgumentSources(arguments, s);
      case MakeInterval(components) =>
        var k :| 0 <= k < |components| && CellValues(components)[k] == c;
        assert components[k].value == c;
        ComponentSources(components, s);
      case _ =>
    }
  }

  /** And nothing else. */
  lemma SourceOfOperand(node: Node, s: string)
    requires Pointwise(node) && s in NullableResultSources(node)
    ensures exists c :: c in Children(node) && s in NullableResultSources(c)
  {
    match node
    case Clock(_) =>
    case Arithmetic(timestamp, _, interval) => assert timestamp in Children(node) && interval in Children(node);
    case TemporalInfix(left, _, right) => assert left in Children(node) && right in Children(node);
    case TemporalCall(_, arguments) => ArgumentSources(arguments, s);
    case MakeInterval(components) =>
      ComponentSources(components, s);
      var k :| 0 <= k < |components| && s in NullableResultSources(components[k].value);
      assert CellValues(components)[k] in Children(node);
    case NegatedInterval(interval) => assert interval in Children(node);
    case Extract(_, expression) => assert expression in Children(node);
    case Trunc(_, expression, zone) =>
      assert expression in Children(node) && (zone.Some? ==> zone.value in Children(node));
    case Bin(stride, expression, origin) =>
      assert stride in Children(node) && expression in Children(node) && origin in Children(node);
  }

  lemma BranchHasValue(branch: Branch, env: Environment, i: Interpretation,
                       typing: Typing, nullable: set<string>)
    requires NonOptionalBranch(branch, typing) && NullableBranch(branch) !! nullable
    requires Supplies(env, typing, nullable) && Total(i, typing)
    ensures EvaluateBranch(branch, env, i).1.Some?
    decreases branch
  {
    NonOptionalHasValue(branch.value, env, i, typing, nullable);
  }

  lemma {:induction false} BranchesHaveValue(branches: seq<Branch>, env: Environment, i: Interpretation,
                                             typing: Typing, nullable: set<string>)
    requires NonOptionalBranches(branches, typing) && NullableBranches(branches) !! nullable
    requires Supplies(env, typing, nullable) && Total(i, typing)
    ensures EvaluateBranches(branches, env, i).Some? ==> EvaluateBranches(branches, env, i).value.Some?
    decreases branches
  {
    if branches != [] {
      BranchHasValue(branches[0], env, i, typing, nullable);
      BranchesHaveValue(branches[1..], env, i, typing, nullable);
    }
  }

  /** Tables hold a value in every column declared non-null, and only local columns are declared. */
  ghost predicate Conforms(db: Database, select: Select, typing: Typing)
    requires select.base.Some? && Fits(db, Kinds(select))
  {
    && (forall d :: d in typing.columns ==> d.0 in VisibleReferences(select, |select.joins|))
    && forall d, i, t ::
         d in typing.columns && 0 <= i <= |select.joins| && d.0 == ReferenceAt(select, i) && t in db.tables[i] ==> d.1 in t
  }

  /** `env` gives each local source its part of the joined row. */
  ghost predicate Presents(env: Environment, select: Select, row: Joined)
    requires select.base.Some? && |row| == |select.joins| + 1
  {
    forall i :: 0 <= i <= |select.joins| ==> env(ReferenceAt(select, i)) == row[i]
  }

  lemma {:induction false} RowsComeFromTables(db: Database, kinds: seq<string>, n: nat, row: Joined, i: nat)
    requires Fits(db, kinds) && i <= n <= |kinds| && InChain(db, kinds, n, row) && row[i].Some?
    ensures row[i].value in db.tables[i]
    decreases n
  {
    if n > 0 && i < n {
      assert row[..n][i] == row[i];
      if InChain(db, kinds, n - 1, row[..n]) {
        RowsComeFromTables(db, kinds, n - 1, row[..n], i);
      }
    }
  }

  /**
   An accepted projection whose builder type excludes None is never NULL, on any row the
   join chain can produce.
   */
  lemma ProjectionIsNeverNull(select: Select, e: Node, db: Database, row: Joined, env: Environment,
                              i: Interpretation, typing: Typing)
    requires select.base.Some? && KindsKnown(select)
    requires ProjectedNullability(select) && e in select.selections && NonOptional(e, typing)
    requires Fits(db, Kinds(select)) && Conforms(db, select, typing)
    requires InChain(db, Kinds(select), |select.joins|, row) && Presents(env, select, row) && Total(i, typing)
    ensures Evaluate(e, env, i).Some?
  {
    forall d | d in typing.columns && d.0 !in NullExtended(select) ensures env(d.0).Some? && d.1 in env(d.0).value {
      assert d.0 in VisibleReferences(select, |select.joins|);
      var k :| 0 <= k <= |select.joins| && ReferenceAt(select, k) == d.0;
      assert !Extended(Kinds(select), k);
      assert Kinds(select)[..|select.joins|] == Kinds(select);
      NeverExtended(db, Kinds(select), |select.joins|, row, k);
      RowsComeFromTables(db, Kinds(select), |select.joins|, row, k);
      assert env(ReferenceAt(select, k)) == row[k];
    }
    NonOptionalHasValue(e, env, i, typing, NullExtended(select));
  }

  /** Rejecting a bare column is justified: some database makes it NULL. */
  lemma RejectedColumnCanBeNull(select: Select, k: nat, name: string, i: Interpretation) returns (db: Database,
                                row: Joined)
    requires select.base.Some? && KindsKnown(select) && DistinctReferences(select) && k <= |select.joins|
    requires !(NullableResultSources(Column(ReferenceAt(select, k), name)) !! NullExtended(select))
    ensures Fits(db, Kinds(select)) && InChain(db, Kinds(select), |select.joins|, row)
    ensures forall env :: Presents(env, select, row) ==> Evaluate(Column(ReferenceAt(select, k), name), env, i).None?
  {
    NamesAreExact(select, k);
    db, row :| Reaches(db, Kinds(select), row, k);
    forall env | Presents(env, select, row) ensures Evaluate(Column(ReferenceAt(select, k), name), env, i).None? {
      assert env(ReferenceAt(select, k)) == row[k];
    }
  }

  // ---- When an expression can be NULL -----------------------------------------------------------

  /**
   The expression can be NULL where the `absent` sources are NULL-extended.  A `coalesce` needs
   all its arguments to be, so it is not enough to know each of them.
   */
  predicate CanBeNull(node: Node, typing: Typing, absent: set<string>)
    decreases node, 0
  {
    match node
    case Column(source, name) => (source, name) !in typing.columns || source in absent
    case Bound(value) => value.Null?
    case Binary(left, operator, right) =>
      operator in typing.total ==> CanBeNull(left, typing, absent) || CanBeNull(right, typing, absent)
    case Unary(operator, _) => operator !in IS_CHECKS
    case Case(branches, otherwise) => CanBeNull(otherwise, typing, absent) || SomeBranchCanBeNull(branches, typing, absent)
    case Function(name, arguments) => name == "coalesce" ==> AllCanBeNull(arguments, typing, absent)
    case Alias(expression, _) => CanBeNull(expression, typing, absent)
    case NullableResult(expression) => CanBeNull(expression, typing, absent)
    case UuidCast(operand) => CanBeNull(operand, typing, absent)
    case _ => Pointwise(node) ==> exists c :: c in Children(node) && CanBeNull(c, typing, absent)
  }

  predicate AllCanBeNull(nodes: seq<Node>, typing: Typing, absent: set<string>)
    decreases nodes
  {
    nodes == [] || (CanBeNull(nodes[0], typing, absent) && AllCanBeNull(nodes[1..], typing, absent))
  }

  predicate BranchCanBeNull(branch: Branch, typing: Typing, absent: set<string>)
    decreases branch
  {
    CanBeNull(branch.value, typing, absent)
  }

  predicate SomeBranchCanBeNull(branches: seq<Branch>, typing: Typing, absent: set<string>)
    decreases branches
  {
    branches != [] && (BranchCanBeNull(branches[0], typing, absent) || SomeBranchCanBeNull(branches[1..], typing, absent))
  }

  /** Neither a CASE, whose branch only its conditions decide, nor anything left to the database. */
  predicate Straight(node: Node, typing: Typing)
    decreases node, 0
  {
    match node
    case Column(_, _) => true
    case Bound(_) => true
    case Binary(left, operator, right) => operator in typing.total && Straight(left, typing) && Straight(right, typing)
    case Unary(operator, _) => operator in IS_CHECKS
    case Function(name, arguments) => name == "coalesce" && AllStraight(arguments, typing)
    case Alias(expression, _) => Straight(expression, typing)
    case NullableResult(expression) => Straight(expression, typing)
    case UuidCast(operand) => Straight(operand, typing)
    case _ => Pointwise(node) && forall c :: c in Children(node) ==> Straight(c, typing)
  }

  predicate AllStraight(nodes: seq<Node>, typing: Typing)
    decreases nodes
  {
    nodes == [] || (Straight(nodes[0], typing) && AllStraight(nodes[1..], typing))
  }

  lemma {:induction false} NullOnlyWhereAbsent(node: Node, env: Environment, i: Interpretation,
                                               typing: Typing, absent: set<string>)
    requires Supplies(env, typing, absent) && Total(i, typing) && Evaluate(node, env, i).None?
    ensures CanBeNull(node, typing, absent)
    decreases node, 0
  {
    if Pointwise(node) {
      NullOperand(node, env, i);
      var c :| c in Children(node) && Evaluate(c, env, i).None?;
      NullOnlyWhereAbsent(c, env, i, typing, absent);
      return;
    }
    match node
    case Binary(left, operator, right) =>
      if operator in typing.total {
        NullOperator(i, typing, operator, Evaluate(left, env, i), Evaluate(right, env, i));
        if Evaluate(left, env, i).None? {
          NullOnlyWhereAbsent(left, env, i, typing, absent);
        } else {
          NullOnlyWhereAbsent(right, env, i, typing, absent);
        }
      }
    case Function(name, arguments) =>
      if name == "coalesce" {
        AllOnlyWhereAbsent(arguments, env, i, typing, absent);
      }
    case Case(branches, otherwise) =>
      if EvaluateBranches(branches, env, i).Some? {
        BranchesOnlyWhereAbsent(branches, env, i, typing, absent);
      } else {
        NullOnlyWhereAbsent(otherwise, env, i, typing, absent);
      }
    case Alias(expression, _) => NullOnlyWhereAbsent(expression, env, i, typing, absent);
    case NullableResult(expression) => NullOnlyWhereAbsent(expression, env, i, typing, absent);
    case UuidCast(operand) => NullOnlyWhereAbsent(operand, env, i, typing, absent);
    case _ =>
  }

  lemma {:induction false} AllOnlyWhereAbsent(nodes: seq<Node>, env: Environment, i: Interpretation,
                                              typing: Typing, absent: set<string>)
    requires Supplies(env, typing, absent) && Total(i, typing) && Coalesce(nodes, env, i).None?
    ensures AllCanBeNull(nodes, typing, absent)
    decreases nodes
  {
    if nodes != [] {
      NullOnlyWhereAbsent(nodes[0], env, i, typing, absent);
      AllOnlyWhereAbsent(nodes[1..], env, i, typing, absent);
    }
  }

  lemma {:induction false} BranchesOnlyWhereAbsent(branches: seq<Branch>, env: Environment, i: Interpretation,
                                                   typing: Typing, absent: set<string>)
    requires Supplies(env, typing, absent) && Total(i, typing) && EvaluateBranches(branches, env, i) == Some(None)
    ensures SomeBranchCanBeNull(branches, typing, absent)
    decreases branches
  {
    if EvaluateBranch(branches[0], env, i).0 {
      BranchOnlyWhereAbsent(branches[0], env, i, typing, absent);
    } else {
      BranchesOnlyWhereAbsent(branches[1..], env, i, typing, absent);
    }
  }

  lemma {:induction false} BranchOnlyWhereAbsent(branch: Branch, env: Environment, i: Interpretation,
                                                 typing: Typing, absent: set<string>)
    requires Supplies(env, typing, absent) && Total(i, typing) && EvaluateBranch(branch, env, i).1.None?
    ensures BranchCanBeNull(branch, typing, absent)
    decreases branch
  {
    NullOnlyWhereAbsent(branch.value, env, i, typing, absent);
  }

  /** The absent sources have no row, and no column that is not declared has a value. */
  ghost predicate Withholds(env: Environment, typing: Typing, absent: set<string>) {
    forall source, name :: (source, name) !in typing.columns || source in absent ==>
      env(source).None? || name !in env(source).value
  }

  lemma {:induction false} NullWhereAbsent(node: Node, env: Environment, i: Interpretation,
                                           typing: Typing, absent: set<string>)
    requires Withholds(env, typing, absent) && Typed(typing)
    requires Straight(node, typing) && CanBeNull(node, typing, absent)
    ensures Evaluate(node, env, i).None?
    decreases node, 0
  {
    if Pointwise(node) {
      var c :| c in Children(node) && CanBeNull(c, typing, absent);
      NullWhereAbsent(c, env, i, typing, absent);
      NullOperand(node, env, i);
      return;
    }
    match node
    case Binary(left, operator, right) =>
      if CanBeNull(left, typing, absent) {
        NullWhereAbsent(left, env, i, typing, absent);
      } else {
        NullWhereAbsent(right, env, i, typing, absent);
      }
    case Function(_, arguments) => AllNullWhereAbsent(arguments, env, i, typing, absent);
    case Alias(expression, _) => NullWhereAbsent(expression, env, i, typing, absent);
    case NullableResult(expression) => NullWhereAbsent(expression, env, i, typing, absent);
    case UuidCast(operand) => NullWhereAbsent(operand, env, i, typing, absent);
    case _ =>
  }

  lemma {:induction false} AllNullWhereAbsent(nodes: seq<Node>, env: Environment, i: Interpretation,
                                              typing: Typing, absent: set<string>)
    requires Withholds(env, typing, absent) && Typed(typing)
    requires AllStraight(nodes, typing) && AllCanBeNull(nodes, typing, absent)
    ensures Coalesce(nodes, env, i).None?
    decreases nodes
  {
    if nodes != [] {
      NullWhereAbsent(nodes[0], env, i, typing, absent);
      AllNullWhereAbsent(nodes[1..], env, i, typing, absent);
    }
  }

  /** The names absent from the rows that begin at `c`. */
  function AbsentNames(select: Select, c: nat): set<string>
    requires select.base.Some? && c <= |select.joins|
  {
    set i | 0 <= i <= |select.joins| && AbsentAfter(Kinds(select), c, i) :: ReferenceAt(select, i)
  }

  /** Tables that hold what is declared, and a result row of theirs on which the expression is NULL. */
  ghost predicate NullSomewhere(select: Select, e: Node, typing: Typing, i: Interpretation,
                                db: Database, row: Joined, env: Environment)
    requires select.base.Some?
  {
    && Fits(db, Kinds(select)) && Conforms(db, select, typing)
    && InChain(db, Kinds(select), |select.joins|, row) && Presents(env, select, row)
    && Evaluate(e, env, i).None?
  }

  ghost predicate NullAfterCut(select: Select, e: Node, typing: Typing, c: nat)
    requires select.base.Some?
  {
    c <= |select.joins| && IsCut(Kinds(select), c) && CanBeNull(e, typing, AbsentNames(select, c))
  }

  /** An expression that is NULL on some row can be NULL after some cut. */
  lemma NullNeedsCut(select: Select, e: Node, typing: Typing, i: Interpretation,
                     db: Database, row: Joined, env: Environment) returns (c: nat)
    requires Total(i, typing)
    requires select.base.Some? && NullSomewhere(select, e, typing, i, db, row, env)
    ensures NullAfterCut(select, e, typing, c)
  {
    c := RowHasCut(db, Kinds(select), |select.joins|, row);
    forall d | d in typing.columns && d.0 !in AbsentNames(select, c) ensures env(d.0).Some? && d.1 in env(d.0).value {
      assert d.0 in VisibleReferences(select, |select.joins|);
      var k :| 0 <= k <= |select.joins| && ReferenceAt(select, k) == d.0;
      assert !AbsentAfter(Kinds(select), c, k);
      RowsComeFromTables(db, Kinds(select), |select.joins|, row, k);
      assert env(ReferenceAt(select, k)) == row[k];
    }
    NullOnlyWhereAbsent(e, env, i, typing, AbsentNames(select, c));
  }

  ghost function RowOf(select: Select, row: Joined, source: string): Option<Tuple>
    requires select.base.Some? && |row| == |select.joins| + 1
  {
    if k :| 0 <= k <= |select.joins| && ReferenceAt(select, k) == source then row[k] else None
  }

  /** Tables that hold just what is declared. */
  function DeclaredRow(typing: Typing, source: string): Tuple {
    map d | d in typing.columns && d.0 == source :: d.1 := 0
  }

  /** After a cut, every source that can be absent is absent in one row of one database. */
  lemma CutIsReached(select: Select, e: Node, typing: Typing, i: Interpretation, c: nat)
    returns (db: Database, row: Joined, env: Environment)
    requires Typed(typing)
    requires select.base.Some? && KindsKnown(select) && DistinctReferences(select) && Straight(e, typing)
    requires forall d :: d in typing.columns ==> d.0 in VisibleReferences(select, |select.joins|)
    requires NullAfterCut(select, e, typing, c)
    ensures NullSomewhere(select, e, typing, i, db, row, env)
  {
    var kinds, m := Kinds(select), |select.joins|;
    var rows := seq(m + 1, k requires 0 <= k <= m => DeclaredRow(typing, ReferenceAt(select, k)));
    KnownKinds(select);
    WitnessInChain(kinds, c, rows, m);
    db, row := Witness(kinds, c, rows), WitnessRow(kinds, c, rows, m);
    ghost var present := row;
    env := source => RowOf(select, present, source);
    CutWithholds(select, typing, c, rows, env);
    hide InChain, IsCut, AbsentAfter, Evaluate, CanBeNull, Straight, Withholds, AbsentNames;
    NullWhereAbsent(e, env, i, typing, AbsentNames(select, c));
    assert Conforms(db, select, typing);
  }

  lemma CutWithholds(select: Select, typing: Typing, c: nat, rows: seq<Tuple>, env: Environment)
    requires select.base.Some? && DistinctReferences(select) && c <= |select.joins|
    requires |rows| == |select.joins| + 1
    requires forall k :: 0 <= k < |rows| ==> rows[k] == DeclaredRow(typing, ReferenceAt(select, k))
    requires forall source :: env(source) == RowOf(select, WitnessRow(Kinds(select), c, rows, |select.joins|), source)
    ensures Presents(env, select, WitnessRow(Kinds(select), c, rows, |select.joins|))
    ensures Withholds(env, typing, AbsentNames(select, c))
  {
    var row := WitnessRow(Kinds(select), c, rows, |select.joins|);
    forall k | 0 <= k <= |select.joins| ensures env(ReferenceAt(select, k)) == row[k] {
    }
    forall source, name | (source, name) !in typing.columns || source in AbsentNames(select, c)
      ensures env(source).None? || name !in env(source).value
    {
      if source in AbsentNames(select, c) {
        var k :| 0 <= k <= |select.joins| && AbsentAfter(Kinds(select), c, k) && ReferenceAt(select, k) == source;
        assert env(ReferenceAt(select, k)) == row[k];
      }
    }
  }

  /** Exactly when an expression without CASE is NULL on some row the join chain can produce. */
  lemma NullIsExact(select: Select, e: Node, typing: Typing, i: Interpretation)
    requires Total(i, typing)
    requires select.base.Some? && KindsKnown(select) && DistinctReferences(select) && Straight(e, typing)
    requires forall d :: d in typing.columns ==> d.0 in VisibleReferences(select, |select.joins|)
    ensures (exists db, row, env :: NullSomewhere(select, e, typing, i, db, row, env)) <==>
            exists c: nat :: NullAfterCut(select, e, typing, c)
  {
    if db, row, env :| NullSomewhere(select, e, typing, i, db, row, env) {
      var c := NullNeedsCut(select, e, typing, i, db, row, env);
    } else if c: nat :| NullAfterCut(select, e, typing, c) {
      var db, row, env := CutIsReached(select, e, typing, i, c);
    }
  }

  lemma OperandsDecide(node: Node, typing: Typing, absent: set<string>)
    requires Pointwise(node)
    requires forall c :: c in Children(node) ==> (CanBeNull(c, typing, absent) <==> !(NullableResultSources(c) !! absent))
    ensures CanBeNull(node, typing, absent) <==> !(NullableResultSources(node) !! absent)
  {
    forall c | c in Children(node) ensures NullableResultSources(c) <= NullableResultSources(node) {
      OperandSources(node, c);
    }
    if s :| s in NullableResultSources(node) && s in absent {
      SourceOfOperand(node, s);
    }
    hide NullableResultSources;
  }

  /** A value the builder types as present can be NULL exactly where one of its sources is absent. */
  lemma {:induction false} SourcesDecide(node: Node, typing: Typing, absent: set<string>)
    requires NonOptional(node, typing) && Typed(typing)
    ensures CanBeNull(node, typing, absent) <==> !(NullableResultSources(node) !! absent)
    decreases node
  {
    if Pointwise(node) {
      forall c | c in Children(node) ensures CanBeNull(c, typing, absent) <==> !(NullableResultSources(c) !! absent) {
        SourcesDecide(c, typing, absent);
      }
      OperandsDecide(node, typing, absent);
      return;
    }
    match node
    case Column(source, _) => assert NullableResultSources(node) == {source};
    case Binary(left, _, right) =>
      SourcesDecide(left, typing, absent);
      SourcesDecide(right, typing, absent);
    case Alias(expression, _) => SourcesDecide(expression, typing, absent);
    case UuidCast(operand) => SourcesDecide(operand, typing, absent);
    case Case(branches, otherwise) =>
      BranchSourcesDecide(branches, typing, absent);
      SourcesDecide(otherwise, typing, absent);
    case _ =>
  }

  lemma {:induction false} BranchSourcesDecide(branches: seq<Branch>, typing: Typing, absent: set<string>)
    requires NonOptionalBranches(branches, typing) && Typed(typing)
    ensures SomeBranchCanBeNull(branches, typing, absent) <==> !(NullableBranches(branches) !! absent)
    decreases branches
  {
    if branches != [] {
      OneBranchDecides(branches[0], typing, absent);
      BranchSourcesDecide(branches[1..], typing, absent);
    }
  }

  lemma OneBranchDecides(branch: Branch, typing: Typing, absent: set<string>)
    requires NonOptionalBranch(branch, typing) && Typed(typing)
    ensures BranchCanBeNull(branch, typing, absent) <==> !(NullableBranch(branch) !! absent)
    decreases branch
  {
    SourcesDecide(branch.value, typing, absent);
  }

  /** After the cut, each of the arguments misses one of its sources. */
  ghost predicate AllAbsent(select: Select, arguments: seq<Node>, c: nat)
    requires select.base.Some?
  {
    && c <= |select.joins| && IsCut(Kinds(select), c)
    && forall a :: a in arguments ==> !(NullableResultSources(a) !! AbsentNames(select, c))
  }

  lemma {:induction false} AllDecide(arguments: seq<Node>, typing: Typing, absent: set<string>)
    requires Typed(typing) && forall a :: a in arguments ==> NonOptional(a, typing) && Straight(a, typing)
    ensures AllCanBeNull(arguments, typing, absent) <==>
            forall a :: a in arguments ==> !(NullableResultSources(a) !! absent)
    ensures AllStraight(arguments, typing)
  {
    if arguments != [] {
      SourcesDecide(arguments[0], typing, absent);
      AllDecide(arguments[1..], typing, absent);
    }
  }

  /**
   A `coalesce` of values the builder types as present is NULL on some row exactly when the
   join kinds let all its arguments be absent together.
   */
  lemma CoalesceIsExact(select: Select, arguments: seq<Node>, typing: Typing, i: Interpretation)
    requires Total(i, typing)
    requires select.base.Some? && KindsKnown(select) && DistinctReferences(select)
    requires forall d :: d in typing.columns ==> d.0 in VisibleReferences(select, |select.joins|)
    requires Typed(typing) && forall a :: a in arguments ==> NonOptional(a, typing) && Straight(a, typing)
    ensures (exists db, row, env :: NullSomewhere(select, Function("coalesce", arguments), typing, i, db, row, env)) <==>
            exists c: nat :: AllAbsent(select, arguments, c)
  {
    var e := Function("coalesce", arguments);
    forall c: nat ensures NullAfterCut(select, e, typing, c) <==> AllAbsent(select, arguments, c) {
      if c <= |select.joins| {
        AllDecide(arguments, typing, AbsentNames(select, c));
      }
    }
    AllDecide(arguments, typing, {});
    NullIsExact(select, e, typing, i);
  }

  /** The source a row begins with is present in it. */
  lemma BeginningIsPresent(select: Select, c: nat)
    requires select.base.Some? && DistinctReferences(select) && c <= |select.joins|
    ensures ReferenceAt(select, c) !in AbsentNames(select, c)
  {
  }

  /** A full join extends either side, but never both, so `coalesce` of a column of each has a value. */
  lemma FullJoinCoalesces(select: Select, x: string, y: string, i: Interpretation, db: Database, row: Joined, env: Environment)
    requires select.base.Some? && Kinds(select) == ["full"] && DistinctReferences(select)
    requires Fits(db, ["full"]) && InChain(db, ["full"], 1, row) && Presents(env, select, row)
    requires Conforms(db, select, Typing({(ReferenceAt(select, 0), x), (ReferenceAt(select, 1), y)}, {}))
    ensures Evaluate(Function("coalesce", [Column(ReferenceAt(select, 0), x), Column(ReferenceAt(select, 1), y)]), env, i).Some?
    ensures NullExtended(select) == {ReferenceAt(select, 0), ReferenceAt(select, 1)}
  {
    var a, b := ReferenceAt(select, 0), ReferenceAt(select, 1);
    var arguments, typing := [Column(a, x), Column(b, y)], Typing({(a, x), (b, y)}, {});
    assert select.joins[0].kind == "full" by { assert Kinds(select)[0] == "full"; }
    FullExtendsBoth(select);
    forall c: nat ensures !AllAbsent(select, arguments, c) {
      if c <= 1 {
        BeginningIsPresent(select, c);
        assert arguments[c] in arguments && NullableResultSources(arguments[c]) == {ReferenceAt(select, c)};
      }
    }
    CoalesceIsExact(select, arguments, typing, i);
    assert !NullSomewhere(select, Function("coalesce", arguments), typing, i, db, row, env);
  }

  lemma FullExtendsBoth(select: Select)
    requires select.base.Some? && Kinds(select) == ["full"]
    ensures NullExtended(select) == {ReferenceAt(select, 0), ReferenceAt(select, 1)}
  {
    assert Kinds(select)[0] == "full" && Extended(Kinds(select), 0) && Extended(Kinds(select), 1);
  }

  /** Function calls are never flagged: an accepted `coalesce` of non-null columns can still be NULL. */
  lemma CoalesceEscapes(i: Interpretation) returns (select: Select, db: Database, row: Joined)
    ensures select.base.Some? && KindsKnown(select) && DistinctReferences(select) && ProjectedNullability(select)
    ensures select.selections == [Function("coalesce", [Column("b", "x"), Column("b", "y")])]
    ensures Fits(db, Kinds(select)) && Conforms(db, select, Typing({("b", "x"), ("b", "y")}, {}))
    ensures InChain(db, Kinds(select), |select.joins|, row)
    ensures forall env :: Presents(env, select, row) ==> Evaluate(select.selections[0], env, i).None?
  {
    var a, b := Stored(Table("a", None, None)), Stored(Table("b", None, None));
    var arguments := [Column("b", "x"), Column("b", "y")];
    select := Select([Function("coalesce", arguments)], Some(a), [Join(b, Bound(Bool(false)), "left")],
                     None, [], None, [], None, None, false, [], [], []);
    db := Database([{map[]}, {}], [Never]);
    row := [Some(map[]), None];
    assert Kinds(select) == ["left"];
    assert row[..1] == [Some(map[])];
    assert InChain(db, Kinds(select), 0, row[..1]);
    assert ReferenceAt(select, 0) == "a" && ReferenceAt(select, 1) == "b";
    assert ReferenceAt(select, 1) in VisibleReferences(select, 1);
    forall env | Presents(env, select, row) ensures Evaluate(select.selections[0], env, i).None? {
      assert env(ReferenceAt(select, 1)) == row[1];
      assert Evaluate(arguments[0], env, i).None? && Evaluate(arguments[1], env, i).None?;
      assert arguments[1..] == [arguments[1]] && arguments[1..][1..] == [];
      assert Coalesce(arguments[1..], env, i).None?;
    }
  }
}

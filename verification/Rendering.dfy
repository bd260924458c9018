/**
 Properties of rendered documents, read off the syntax tree.  Two follow for every
 statement the compiler accepts: no assertion can fire while it is rendered, and, for
 `?` placeholders, values reach their places exactly when no window binds on both sides.
 */
module Rendering {
  import opened Options
  import opened Ast
  import opened Document
  import opened Render
  import opened Scopes
  import opened Validation
  import opened Coverage

  /** No assertion and no index error anywhere in the document. */
  predicate Safe(doc: Doc) {
    match doc
    case Empty | Raw(_) | Bind(_) => true
    case Raise(fault) => fault.ValueFault?
    case Paren(inner) => Safe(inner)
    case Seq(first, second) => Safe(first) && Safe(second)
    case Swapped(first, second) => Safe(first) && Safe(second)
  }

  predicate Holds(p: Property, doc: Doc) {
    match p
    case InOrder => Ordered(doc)
    case NoCrash => Safe(doc)
    case NoTemporal => true
  }

  lemma {:induction false} SafeFaults(doc: Doc)
    requires Safe(doc)
    ensures FirstFault(doc).None? || FirstFault(doc) == Some(ValueFault)
  {
    match doc
    case Empty | Raise(_) | Raw(_) | Bind(_) =>
    case Paren(inner) =>
      SafeFaults(inner);
    case Seq(first, second) =>
      SafeFaults(first);
      SafeFaults(second);
    case Swapped(first, second) =>
      SafeFaults(first);
      SafeFaults(second);
  }

  lemma {:induction false} BindlessIsOrdered(doc: Doc)
    requires Binds(doc) == []
    ensures Ordered(doc)
  {
    match doc
    case Empty | Raise(_) | Raw(_) | Bind(_) =>
    case Paren(inner) =>
      BindlessIsOrdered(inner);
    case Seq(first, second) =>
      assert |Binds(first)| + |Binds(second)| == 0;
      BindlessIsOrdered(first);
      BindlessIsOrdered(second);
    case Swapped(first, second) =>
      assert |Binds(second)| + |Binds(first)| == 0;
      BindlessIsOrdered(first);
      BindlessIsOrdered(second);
  }

  /** The property of a document from its parts. */
  lemma Parts(p: Property)
    ensures forall a, b {:trigger Holds(p, Seq(a, b))} :: Holds(p, Seq(a, b)) <==> Holds(p, a) && Holds(p, b)
    ensures forall a, b {:trigger Holds(p, Swapped(a, b))} ::
      Holds(p, Swapped(a, b)) <==> Holds(p, a) && Holds(p, b) && (p.InOrder? ==> Binds(a) == [] || Binds(b) == [])
    ensures forall d {:trigger Holds(p, Paren(d))} :: Holds(p, Paren(d)) <==> Holds(p, d)
    ensures forall t: Token {:trigger Holds(p, Raw(t))} :: Holds(p, Raw(t))
    ensures forall v: Value {:trigger Holds(p, Bind(v))} :: Holds(p, Bind(v))
    ensures forall f: Fault {:trigger Holds(p, Raise(f))} :: Holds(p, Raise(f)) <==> (p.NoCrash? ==> f.ValueFault?)
    ensures Holds(p, Empty)
  {
  }

  predicate NodeHolds(p: Property, node: Node, dialect: Dialect) {
    Holds(p, NodeDoc(node, dialect))
  }

  predicate AllHold(p: Property, nodes: seq<Node>, dialect: Dialect) {
    forall n :: n in nodes ==> NodeHolds(p, n, dialect)
  }

  lemma AllHoldFirst(p: Property, nodes: seq<Node>, dialect: Dialect)
    requires nodes != []
    ensures AllHold(p, nodes, dialect) <==> NodeHolds(p, nodes[0], dialect) && AllHold(p, nodes[1..], dialect)
  {
    hide NodeHolds;
    assert nodes == [nodes[0]] + nodes[1..];
  }

  lemma {:induction false} ListHolds(p: Property, nodes: seq<Node>, dialect: Dialect)
    ensures Holds(p, ListDoc(nodes, dialect)) <==> AllHold(p, nodes, dialect)
    decreases |nodes|
  {
    Parts(p);
    hide Holds, NodeDoc, AllHold;
    if nodes == [] {
      NothingHolds(p, dialect);
    } else {
      AllHoldFirst(p, nodes, dialect);
      ListHolds(p, nodes[1..], dialect);
      if |nodes| == 1 {
        assert nodes[1..] == [];
        NothingHolds(p, dialect);
      }
    }
  }

  lemma NothingHolds(p: Property, dialect: Dialect)
    ensures AllHold(p, [], dialect)
  {
  }

  lemma {:induction false} ComponentsHold(p: Property, cells: seq<Cell>, dialect: Dialect)
    ensures Holds(p, ComponentsDoc(cells, dialect)) <==> AllHold(p, CellValues(cells), dialect)
    decreases |cells|
  {
    Parts(p);
    hide Holds, NodeDoc, AllHold;
    if cells == [] {
      assert CellValues(cells) == [];
      NothingHolds(p, dialect);
    } else {
      assert CellValues(cells)[1..] == CellValues(cells[1..]);
      AllHoldFirst(p, CellValues(cells), dialect);
      ComponentsHold(p, cells[1..], dialect);
      if |cells| == 1 {
        assert CellValues(cells[1..]) == [];
        NothingHolds(p, dialect);
      }
    }
  }

  lemma {:induction false} CellsHold(p: Property, cells: seq<Cell>, dialect: Dialect)
    ensures Holds(p, CellsDoc(cells, dialect)) <==> AllHold(p, CellValues(cells), dialect)
    decreases |cells|
  {
    Parts(p);
    hide Holds, NodeDoc, AllHold;
    if cells == [] {
      assert CellValues(cells) == [];
      NothingHolds(p, dialect);
    } else {
      assert CellValues(cells)[1..] == CellValues(cells[1..]);
      AllHoldFirst(p, CellValues(cells), dialect);
      CellsHold(p, cells[1..], dialect);
      if |cells| == 1 {
        assert CellValues(cells[1..]) == [];
        NothingHolds(p, dialect);
      }
    }
  }

  lemma {:induction false} AssignmentsHold(p: Property, cells: seq<Cell>, dialect: Dialect)
    ensures Holds(p, AssignmentsDoc(cells, dialect)) <==> AllHold(p, CellValues(cells), dialect)
    decreases |cells|
  {
    Parts(p);
    hide Holds, NodeDoc, AllHold;
    if cells == [] {
      assert CellValues(cells) == [];
      NothingHolds(p, dialect);
    } else {
      assert CellValues(cells)[1..] == CellValues(cells[1..]);
      AllHoldFirst(p, CellValues(cells), dialect);
      AssignmentsHold(p, cells[1..], dialect);
      if |cells| == 1 {
        assert CellValues(cells[1..]) == [];
        NothingHolds(p, dialect);
      }
    }
  }

  lemma AllHoldConcat(p: Property, a: seq<Node>, b: seq<Node>, dialect: Dialect)
    ensures AllHold(p, a + b, dialect) <==> AllHold(p, a, dialect) && AllHold(p, b, dialect)
  {
    hide NodeHolds;
    forall n ensures n in a + b <==> n in a || n in b {
    }
  }

  lemma {:induction false} RowsHold(p: Property, rows: seq<Row>, dialect: Dialect)
    ensures Holds(p, RowsDoc(rows, dialect)) <==> AllHold(p, RowValues(rows), dialect)
    decreases |rows|
  {
    Parts(p);
    hide Holds, NodeDoc, AllHold, CellsDoc;
    if rows == [] {
      NothingHolds(p, dialect);
    } else {
      CellsHold(p, rows[0].cells, dialect);
      RowsHold(p, rows[1..], dialect);
      AllHoldConcat(p, CellValues(rows[0].cells), RowValues(rows[1..]), dialect);
      if |rows| == 1 {
        assert RowValues(rows[1..]) == [];
        NothingHolds(p, dialect);
      }
    }
  }

  lemma {:induction false} BranchesHold(p: Property, branches: seq<Branch>, dialect: Dialect)
    ensures Holds(p, BranchesDoc(branches, dialect)) <==> AllHold(p, BranchNodes(branches), dialect)
    decreases |branches|
  {
    Parts(p);
    hide Holds, NodeDoc, AllHold;
    if branches == [] {
      NothingHolds(p, dialect);
    } else {
      var pair := [branches[0].condition, branches[0].value];
      PairHolds(p, branches[0].condition, branches[0].value, dialect);
      BranchesHold(p, branches[1..], dialect);
      AllHoldConcat(p, pair, BranchNodes(branches[1..]), dialect);
    }
  }

  lemma PairHolds(p: Property, a: Node, b: Node, dialect: Dialect)
    ensures AllHold(p, [a, b], dialect) <==> NodeHolds(p, a, dialect) && NodeHolds(p, b, dialect)
  {
    hide NodeHolds;
  }

  lemma PresentHolds(p: Property, node: Option<Node>, dialect: Dialect)
    ensures AllHold(p, Present(node), dialect) <==> (node.Some? ==> NodeHolds(p, node.value, dialect))
  {
    hide NodeHolds;
  }

  lemma {:induction false} OrdersHold(p: Property, orders: seq<Order>, dialect: Dialect)
    ensures Holds(p, OrdersDoc(orders, dialect)) <==> AllHold(p, OrderExpressions(orders), dialect)
    decreases |orders|
  {
    Parts(p);
    hide Holds, NodeDoc, AllHold;
    if orders == [] {
      assert OrderExpressions(orders) == [];
      NothingHolds(p, dialect);
    } else {
      assert OrderExpressions(orders)[1..] == OrderExpressions(orders[1..]);
      AllHoldFirst(p, OrderExpressions(orders), dialect);
      OrdersHold(p, orders[1..], dialect);
      if |orders| == 1 {
        assert OrderExpressions(orders[1..]) == [];
        NothingHolds(p, dialect);
      }
    }
  }

  lemma OrderByHolds(p: Property, orders: seq<Order>, dialect: Dialect)
    ensures Holds(p, OrderByDoc(orders, dialect)) <==> AllHold(p, OrderExpressions(orders), dialect)
  {
    Parts(p);
    hide Holds, NodeDoc, AllHold, OrdersDoc;
    OrdersHold(p, orders, dialect);
    if orders == [] {
      assert OrderExpressions(orders) == [];
      NothingHolds(p, dialect);
    }
  }

  lemma PartitionHolds(p: Property, nodes: seq<Node>, dialect: Dialect)
    ensures Holds(p, PartitionDoc(nodes, dialect)) <==> AllHold(p, nodes, dialect)
    ensures Holds(p, GroupByDoc(nodes, dialect)) <==> AllHold(p, nodes, dialect)
  {
    Parts(p);
    hide Holds, NodeDoc, AllHold, ListDoc;
    ListHolds(p, nodes, dialect);
    if nodes == [] {
      NothingHolds(p, dialect);
    }
  }

  lemma ReturningHolds(p: Property, nodes: seq<Node>, dialect: Dialect)
    ensures Holds(p, ReturningDoc(nodes, dialect)) <==> AllHold(p, nodes, dialect)
  {
    Parts(p);
    hide Holds, NodeDoc, AllHold, ListDoc;
    ListHolds(p, nodes, dialect);
    if nodes == [] {
      NothingHolds(p, dialect);
    }
  }

  lemma ClauseHolds(p: Property, keyword: string, node: Option<Node>, dialect: Dialect)
    ensures Holds(p, ClauseDoc(keyword, node, dialect)) <==> (node.Some? ==> NodeHolds(p, node.value, dialect))
  {
    Parts(p);
    hide Holds, NodeDoc;
  }

  lemma FrameHolds(p: Property, frame: Frame, orders: nat, exclusion: Option<string>)
    ensures Holds(p, FrameDoc(frame, orders, exclusion))
  {
    Parts(p);
    hide Holds;
  }

  /** A node's document from its operands and its own subquery. */
  predicate StepHolds(p: Property, node: Node, dialect: Dialect) {
    && NodeOk(p, node, dialect)
    && AllHold(p, Children(node), dialect)
    && (Subquery(node).Some? ==> Holds(p, SelectDoc(Subquery(node).value, dialect)))
  }

  lemma ClausesHold(p: Property, node: Node, dialect: Dialect)
    requires node.Window?
    ensures var clauses := ClausesDoc(node.partitionBy, node.orderBy, node.frame, node.exclusion, dialect);
      Holds(p, clauses) <==>
        AllHold(p, node.partitionBy, dialect) && AllHold(p, OrderExpressions(node.orderBy), dialect)
  {
    Parts(p);
    hide Holds, AllHold, PartitionDoc, OrderByDoc, FrameDoc, NodeDoc;
    PartitionHolds(p, node.partitionBy, dialect);
    OrderByHolds(p, node.orderBy, dialect);
    if node.frame.Some? {
      FrameHolds(p, node.frame.value, |node.orderBy|, node.exclusion);
    }
  }

  lemma ClausesBind(node: Node, dialect: Dialect)
    requires node.Window?
    ensures var clauses := ClausesDoc(node.partitionBy, node.orderBy, node.frame, node.exclusion, dialect);
      Binds(clauses) == [] <==>
        Binds(PartitionDoc(node.partitionBy, dialect)) == [] && Binds(OrderByDoc(node.orderBy, dialect)) == []
  {
    BindParts();
    hide Binds, PartitionDoc, OrderByDoc, FrameDoc, NodeDoc;
    if node.frame.Some? {
      FrameBindsNothing(node.frame.value, |node.orderBy|, node.exclusion);
    }
  }

  lemma WindowStep(p: Property, node: Node, dialect: Dialect)
    requires node.Window? && !p.NoTemporal?
    ensures NodeHolds(p, node, dialect) <==> StepHolds(p, node, dialect)
  {
    Parts(p);
    BindParts();
    hide Holds, Binds, AllHold, PartitionDoc, OrderByDoc, ClausesDoc, NodeDoc;
    var operands := [node.expression] + node.partitionBy;
    AllHoldConcat(p, operands, OrderExpressions(node.orderBy), dialect);
    AllHoldConcat(p, [node.expression], node.partitionBy, dialect);
    OneHolds(p, node.expression, dialect);
    ClausesHold(p, node, dialect);
    ClausesBind(node, dialect);
    WindowDoc(node, dialect);
  }

  lemma WindowDoc(node: Node, dialect: Dialect)
    requires node.Window?
    ensures NodeDoc(node, dialect) ==
      Swapped(NodeDoc(node.expression, dialect),
              Seq(Guard(node.exclusion.None? || node.frame.Some?, ValueFault),
              Seq(W("over"), Parenthesized(ClausesDoc(node.partitionBy, node.orderBy, node.frame, node.exclusion, dialect)))))
  {
  }

  lemma OneHolds(p: Property, node: Node, dialect: Dialect)
    ensures AllHold(p, [node], dialect) <==> NodeHolds(p, node, dialect)
  {
    hide NodeHolds;
  }

  lemma InfixStep(p: Property, node: Node, dialect: Dialect)
    requires !p.NoTemporal? && (node.Binary? || node.TemporalInfix? || node.PostgresInfix?)
    ensures NodeHolds(p, node, dialect) <==> StepHolds(p, node, dialect)
  {
    Parts(p);
    PairHolds(p, node.left, node.right, dialect);
    hide Holds, AllHold;
  }

  lemma IntervalHolds(p: Property, node: Node, dialect: Dialect)
    ensures Holds(p, IntervalDoc(node, dialect)) <==> NodeHolds(p, node, dialect)
    ensures Binds(IntervalDoc(node, dialect)) == [] <==> Binds(NodeDoc(node, dialect)) == []
  {
    Parts(p);
    BindParts();
    hide Holds, Binds, NodeDoc;
  }

  lemma ArithmeticStep(p: Property, node: Node, dialect: Dialect)
    requires !p.NoTemporal? && node.Arithmetic?
    ensures NodeHolds(p, node, dialect) <==> StepHolds(p, node, dialect)
  {
    Parts(p);
    BindParts();
    PairHolds(p, node.timestamp, node.interval, dialect);
    IntervalHolds(p, node.interval, dialect);
    hide Holds, AllHold, Binds, IntervalDoc;
  }

  lemma UnaryStep(p: Property, node: Node, dialect: Dialect)
    requires !p.NoTemporal?
    requires node.NegatedInterval? || node.Extract? || node.Unary? || node.Alias? || node.NullableResult? || node.UuidCast?
    ensures NodeHolds(p, node, dialect) <==> StepHolds(p, node, dialect)
  {
    Parts(p);
    OneHolds(p, Children(node)[0], dialect);
    hide Holds, AllHold;
  }

  lemma CallStep(p: Property, node: Node, dialect: Dialect)
    requires !p.NoTemporal? && (node.TemporalCall? || node.Function? || node.MakeInterval? || node.Aggregate?)
    ensures NodeHolds(p, node, dialect) <==> StepHolds(p, node, dialect)
  {
    Parts(p);
    hide Holds, AllHold, ListDoc, ComponentsDoc;
    match node
    case MakeInterval(components) =>
      ComponentsHold(p, components, dialect);
    case Aggregate(_, arguments, filter) =>
      ListHolds(p, arguments, dialect);
      AllHoldConcat(p, arguments, Present(filter), dialect);
      PresentHolds(p, filter, dialect);
    case TemporalCall(_, arguments) =>
      ListHolds(p, arguments, dialect);
    case Function(_, arguments) =>
      ListHolds(p, arguments, dialect);
  }

  lemma TruncStep(p: Property, node: Node, dialect: Dialect)
    requires !p.NoTemporal? && node.Trunc?
    ensures NodeHolds(p, node, dialect) <==> StepHolds(p, node, dialect)
  {
    Parts(p);
    AllHoldConcat(p, [node.expression], Present(node.zone), dialect);
    OneHolds(p, node.expression, dialect);
    PresentHolds(p, node.zone, dialect);
    hide Holds, AllHold;
  }

  lemma ThreeHold(p: Property, a: Node, b: Node, c: Node, dialect: Dialect)
    ensures AllHold(p, [a, b, c], dialect) <==>
              NodeHolds(p, a, dialect) && NodeHolds(p, b, dialect) && NodeHolds(p, c, dialect)
  {
    hide NodeHolds;
  }

  lemma BinStep(p: Property, node: Node, dialect: Dialect)
    requires !p.NoTemporal? && node.Bin?
    ensures NodeHolds(p, node, dialect) <==> StepHolds(p, node, dialect)
  {
    Parts(p);
    ThreeHold(p, node.stride, node.expression, node.origin, dialect);
    IntervalHolds(p, node.stride, dialect);
    hide Holds, AllHold, IntervalDoc;
  }

  lemma BetweenStep(p: Property, node: Node, dialect: Dialect)
    requires !p.NoTemporal? && node.Between?
    ensures NodeHolds(p, node, dialect) <==> StepHolds(p, node, dialect)
  {
    Parts(p);
    ThreeHold(p, node.expression, node.lower, node.upper, dialect);
    hide Holds, AllHold;
  }

  lemma OverlapsStep(p: Property, node: Node, dialect: Dialect)
    requires !p.NoTemporal? && node.Overlaps?
    ensures NodeHolds(p, node, dialect) <==> StepHolds(p, node, dialect)
  {
    Parts(p);
    hide Holds, AllHold, NodeDoc;
    PairHolds(p, node.leftStart, node.leftEnd, dialect);
    PairHolds(p, node.rightStart, node.rightEnd, dialect);
    AllHoldConcat(p, [node.leftStart, node.leftEnd], [node.rightStart, node.rightEnd], dialect);
    assert Children(node) == [node.leftStart, node.leftEnd] + [node.rightStart, node.rightEnd];
    OverlapsDoc(node, dialect);
  }

  lemma OverlapsDoc(node: Node, dialect: Dialect)
    requires node.Overlaps?
    ensures NodeDoc(node, dialect) == Infix(
      Parenthesized(Seq(NodeDoc(node.leftStart, dialect), Seq(Raw(Comma), NodeDoc(node.leftEnd, dialect)))),
      Operator("overlaps"),
      Parenthesized(Seq(NodeDoc(node.rightStart, dialect), Seq(Raw(Comma), NodeDoc(node.rightEnd, dialect)))))
  {
  }

  lemma CaseStep(p: Property, node: Node, dialect: Dialect)
    requires !p.NoTemporal? && node.Case?
    ensures NodeHolds(p, node, dialect) <==> StepHolds(p, node, dialect)
  {
    Parts(p);
    hide Holds, AllHold, BranchesDoc;
    BranchesHold(p, node.branches, dialect);
    OneHolds(p, node.otherwise, dialect);
    AllHoldConcat(p, BranchNodes(node.branches), [node.otherwise], dialect);
  }

  lemma MembershipStep(p: Property, node: Node, dialect: Dialect)
    requires !p.NoTemporal? && (node.In? || node.InQuery? || node.ScalarSubquery? || node.Exists?)
    ensures NodeHolds(p, node, dialect) <==> StepHolds(p, node, dialect)
  {
    Parts(p);
    hide Holds, AllHold, ListDoc, SelectDoc;
    match node
    case In(expression, values, _) =>
      ListHolds(p, values, dialect);
      OneHolds(p, expression, dialect);
      AllHoldConcat(p, [expression], values, dialect);
    case InQuery(expression, _, _) =>
      OneHolds(p, expression, dialect);
    case _ =>
      NothingHolds(p, dialect);
  }

  lemma LeafStep(p: Property, node: Node, dialect: Dialect)
    requires !p.NoTemporal? && (node.Column? || node.Bound? || node.Clock? || node.Star? || node.Excluded?)
    ensures NodeHolds(p, node, dialect) <==> StepHolds(p, node, dialect)
  {
    Parts(p);
    NothingHolds(p, dialect);
    hide Holds, AllHold;
  }

  lemma NodeStep(p: Property, node: Node, dialect: Dialect)
    requires !p.NoTemporal?
    ensures NodeHolds(p, node, dialect) <==> StepHolds(p, node, dialect)
  {
    hide NodeHolds, StepHolds;
    match node
    case Column(_, _) | Bound(_) | Clock(_) | Star | Excluded(_, _) => LeafStep(p, node, dialect);
    case Binary(_, _, _) | TemporalInfix(_, _, _) | PostgresInfix(_, _, _) => InfixStep(p, node, dialect);
    case Arithmetic(_, _, _) => ArithmeticStep(p, node, dialect);
    case NegatedInterval(_) | Extract(_, _) | Unary(_, _) | Alias(_, _) | NullableResult(_) | UuidCast(_) =>
      UnaryStep(p, node, dialect);
    case TemporalCall(_, _) | Function(_, _) | MakeInterval(_) | Aggregate(_, _, _) => CallStep(p, node, dialect);
    case Trunc(_, _, _) => TruncStep(p, node, dialect);
    case Bin(_, _, _) => BinStep(p, node, dialect);
    case Between(_, _, _, _) => BetweenStep(p, node, dialect);
    case Overlaps(_, _, _, _) => OverlapsStep(p, node, dialect);
    case Case(_, _) => CaseStep(p, node, dialect);
    case Window(_, _, _, _, _) => WindowStep(p, node, dialect);
    case In(_, _, _) | InQuery(_, _, _) | ScalarSubquery(_) | Exists(_, _) => MembershipStep(p, node, dialect);
  }

  /** The documents of the subqueries in `selects`. */
  predicate SelectsHold(p: Property, selects: seq<Select>, dialect: Dialect) {
    forall q :: q in selects ==> Holds(p, SelectDoc(q, dialect))
  }

  /** What an expression's document needs: every node reached, and every subquery opened. */
  predicate TreeHolds(p: Property, e: Node, dialect: Dialect) {
    (forall n :: n in Walk(e) ==> NodeOk(p, n, dialect)) && SelectsHold(p, Subqueries(e), dialect)
  }

  lemma WalkStep(e: Node)
    ensures forall n :: n in Walk(e) <==> n == e || exists c :: c in Children(e) && n in Walk(c)
  {
    hide Walk, Children;
    forall n ensures n in Walk(e) <==> n == e || exists c :: c in Children(e) && n in Walk(c) {
      WalkReaches(e, n);
    }
  }

  lemma SubqueriesStep(e: Node)
    ensures forall q :: q in Subqueries(e) <==>
      Subquery(e) == Some(q) || exists c :: c in Children(e) && q in Subqueries(c)
  {
    WalkStep(e);
    hide Walk, Children, Subquery;
    forall q ensures q in Subqueries(e) <==>
      Subquery(e) == Some(q) || exists c :: c in Children(e) && q in Subqueries(c)
    {
      if q in Subqueries(e) {
        var n :| n in Walk(e) && Subquery(n) == Some(q);
        if n != e {
          var c :| c in Children(e) && n in Walk(c);
          assert q in Subqueries(c);
        }
      }
      if Subquery(e) == Some(q) {
        assert e in Walk(e);
      }
      forall c | c in Children(e) && q in Subqueries(c) ensures q in Subqueries(e) {
        var n :| n in Walk(c) && Subquery(n) == Some(q);
        assert n in Walk(e);
      }
    }
  }

  lemma TreeStep(p: Property, e: Node, dialect: Dialect)
    ensures TreeHolds(p, e, dialect) <==>
      && NodeOk(p, e, dialect)
      && (Subquery(e).Some? ==> Holds(p, SelectDoc(Subquery(e).value, dialect)))
      && forall c :: c in Children(e) ==> TreeHolds(p, c, dialect)
  {
    WalkStep(e);
    SubqueriesStep(e);
    hide Holds, NodeOk, Walk, Children, Subquery, Subqueries;
  }

  lemma {:induction false} NodeTree(p: Property, e: Node, dialect: Dialect)
    requires !p.NoTemporal?
    ensures NodeHolds(p, e, dialect) <==> TreeHolds(p, e, dialect)
    decreases e
  {
    NodeStep(p, e, dialect);
    TreeStep(p, e, dialect);
    hide NodeHolds, TreeHolds, NodeOk, Holds, Walk;
    forall c | c in Children(e) ensures NodeHolds(p, c, dialect) <==> TreeHolds(p, c, dialect) {
      NodeTree(p, c, dialect);
    }
  }

  lemma NodesTree(p: Property, expressions: seq<Node>, dialect: Dialect)
    requires !p.NoTemporal?
    ensures AllHold(p, expressions, dialect) <==>
              NodesOk(p, expressions, dialect) && SelectsHold(p, AllSubqueries(expressions), dialect)
  {
    hide NodeHolds, NodeOk, Holds, Walk, Subqueries;
    forall e | e in expressions ensures NodeHolds(p, e, dialect) <==> TreeHolds(p, e, dialect) {
      NodeTree(p, e, dialect);
    }
    if AllHold(p, expressions, dialect) {
      forall q | q in AllSubqueries(expressions) ensures Holds(p, SelectDoc(q, dialect)) {
        var e :| e in expressions && q in Subqueries(e);
        assert TreeHolds(p, e, dialect);
      }
      forall e, n | e in expressions && n in Walk(e) ensures NodeOk(p, n, dialect) {
        assert TreeHolds(p, e, dialect);
      }
    }
    if NodesOk(p, expressions, dialect) && SelectsHold(p, AllSubqueries(expressions), dialect) {
      forall e | e in expressions ensures TreeHolds(p, e, dialect) {
        forall q | q in Subqueries(e) ensures Holds(p, SelectDoc(q, dialect)) {
          assert q in AllSubqueries(expressions);
        }
      }
    }
  }

  // ---- Statements ------------------------------------------------------------------------------

  lemma TableHolds(p: Property, table: Table, dialect: Dialect)
    ensures Holds(p, TableDoc(table, dialect)) && Binds(TableDoc(table, dialect)) == []
  {
    Parts(p);
    BindParts();
    hide Holds, Binds;
  }

  lemma {:induction false} NamesHold(p: Property, names: seq<string>)
    ensures Holds(p, NamesDoc(names))
    decreases |names|
  {
    Parts(p);
    hide Holds;
    if |names| > 1 {
      NamesHold(p, names[1..]);
    }
  }

  lemma SourceHolds(p: Property, source: Source, dialect: Dialect)
    ensures Holds(p, SourceDoc(source, dialect)) <==> SelectsHold(p, DerivedQueries([source]), dialect)
  {
    Parts(p);
    hide Holds, TableDoc, SelectDoc;
    assert [source][1..] == [];
    if source.Stored? {
      TableHolds(p, source.table, dialect);
    }
    assert DerivedQueries([source]) == if source.Derived? then [source.query] else [];
  }

  lemma SelectsHoldConcat(p: Property, a: seq<Select>, b: seq<Select>, dialect: Dialect)
    ensures SelectsHold(p, a + b, dialect) <==> SelectsHold(p, a, dialect) && SelectsHold(p, b, dialect)
  {
    hide Holds, SelectDoc;
    forall q ensures q in a + b <==> q in a || q in b {
    }
  }

  function JoinSources(joins: seq<Join>): (r: seq<Source>)
    ensures |r| == |joins|
  {
    seq(|joins|, i requires 0 <= i < |joins| => joins[i].source)
  }

  lemma DerivedFirst(sources: seq<Source>)
    ensures DerivedQueries(sources) ==
            if sources == [] then []
            else (if sources[0].Derived? then [sources[0].query] else []) + DerivedQueries(sources[1..])
  {
  }

  lemma {:induction false} DerivedConcat(a: seq<Source>, b: seq<Source>)
    ensures DerivedQueries(a + b) == DerivedQueries(a) + DerivedQueries(b)
  {
    hide DerivedQueries;
    DerivedFirst(a);
    DerivedFirst(a + b);
    if a == [] {
      assert a + b == b;
    } else {
      DerivedConcat(a[1..], b);
      assert (a + b)[0] == a[0] && (a + b)[1..] == a[1..] + b;
    }
  }

  lemma {:induction false} JoinsHold(p: Property, joins: seq<Join>, dialect: Dialect)
    ensures Holds(p, JoinsDoc(joins, dialect)) <==>
              AllHold(p, RenderedOns(joins), dialect) && SelectsHold(p, DerivedQueries(JoinSources(joins)), dialect)
    decreases |joins|
  {
    Parts(p);
    hide Holds, AllHold, SelectsHold, SourceDoc, NodeDoc, DerivedQueries, TableDoc;
    if joins == [] {
      assert JoinSources(joins) == [];
      NothingHolds(p, dialect);
      NoSelects(p, dialect);
    } else {
      JoinsHold(p, joins[1..], dialect);
      SourceHolds(p, joins[0].source, dialect);
      var first := if joins[0].kind == "cross" then [] else [joins[0].on];
      NothingHolds(p, dialect);
      OneHolds(p, joins[0].on, dialect);
      AllHoldConcat(p, first, RenderedOns(joins[1..]), dialect);
      assert JoinSources(joins) == [joins[0].source] + JoinSources(joins[1..]);
      DerivedConcat([joins[0].source], JoinSources(joins[1..]));
      SelectsHoldConcat(p, DerivedQueries([joins[0].source]), DerivedQueries(JoinSources(joins[1..])), dialect);
    }
  }

  lemma NoSelects(p: Property, dialect: Dialect)
    ensures SelectsHold(p, [], dialect) && DerivedQueries([]) == []
  {
  }

  lemma {:induction false} CompoundsHold(p: Property, compounds: seq<Compound>, dialect: Dialect)
    ensures Holds(p, CompoundsDoc(compounds, dialect)) <==> SelectsHold(p, Arms(compounds), dialect)
    decreases |compounds|
  {
    Parts(p);
    hide Holds, SelectsHold, SelectDoc;
    if compounds == [] {
      assert Arms(compounds) == [];
      NoSelects(p, dialect);
    } else {
      CompoundsHold(p, compounds[1..], dialect);
      OneSelect(p, compounds[0].query, dialect);
      assert Arms(compounds) == [compounds[0].query] + Arms(compounds[1..]);
      SelectsHoldConcat(p, [compounds[0].query], Arms(compounds[1..]), dialect);
    }
  }

  lemma OneSelect(p: Property, select: Select, dialect: Dialect)
    ensures SelectsHold(p, [select], dialect) <==> Holds(p, SelectDoc(select, dialect))
  {
    hide Holds, SelectDoc;
  }

  predicate CtesHold(p: Property, ctes: seq<Cte>, dialect: Dialect) {
    forall c :: c in ctes ==> Holds(p, QueryDoc(c.query, dialect))
  }

  lemma {:induction false} WithHolds(p: Property, ctes: seq<Cte>, dialect: Dialect)
    ensures Holds(p, CtesDoc(ctes, dialect)) <==> CtesHold(p, ctes, dialect)
    ensures Holds(p, WithDoc(ctes, dialect)) <==> CtesHold(p, ctes, dialect)
    decreases |ctes|
  {
    Parts(p);
    hide Holds, QueryDoc;
    if ctes != [] {
      WithHolds(p, ctes[1..], dialect);
      assert ctes == [ctes[0]] + ctes[1..];
    }
  }

  lemma {:induction false} LocksHold(p: Property, locks: seq<Lock>)
    ensures Holds(p, LocksDoc(locks))
    decreases |locks|
  {
    Parts(p);
    hide Holds, NamesDoc;
    if locks != [] {
      LocksHold(p, locks[1..]);
      NamesHold(p, References(locks[0].tables));
    }
  }

  lemma ProjectionHolds(p: Property, select: Select, dialect: Dialect)
    ensures Holds(p, ProjectionDoc(select, dialect)) <==>
              AllHold(p, select.selections, dialect) && AllHold(p, RenderedOns(select.joins), dialect)
              && SelectsHold(p, DerivedQueries(Sources(select)), dialect)
  {
    Parts(p);
    hide Holds, AllHold, SelectsHold, ListDoc, JoinsDoc, SourceDoc, DerivedQueries;
    ListHolds(p, select.selections, dialect);
    JoinsHold(p, select.joins, dialect);
    var base := if select.base.Some? then [select.base.value] else [];
    assert Sources(select) == base + JoinSources(select.joins);
    DerivedConcat(base, JoinSources(select.joins));
    SelectsHoldConcat(p, DerivedQueries(base), DerivedQueries(JoinSources(select.joins)), dialect);
    if select.base.Some? {
      SourceHolds(p, select.base.value, dialect);
    } else {
      NoSelects(p, dialect);
    }
  }

  lemma FilterHolds(p: Property, select: Select, dialect: Dialect)
    ensures Holds(p, FilterDoc(select, dialect)) <==>
              AllHold(p, Present(select.condition), dialect) && AllHold(p, select.groupBy, dialect)
              && AllHold(p, Present(select.having), dialect)
  {
    Parts(p);
    hide Holds, AllHold, ClauseDoc, GroupByDoc, NodeHolds;
    ClauseHolds(p, "where", select.condition, dialect);
    ClauseHolds(p, "having", select.having, dialect);
    PresentHolds(p, select.condition, dialect);
    PresentHolds(p, select.having, dialect);
    PartitionHolds(p, select.groupBy, dialect);
  }

  lemma TailHolds(p: Property, select: Select, dialect: Dialect)
    ensures Holds(p, TailDoc(select, dialect)) <==>
              AllHold(p, OrderExpressions(select.orderBy), dialect) && SelectsHold(p, Arms(select.compounds), dialect)
  {
    Parts(p);
    hide Holds, AllHold, SelectsHold, OrderByDoc, LocksDoc, CompoundsDoc;
    OrderByHolds(p, select.orderBy, dialect);
    LocksHold(p, select.locks);
    CompoundsHold(p, select.compounds, dialect);
  }

  lemma RenderedHold(p: Property, select: Select, dialect: Dialect)
    ensures AllHold(p, RenderedExpressions(select), dialect) <==>
      && AllHold(p, select.selections, dialect) && AllHold(p, RenderedOns(select.joins), dialect)
      && AllHold(p, Present(select.condition), dialect) && AllHold(p, select.groupBy, dialect)
      && AllHold(p, Present(select.having), dialect) && AllHold(p, OrderExpressions(select.orderBy), dialect)
  {
    hide AllHold, RenderedOns, OrderExpressions;
    var a := select.selections + RenderedOns(select.joins);
    var b := a + Present(select.condition);
    var c := b + select.groupBy;
    var d := c + Present(select.having);
    AllHoldConcat(p, select.selections, RenderedOns(select.joins), dialect);
    AllHoldConcat(p, a, Present(select.condition), dialect);
    AllHoldConcat(p, b, select.groupBy, dialect);
    AllHoldConcat(p, c, Present(select.having), dialect);
    AllHoldConcat(p, d, OrderExpressions(select.orderBy), dialect);
  }

  lemma SelectStep(p: Property, select: Select, dialect: Dialect)
    requires !p.NoTemporal?
    ensures Holds(p, SelectDoc(select, dialect)) <==>
      && SelectOk(p, select) && CtesHold(p, select.ctes, dialect)
      && AllHold(p, RenderedExpressions(select), dialect)
      && SelectsHold(p, DerivedQueries(Sources(select)), dialect)
      && SelectsHold(p, Arms(select.compounds), dialect)
  {
    Parts(p);
    hide Holds, AllHold, SelectsHold, CtesHold, WithDoc, ProjectionDoc, FilterDoc, TailDoc, RenderedExpressions;
    hide Sources;
    WithHolds(p, select.ctes, dialect);
    ProjectionHolds(p, select, dialect);
    FilterHolds(p, select, dialect);
    TailHolds(p, select, dialect);
    RenderedHold(p, select, dialect);
  }

  /** A SELECT's document is as good as the tree below it. */
  lemma {:induction false} SelectTree(p: Property, select: Select, dialect: Dialect)
    requires !p.NoTemporal?
    ensures Holds(p, SelectDoc(select, dialect)) <==> Everywhere(p, select, dialect)
    decreases select, 0
  {
    hide Holds, AllHold, NodesOk, SelectDoc, QueryDoc, RenderedExpressions, Sources, InnerQueries;
    hide DerivedQueries, AllSubqueries, Arms;
    hide CtesHold, SelectsHold, SelectOk, EverywhereCte;
    SelectStep(p, select, dialect);
    NodesTree(p, RenderedExpressions(select), dialect);
    CtesTree(p, select, dialect);
    RenderedParts(select);
    SelectsTree(p, DerivedQueries(Sources(select)), select, dialect);
    SelectsTree(p, Arms(select.compounds), select, dialect);
    SelectsTree(p, AllSubqueries(RenderedExpressions(select)), select, dialect);
  }

  lemma SelectsTree(p: Property, selects: seq<Select>, parent: Select, dialect: Dialect)
    requires !p.NoTemporal? && forall q :: q in selects ==> q < parent
    ensures SelectsHold(p, selects, dialect) <==> forall q :: q in selects ==> Everywhere(p, q, dialect)
    decreases parent, 0, 1
  {
    hide Holds, SelectDoc, Everywhere;
    forall q | q in selects ensures Holds(p, SelectDoc(q, dialect)) <==> Everywhere(p, q, dialect) {
      SelectTree(p, q, dialect);
    }
  }

  lemma CtesTree(p: Property, select: Select, dialect: Dialect)
    requires !p.NoTemporal?
    ensures CtesHold(p, select.ctes, dialect) <==>
              forall i :: 0 <= i < |select.ctes| ==> EverywhereCte(p, select.ctes[i], dialect)
    decreases select, 0, 1
  {
    hide Holds, QueryDoc, EverywhereCte;
    forall i | 0 <= i < |select.ctes|
      ensures Holds(p, QueryDoc(select.ctes[i].query, dialect)) <==> EverywhereCte(p, select.ctes[i], dialect)
    {
      CteTree(p, select.ctes[i], dialect);
    }
  }

  lemma RenderedParts(select: Select)
    ensures forall q :: q in DerivedQueries(Sources(select)) ==> q < select
    ensures forall q :: q in Arms(select.compounds) ==> q < select && q in InnerQueries(select)
    ensures forall q :: q in AllSubqueries(RenderedExpressions(select)) ==> q < select
  {
    InnerParts(select);
  }

  lemma {:induction false} CteTree(p: Property, cte: Cte, dialect: Dialect)
    requires !p.NoTemporal?
    ensures Holds(p, QueryDoc(cte.query, dialect)) <==> EverywhereCte(p, cte, dialect)
    decreases cte, 1
  {
    hide Holds, SelectDoc;
    match cte.query
    case SelectQuery(select) => SelectTree(p, select, dialect);
    case _ => DmlTree(p, cte.query, dialect);
  }

  lemma OrderedPredicate(node: Node)
    ensures Holds(InOrder, PredicateDoc(node))
  {
    PredicateBindsNothing(node);
    BindlessIsOrdered(PredicateDoc(node));
  }

  lemma {:induction false} PredicateHolds(p: Property, node: Node)
    requires !p.NoTemporal?
    ensures Holds(p, PredicateDoc(node))
    decreases node
  {
    Parts(p);
    hide Holds, Ordered, Binds;
    if p.InOrder? {
      OrderedPredicate(node);
    } else {
      match node
      case Binary(left, _, right) =>
        PredicateHolds(p, left);
        PredicateHolds(p, right);
      case Unary(_, operand) =>
        PredicateHolds(p, operand);
      case In(expression, values, _) =>
        PredicateHolds(p, expression);
        PredicatesHold(p, values);
      case Between(expression, lower, upper, _) =>
        PredicateHolds(p, expression);
        PredicateHolds(p, lower);
        PredicateHolds(p, upper);
      case _ =>
    }
  }

  lemma {:induction false} PredicatesHold(p: Property, nodes: seq<Node>)
    requires !p.NoTemporal?
    ensures Holds(p, PredicatesDoc(nodes))
    decreases nodes
  {
    Parts(p);
    hide Holds, PredicateDoc;
    if nodes != [] {
      PredicateHolds(p, nodes[0]);
      PredicatesHold(p, nodes[1..]);
    }
  }

  lemma TargetHolds(p: Property, conflict: Conflict)
    requires !p.NoTemporal?
    ensures Holds(p, TargetDoc(conflict)) <==> (p.NoCrash? && conflict.targetWhere.Some? ==> conflict.columns != [])
  {
    Parts(p);
    hide Holds, NamesDoc, PredicateDoc;
    NamesHold(p, conflict.columns);
    if conflict.targetWhere.Some? {
      PredicateHolds(p, conflict.targetWhere.value);
    }
  }

  lemma ActionHolds(p: Property, conflict: Conflict, dialect: Dialect)
    requires !p.NoTemporal?
    ensures Holds(p, ActionDoc(conflict, dialect)) <==>
      && (p.NoCrash? && conflict.action == "nothing" ==> conflict.updateWhere.None?)
      && (conflict.action == "update" ==>
            AllHold(p, CellValues(conflict.updateValues), dialect) && AllHold(p, Present(conflict.updateWhere), dialect))
  {
    Parts(p);
    hide Holds, AllHold, AssignmentsDoc, ClauseDoc, NodeHolds;
    AssignmentsHold(p, conflict.updateValues, dialect);
    ClauseHolds(p, "where", conflict.updateWhere, dialect);
    PresentHolds(p, conflict.updateWhere, dialect);
  }

  /** The ON CONFLICT clause of an INSERT. */
  function ClauseOf(source: Option<InsertSource>, conflict: Option<Conflict>, dialect: Dialect): Doc {
    if source == Some(DefaultValues) then Empty else ConflictClauseDoc(conflict, dialect)
  }

  predicate ConflictOk(source: Option<InsertSource>, conflict: Option<Conflict>) {
    source != Some(DefaultValues) && conflict.Some? ==>
      && (conflict.value.targetWhere.Some? ==> conflict.value.columns != [])
      && (conflict.value.action == "nothing" ==> conflict.value.updateWhere.None?)
  }

  lemma ConflictHolds(p: Property, source: Option<InsertSource>, conflict: Option<Conflict>, dialect: Dialect)
    requires !p.NoTemporal?
    ensures Holds(p, ClauseOf(source, conflict, dialect)) <==>
              (p.NoCrash? ==> ConflictOk(source, conflict)) && AllHold(p, RenderedConflict(source, conflict), dialect)
  {
    Parts(p);
    hide Holds, AllHold, TargetDoc, ActionDoc;
    NothingHolds(p, dialect);
    if conflict.Some? {
      TargetHolds(p, conflict.value);
      ActionHolds(p, conflict.value, dialect);
      AllHoldConcat(p, CellValues(conflict.value.updateValues), Present(conflict.value.updateWhere), dialect);
      assert Holds(p, ConflictDoc(conflict.value, dialect)) <==>
        Holds(p, TargetDoc(conflict.value)) && Holds(p, ActionDoc(conflict.value, dialect));
      if source != Some(DefaultValues) {
        assert ClauseOf(source, conflict, dialect) == ConflictDoc(conflict.value, dialect);
      }
    }
  }

  predicate BodyOk(source: Option<InsertSource>) {
    source.Some? && (source.value.Rows? ==> source.value.rows != [])
  }

  lemma BodyHolds(p: Property, source: InsertSource, dialect: Dialect)
    requires !p.NoTemporal?
    ensures Holds(p, InsertBody(source, dialect)) <==>
      && (p.NoCrash? ==> BodyOk(Some(source)))
      && AllHold(p, InsertValues(Some(source)), dialect)
      && (source.FromSelect? ==> Holds(p, SelectDoc(source.query, dialect)))
  {
    Parts(p);
    hide Holds, AllHold, CellsDoc, RowsDoc, SelectDoc;
    NothingHolds(p, dialect);
    match source
    case Values(cells) => CellsHold(p, cells, dialect);
    case Rows(rows) => RowsHold(p, rows, dialect);
    case FromSelect(_, _) =>
    case DefaultValues =>
  }

  lemma InsertHolds(p: Property, table: Table, source: Option<InsertSource>, dialect: Dialect)
    requires !p.NoTemporal?
    ensures Holds(p, InsertDoc(table, source, dialect)) <==>
      && (p.NoCrash? ==> BodyOk(source))
      && AllHold(p, InsertValues(source), dialect)
      && (source.Some? && source.value.FromSelect? ==> Holds(p, SelectDoc(source.value.query, dialect)))
  {
    Parts(p);
    BindParts();
    hide Holds, AllHold, Binds, TableDoc, NamesDoc, InsertBody, SelectDoc;
    NothingHolds(p, dialect);
    TableHolds(p, table, dialect);
    if source.Some? {
      BodyHolds(p, source.value, dialect);
      NamesHold(p, InsertColumns(source.value));
      NamesBindNothing(InsertColumns(source.value));
    }
  }

  lemma DmlStep(p: Property, query: Query, dialect: Dialect)
    requires !p.NoTemporal? && !query.SelectQuery?
    ensures Holds(p, QueryDoc(query, dialect)) <==>
      DmlOk(p, query) && AllHold(p, RenderedDml(query), dialect) && SelectsHold(p, InsertedQuery(query), dialect)
  {
    match query
    case Insert(table, source, conflict, returning) => InsertStep(p, query, dialect);
    case Update(table, values, condition, _, returning) => UpdateStep(p, query, dialect);
    case Delete(table, condition, _, returning) => DeleteStep(p, query, dialect);
  }

  lemma InsertStep(p: Property, query: Query, dialect: Dialect)
    requires !p.NoTemporal? && query.Insert?
    ensures Holds(p, QueryDoc(query, dialect)) <==>
      DmlOk(p, query) && AllHold(p, RenderedDml(query), dialect) && SelectsHold(p, InsertedQuery(query), dialect)
  {
    Parts(p);
    hide Holds, AllHold, InsertDoc, ConflictClauseDoc, ReturningDoc, InsertValues, RenderedConflict, SelectDoc;
    hide SelectsHold;
    InsertHolds(p, query.table, query.source, dialect);
    ConflictHolds(p, query.source, query.conflict, dialect);
    ReturningHolds(p, query.returning, dialect);
    AllHoldConcat(p, InsertValues(query.source) + RenderedConflict(query.source, query.conflict), query.returning, dialect);
    AllHoldConcat(p, InsertValues(query.source), RenderedConflict(query.source, query.conflict), dialect);
    NoSelects(p, dialect);
    if query.source.Some? && query.source.value.FromSelect? {
      OneSelect(p, query.source.value.query, dialect);
    }
  }

  lemma UpdateStep(p: Property, query: Query, dialect: Dialect)
    requires !p.NoTemporal? && query.Update?
    ensures Holds(p, QueryDoc(query, dialect)) <==>
      DmlOk(p, query) && AllHold(p, RenderedDml(query), dialect) && SelectsHold(p, InsertedQuery(query), dialect)
  {
    Parts(p);
    BindParts();
    hide Holds, AllHold, AssignmentsDoc, ClauseDoc, ReturningDoc, TableDoc, Binds, SelectsHold, NodeHolds;
    TableHolds(p, query.table, dialect);
    AssignmentsHold(p, query.values, dialect);
    ClauseHolds(p, "where", query.condition, dialect);
    PresentHolds(p, query.condition, dialect);
    ReturningHolds(p, query.returning, dialect);
    AllHoldConcat(p, CellValues(query.values) + Present(query.condition), query.returning, dialect);
    AllHoldConcat(p, CellValues(query.values), Present(query.condition), dialect);
    NoSelects(p, dialect);
  }

  lemma DeleteStep(p: Property, query: Query, dialect: Dialect)
    requires !p.NoTemporal? && query.Delete?
    ensures Holds(p, QueryDoc(query, dialect)) <==>
      DmlOk(p, query) && AllHold(p, RenderedDml(query), dialect) && SelectsHold(p, InsertedQuery(query), dialect)
  {
    Parts(p);
    hide Holds, AllHold, ClauseDoc, ReturningDoc, TableDoc, SelectsHold, NodeHolds;
    TableHolds(p, query.table, dialect);
    ClauseHolds(p, "where", query.condition, dialect);
    PresentHolds(p, query.condition, dialect);
    ReturningHolds(p, query.returning, dialect);
    AllHoldConcat(p, Present(query.condition), query.returning, dialect);
    NoSelects(p, dialect);
  }

  lemma {:induction false} DmlTree(p: Property, query: Query, dialect: Dialect)
    requires !p.NoTemporal? && !query.SelectQuery?
    ensures Holds(p, QueryDoc(query, dialect)) <==> EverywhereDml(p, query, dialect)
    decreases query, 0
  {
    DmlStep(p, query, dialect);
    NodesTree(p, RenderedDml(query), dialect);
    hide Holds, AllHold, NodesOk, SelectDoc, QueryDoc, RenderedDml, InsertedQuery, Subqueries, DmlOk;
    forall q | q in InsertedQuery(query) ensures Holds(p, SelectDoc(q, dialect)) <==> Everywhere(p, q, dialect) {
      SelectTree(p, q, dialect);
    }
    forall e, q | e in RenderedDml(query) && q in Subqueries(e)
      ensures q in AllSubqueries(RenderedDml(query)) && (Holds(p, SelectDoc(q, dialect)) <==> Everywhere(p, q, dialect))
    {
      RenderedDmlBelow(query, e);
      SelectTree(p, q, dialect);
    }
  }

  /** Every statement's document is as good as its tree. */
  lemma QueryTree(p: Property, query: Query, dialect: Dialect)
    requires !p.NoTemporal?
    ensures Holds(p, QueryDoc(query, dialect)) <==> EverywhereIn(p, query, dialect)
  {
    hide Holds, SelectDoc;
    if query.SelectQuery? {
      SelectTree(p, query.select, dialect);
    } else {
      DmlTree(p, query, dialect);
    }
  }

  /** Progress: rendering an accepted statement can only fail with a reported error. */
  lemma AcceptedNeverCrashes(query: Query, dialect: Dialect)
    requires Accepts(query, dialect)
    ensures FirstFault(QueryDoc(query, dialect)).None? || FirstFault(QueryDoc(query, dialect)) == Some(ValueFault)
  {
    hide QueryDoc, AcceptsSelect, AcceptsDml, EverywhereDml, Everywhere;
    if query.SelectQuery? {
      SelectIsCovered(NoCrash, query.select, dialect, {});
    } else {
      DmlIsCovered(NoCrash, query, dialect, {});
    }
    QueryTree(NoCrash, query, dialect);
    SafeFaults(QueryDoc(query, dialect));
  }

  /** A dialect without temporal arithmetic never renders a temporal node, at any depth. */
  lemma AcceptedHasNoTemporalNode(query: Query, dialect: Dialect)
    requires Accepts(query, dialect) && !dialect.supportsTemporalArithmetic
    ensures EverywhereIn(NoTemporal, query, dialect)
  {
    hide AcceptsSelect, AcceptsDml, EverywhereDml, Everywhere;
    if query.SelectQuery? {
      SelectIsCovered(NoTemporal, query.select, dialect, {});
    } else {
      DmlIsCovered(NoTemporal, query, dialect, {});
    }
  }

  /**
   `?` placeholders: with distinct values, a rendered statement reaches the database with
   every value in its place exactly when every window and every piece of temporal
   arithmetic in it, at any depth, binds on one side only.
   */
  lemma QuestionMarksAreExact(query: Query, dialect: Dialect)
    requires Distinct(Binds(QueryDoc(query, dialect)))
    ensures ReadInOrder(Text(QueryDoc(query, dialect), QuestionMark, 0), Binds(QueryDoc(query, dialect)))
              == Known(Meaning(QueryDoc(query, dialect)))
            <==> EverywhereIn(InOrder, query, dialect)
  {
    QuestionMarksResolve(QueryDoc(query, dialect));
    QueryTree(InOrder, query, dialect);
    hide EverywhereIn;
  }
}

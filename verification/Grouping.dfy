/**
 The portable grouping contract, and what it is worth: in an accepted grouped query an
 expression has one value per group, whichever row of the group stands for it.
 */
module Grouping {
  import opened Options
  import opened Ast

  /** A window counts as itself, whatever it contains. */
  predicate ContainsAnalytic(node: Node, aggregate: bool, window: bool)
    decreases node
  {
    if node.Aggregate? && aggregate then true
    else if node.Window? then window
    else exists c :: c in Children(node) && ContainsAnalytic(c, aggregate, window)
  }

  predicate Contains(node: Option<Node>, aggregate: bool, window: bool) {
    node.Some? && ContainsAnalytic(node.value, aggregate, window)
  }

  predicate NestsAggregates(node: Node, inside: bool)
    decreases node
  {
    if node.Aggregate? then !inside && forall c :: c in Children(node) ==> NestsAggregates(c, true)
    else if node.Window? then !inside && forall c :: c in Children(node) ==> NestsAggregates(c, false)
    else forall c :: c in Children(node) ==> NestsAggregates(c, inside)
  }

  /** SELECT, HAVING and ORDER BY: the expressions read once per group. */
  function GroupedExpressions(select: Select): seq<Node> {
    select.selections + Present(select.having) + OrderExpressions(select.orderBy)
  }

  predicate AnalyticClauses(select: Select) {
    && !Contains(select.condition, true, true)
    && (forall g :: g in select.groupBy ==> !g.Alias? && !ContainsAnalytic(g, true, true))
    && !Contains(select.having, false, true)
    && forall e :: e in GroupedExpressions(select) ==> NestsAggregates(e, false)
  }

  /** The local columns used outside aggregates and outside the grouped expressions. */
  function UngroupedColumns(node: Node, grouped: seq<Node>, locals: set<string>): set<Node>
    decreases node
  {
    if node in grouped then {}
    else if node.Column? then (if node.source in locals then {node} else {})
    else if node.Aggregate? then {}
    else set c, column | c in Children(node) && column in UngroupedColumns(c, grouped, locals) :: column
  }

  function LocalSources(select: Select): set<string> {
    (if select.base.Some? then {select.base.value.Reference()} else {})
    + set j | j in select.joins :: j.source.Reference()
  }

  predicate HasAggregate(select: Select) {
    exists e :: e in GroupedExpressions(select) && ContainsAnalytic(e, true, false)
  }

  predicate IsGrouped(select: Select) {
    select.groupBy != [] || HasAggregate(select)
  }

  predicate AcceptsGrouping(select: Select) {
    && (select.having.Some? ==> IsGrouped(select))
    && (IsGrouped(select) ==>
          forall e :: e in GroupedExpressions(select) ==>
            UngroupedColumns(e, select.groupBy, LocalSources(select)) == {})
  }

  /** A row gives a value to every column of every source, local or enclosing. */
  type Tuple = (string, string) -> int

  /** Any meaning at all for operators, aggregates, windows and subqueries. */
  datatype Interpretation = Interpretation(
    combine: (Node, seq<int>) -> int,
    aggregate: (Node, seq<seq<int>>) -> int,
    other: (Node, Tuple, seq<Tuple>) -> int)

  /**
   An expression on one row of a group.  An aggregate reads its arguments on every row of
   the group; windows and subqueries may read anything.
   */
  function Evaluate(node: Node, row: Tuple, group: seq<Tuple>, i: Interpretation): int
    decreases node, 0
  {
    if node.Column? then row(node.source, node.name)
    else if node.Aggregate? then
      i.aggregate(node, seq(|group|, k requires 0 <= k < |group| => EvaluateAll(node, group[k], group, i)))
    else if node.Window? || Subquery(node).Some? then i.other(node, row, group)
    else i.combine(node, EvaluateAll(node, row, group, i))
  }

  function EvaluateAll(node: Node, row: Tuple, group: seq<Tuple>, i: Interpretation): (r: seq<int>)
    ensures |r| == |Children(node)|
    ensures forall k :: 0 <= k < |r| ==>
      r[k] == (assert Children(node)[k] in Children(node); Evaluate(Children(node)[k], row, group, i))
    decreases node, 0, 0
  {
    seq(|Children(node)|, k requires 0 <= k < |Children(node)| =>
      assert Children(node)[k] in Children(node);
      Evaluate(Children(node)[k], row, group, i))
  }

  /** No window and no subquery outside aggregates. */
  predicate Plain(node: Node)
    decreases node
  {
    node.Aggregate?
    || (!node.Window? && Subquery(node).None? && forall c :: c in Children(node) ==> Plain(c))
  }

  ghost predicate AgreeOutside(a: Tuple, b: Tuple, locals: set<string>) {
    forall source, name :: source !in locals ==> a(source, name) == b(source, name)
  }

  ghost predicate AgreeOn(a: Tuple, b: Tuple, group: seq<Tuple>, keys: seq<Node>, i: Interpretation) {
    forall g :: g in keys ==> Evaluate(g, a, group, i) == Evaluate(g, b, group, i)
  }

  lemma ChildColumns(e: Node, c: Node, keys: seq<Node>, locals: set<string>)
    requires e !in keys && !e.Column? && !e.Aggregate? && c in Children(e)
    ensures UngroupedColumns(c, keys, locals) <= UngroupedColumns(e, keys, locals)
  {
  }

  lemma {:induction false} UngroupedDetermines(e: Node, a: Tuple, b: Tuple, group: seq<Tuple>, keys: seq<Node>,
                                               locals: set<string>, i: Interpretation)
    requires Plain(e) && UngroupedColumns(e, keys, locals) == {}
    requires AgreeOutside(a, b, locals) && AgreeOn(a, b, group, keys, i)
    ensures Evaluate(e, a, group, i) == Evaluate(e, b, group, i)
    decreases e
  {
    if e in keys || e.Column? || e.Aggregate? {
    } else {
      var children := Children(e);
      forall k | 0 <= k < |children| ensures Evaluate(children[k], a, group, i) == Evaluate(children[k], b, group, i) {
        var c := children[k];
        assert c in children;
        ChildColumns(e, c, keys, locals);
        UngroupedDetermines(c, a, b, group, keys, locals, i);
      }
      assert EvaluateAll(e, a, group, i) == EvaluateAll(e, b, group, i);
    }
  }

  /** An item of the projection, the HAVING predicate or a sort key. */
  predicate ReadPerGroup(select: Select, e: Node) {
    || (exists k :: 0 <= k < |select.selections| && select.selections[k] == e)
    || select.having == Some(e)
    || exists k :: 0 <= k < |select.orderBy| && select.orderBy[k].expression == e
  }

  lemma GroupedClauses(select: Select, e: Node)
    ensures e in GroupedExpressions(select) <==> ReadPerGroup(select, e)
  {
    var sorted := OrderExpressions(select.orderBy);
    forall k | 0 <= k < |select.orderBy| ensures select.orderBy[k].expression in sorted {
      assert sorted[k] == select.orderBy[k].expression;
    }
    if e in sorted {
      var k :| 0 <= k < |sorted| && sorted[k] == e;
      assert select.orderBy[k].expression == e;
    }
  }

  /** One value per group: rows that agree on every GROUP BY expression are interchangeable. */
  lemma GroupingIsSound(select: Select, e: Node, a: Tuple, b: Tuple, group: seq<Tuple>, i: Interpretation)
    requires AcceptsGrouping(select) && IsGrouped(select)
    requires ReadPerGroup(select, e) && Plain(e)
    requires AgreeOutside(a, b, LocalSources(select)) && AgreeOn(a, b, group, select.groupBy, i)
    ensures Evaluate(e, a, group, i) == Evaluate(e, b, group, i)
  {
    GroupedClauses(select, e);
    UngroupedDetermines(e, a, b, group, select.groupBy, LocalSources(select), i);
  }

  /** And without groups there is one value per row: an ungrouped query never looks at other rows. */
  lemma UngroupedIsRowwise(select: Select, e: Node, row: Tuple, g: seq<Tuple>, h: seq<Tuple>, i: Interpretation)
    requires !IsGrouped(select) && ReadPerGroup(select, e) && Plain(e)
    ensures Evaluate(e, row, g, i) == Evaluate(e, row, h, i)
  {
    GroupedClauses(select, e);
    PlainHasNoWindow(e);
    AggregateFreeIgnoresGroup(e, row, g, h, i);
  }

  lemma {:induction false} PlainHasNoWindow(e: Node)
    requires Plain(e) && !ContainsAnalytic(e, true, false)
    ensures !ContainsAnalytic(e, true, true)
    decreases e
  {
    forall c | c in Children(e) ensures !ContainsAnalytic(c, true, true) {
      PlainHasNoWindow(c);
    }
  }

  /** A query is grouped by its keys or by an aggregate someone can point at, and HAVING needs one of the two. */
  lemma GroupsShow(select: Select)
    requires AcceptsGrouping(select)
    ensures IsGrouped(select) ==> Groups(select)
    ensures select.having.Some? ==> IsGrouped(select)
  {
    if select.groupBy == [] && IsGrouped(select) {
      var e :| e in GroupedExpressions(select) && ContainsAnalytic(e, true, false);
      GroupedClauses(select, e);
      var call := AnalyticShows(e, true, false);
    }
  }

  lemma {:induction false} AnalyticShows(e: Node, aggregate: bool, window: bool) returns (n: Node)
    requires ContainsAnalytic(e, aggregate, window)
    ensures n in Walk(e) && ((n.Aggregate? && aggregate) || (n.Window? && window))
    decreases e
  {
    n := e;
    if !(e.Aggregate? && aggregate) && !e.Window? {
      var c :| c in Children(e) && ContainsAnalytic(c, aggregate, window);
      n := AnalyticShows(c, aggregate, window);
      WalkReaches(e, n);
    }
  }

  /** WHERE and GROUP BY hold neither aggregates nor windows, and HAVING no windows, at any depth. */
  lemma ClausesArePlaced(select: Select, n: Node)
    requires AnalyticClauses(select)
    ensures select.condition.Some? && n in Walk(select.condition.value) ==> !n.Aggregate? && !n.Window?
    ensures forall g :: g in select.groupBy && n in Walk(g) ==> !n.Aggregate? && !n.Window?
    ensures select.having.Some? && n in Walk(select.having.value) ==> !n.Window?
  {
    if select.condition.Some? && n in Walk(select.condition.value) {
      WalkIsFree(select.condition.value, n, true);
    }
    forall g | g in select.groupBy && n in Walk(g) ensures !n.Aggregate? && !n.Window? {
      WalkIsFree(g, n, true);
    }
    if select.having.Some? && n in Walk(select.having.value) {
      WalkIsFree(select.having.value, n, false);
    }
  }

  lemma {:induction false} AggregateFreeIgnoresGroup(e: Node, row: Tuple, g: seq<Tuple>, h: seq<Tuple>,
                                                     i: Interpretation)
    requires Plain(e) && !ContainsAnalytic(e, true, true)
    ensures Evaluate(e, row, g, i) == Evaluate(e, row, h, i)
    decreases e
  {
    if !e.Column? {
      var children := Children(e);
      forall k | 0 <= k < |children| ensures Evaluate(children[k], row, g, i) == Evaluate(children[k], row, h, i) {
        assert children[k] in children;
        AggregateFreeIgnoresGroup(children[k], row, g, h, i);
      }
      assert EvaluateAll(e, row, g, i) == EvaluateAll(e, row, h, i);
    }
  }

  /** Grouping is well defined: a key is computed from its row alone. */
  lemma KeysIgnoreGroup(select: Select, key: Node, row: Tuple, g: seq<Tuple>, h: seq<Tuple>, i: Interpretation)
    requires AnalyticClauses(select) && key in select.groupBy && Plain(key)
    ensures Evaluate(key, row, g, i) == Evaluate(key, row, h, i)
  {
    AggregateFreeIgnoresGroup(key, row, g, h, i);
  }

  lemma {:induction false} InsideIsAggregateFree(e: Node)
    requires NestsAggregates(e, true)
    ensures !ContainsAnalytic(e, true, true)
    decreases e
  {
    if !e.Aggregate? && !e.Window? {
      forall c | c in Children(e) ensures !ContainsAnalytic(c, true, true) {
        InsideIsAggregateFree(c);
      }
    }
  }

  /** The arguments of an accepted aggregate are computed row by row. */
  lemma ArgumentsIgnoreGroup(select: Select, e: Node, call: Node, argument: Node, row: Tuple,
                             g: seq<Tuple>, h: seq<Tuple>, i: Interpretation)
    requires AnalyticClauses(select) && ReadPerGroup(select, e)
    requires call in Walk(e) && call.Aggregate? && argument in Children(call) && Plain(argument)
    ensures Evaluate(argument, row, g, i) == Evaluate(argument, row, h, i)
  {
    GroupedClauses(select, e);
    NestedArguments(e, call, argument);
    AggregateFreeIgnoresGroup(argument, row, g, h, i);
  }

  lemma {:induction false} NestedArguments(e: Node, call: Node, argument: Node)
    requires NestsAggregates(e, false)
    requires call in Walk(e) && call.Aggregate? && argument in Children(call)
    ensures !ContainsAnalytic(argument, true, true)
    decreases e
  {
    if call == e {
      InsideIsAggregateFree(argument);
    } else {
      WalkReaches(e, call);
      var c :| c in Children(e) && call in Walk(c);
      if e.Aggregate? {
        InsideIsAggregateFree(c);
        WalkIsFree(c, call, true);
      } else {
        NestedArguments(c, call, argument);
      }
    }
  }

  lemma {:induction false} WalkIsFree(e: Node, n: Node, aggregate: bool)
    requires !ContainsAnalytic(e, aggregate, true) && n in Walk(e)
    ensures !n.Window? && (aggregate ==> !n.Aggregate?)
    decreases e
  {
    if n != e {
      WalkReaches(e, n);
      var c :| c in Children(e) && n in Walk(c);
      WalkIsFree(c, n, aggregate);
    }
  }

  /** A row whose only true column is `column`, and an interpretation that carries it upwards. */
  function Marked(column: Node): Tuple
    requires column.Column?
  {
    (source, name) => if source == column.source && name == column.name then 1 else 0
  }

  function Blank(): Tuple {
    (source, name) => 0
  }

  function Carrying(keys: seq<Node>): Interpretation {
    Interpretation((node, values) => if node in keys || 1 !in values then 0 else 1,
                   (node, values) => 0, (node, row, group) => 0)
  }

  lemma {:induction false} BlankIsZero(e: Node, keys: seq<Node>)
    ensures Evaluate(e, Blank(), [], Carrying(keys)) == 0
    decreases e
  {
    if !e.Column? && !e.Aggregate? && !e.Window? && Subquery(e).None? {
      var values := EvaluateAll(e, Blank(), [], Carrying(keys));
      if 1 in values {
        var k :| 0 <= k < |values| && values[k] == 1;
        assert Children(e)[k] in Children(e);
        BlankIsZero(Children(e)[k], keys);
      }
    }
  }

  lemma {:induction false} UngroupedCarries(e: Node, keys: seq<Node>, locals: set<string>, column: Node)
    requires Plain(e) && column in UngroupedColumns(e, keys, locals)
    ensures column.Column? && column.source in locals && column !in keys
    ensures Evaluate(e, Marked(column), [], Carrying(keys)) == 1
    decreases e
  {
    if !e.Column? {
      var c :| c in Children(e) && column in UngroupedColumns(c, keys, locals);
      UngroupedCarries(c, keys, locals, column);
      var k :| 0 <= k < |Children(e)| && Children(e)[k] == c;
      assert EvaluateAll(e, Marked(column), [], Carrying(keys))[k] == 1;
    }
  }

  lemma KeysStayZero(key: Node, keys: seq<Node>, column: Node)
    requires key in keys && column.Column? && column !in keys
    ensures Evaluate(key, Marked(column), [], Carrying(keys)) == 0
  {
  }

  /** The values of `e` are settled by the keys, whatever operators and aggregates mean. */
  ghost predicate Determined(e: Node, keys: seq<Node>, locals: set<string>) {
    forall a, b, group, i :: AgreeOutside(a, b, locals) && AgreeOn(a, b, group, keys, i) ==>
      Evaluate(e, a, group, i) == Evaluate(e, b, group, i)
  }

  /** The check is exact: it accepts an expression exactly when the keys determine it. */
  lemma GroupingIsExact(e: Node, keys: seq<Node>, locals: set<string>)
    requires Plain(e)
    ensures UngroupedColumns(e, keys, locals) == {} <==> Determined(e, keys, locals)
  {
    if UngroupedColumns(e, keys, locals) == {} {
      forall a, b, group, i | AgreeOutside(a, b, locals) && AgreeOn(a, b, group, keys, i)
        ensures Evaluate(e, a, group, i) == Evaluate(e, b, group, i)
      {
        UngroupedDetermines(e, a, b, group, keys, locals, i);
      }
    } else {
      var column :| column in UngroupedColumns(e, keys, locals);
      UngroupedCarries(e, keys, locals, column);
      BlankIsZero(e, keys);
      var a, b, i := Marked(column), Blank(), Carrying(keys);
      forall g | g in keys ensures Evaluate(g, a, [], i) == Evaluate(g, b, [], i) {
        KeysStayZero(g, keys, column);
        BlankIsZero(g, keys);
      }
      assert AgreeOutside(a, b, locals) && AgreeOn(a, b, [], keys, i);
    }
  }

  lemma {:induction false} PlainShows(e: Node, call: Node)
    requires Plain(e) && call in Walk(e) && call.Aggregate?
    ensures ContainsAnalytic(e, true, false)
    decreases e
  {
    if !e.Aggregate? {
      WalkReaches(e, call);
      var c :| c in Children(e) && call in Walk(c);
      PlainShows(c, call);
    }
  }

  /** There are keys, or an aggregate somewhere in what is read per group. */
  ghost predicate Groups(select: Select) {
    select.groupBy != [] || exists e, call :: ReadPerGroup(select, e) && call in Walk(e) && call.Aggregate?
  }

  /** So a query is accepted exactly when its keys determine everything it reads per group. */
  lemma AcceptedGroupingIsExact(select: Select)
    requires forall e :: ReadPerGroup(select, e) ==> Plain(e)
    ensures AcceptsGrouping(select) <==>
      && (select.having.Some? ==> Groups(select))
      && (Groups(select) ==> forall e :: ReadPerGroup(select, e) ==> Determined(e, select.groupBy, LocalSources(select)))
  {
    forall e | ReadPerGroup(select, e) || e in GroupedExpressions(select)
      ensures e in GroupedExpressions(select) && ReadPerGroup(select, e)
      ensures UngroupedColumns(e, select.groupBy, LocalSources(select)) == {} <==>
              Determined(e, select.groupBy, LocalSources(select))
    {
      GroupedClauses(select, e);
      GroupingIsExact(e, select.groupBy, LocalSources(select));
    }
    GroupsExactly(select);
  }

  lemma GroupsExactly(select: Select)
    requires forall e :: ReadPerGroup(select, e) ==> Plain(e)
    ensures IsGrouped(select) <==> Groups(select)
  {
    if select.groupBy == [] && HasAggregate(select) {
      var e :| e in GroupedExpressions(select) && ContainsAnalytic(e, true, false);
      GroupedClauses(select, e);
      var call := AnalyticShows(e, true, false);
    }
    if e, call :| ReadPerGroup(select, e) && call in Walk(e) && call.Aggregate? {
      GroupedClauses(select, e);
      PlainShows(e, call);
    }
  }
}

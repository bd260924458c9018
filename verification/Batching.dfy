/**
 Splitting a stream of rows into INSERT statements under a parameter ceiling.  The greedy
 loop relies on the renderer: the parameters of a statement are those of its rows, plus a
 fixed part.
 */
module Batching {
  import opened Options
  import opened Ast
  import opened Document
  import opened Render

  /** A statement that is fixed apart from its rows. */
  datatype Template = Template(table: Table, conflict: Option<Conflict>, returning: seq<Node>)

  function Statement(t: Template, rows: seq<Row>): Query {
    Insert(t.table, Some(Rows(rows)), t.conflict, t.returning)
  }

  function CellCost(node: Node, dialect: Dialect): nat {
    |Binds(NodeDoc(node, dialect))|
  }

  function CellsCost(cells: seq<Cell>, dialect: Dialect): nat {
    if cells == [] then 0 else CellCost(cells[0].value, dialect) + CellsCost(cells[1..], dialect)
  }

  function RowCost(row: Row, dialect: Dialect): nat {
    CellsCost(row.cells, dialect)
  }

  function Load(rows: seq<Row>, dialect: Dialect): nat {
    if rows == [] then 0 else RowCost(rows[0], dialect) + Load(rows[1..], dialect)
  }

  /** What a statement binds besides its rows. */
  function Fixed(t: Template, dialect: Dialect): nat {
    |Binds(ConflictClauseDoc(t.conflict, dialect))| + |Binds(ReturningDoc(t.returning, dialect))|
  }

  // ---- The renderer is additive ----------------------------------------------------------------

  lemma {:induction false} CellsBind(cells: seq<Cell>, dialect: Dialect)
    ensures |Binds(CellsDoc(cells, dialect))| == CellsCost(cells, dialect)
    decreases |cells|
  {
    BindParts();
    hide Binds, NodeDoc;
    if cells != [] {
      CellsBind(cells[1..], dialect);
    }
  }

  lemma {:induction false} RowsBind(rows: seq<Row>, dialect: Dialect)
    ensures |Binds(RowsDoc(rows, dialect))| == Load(rows, dialect)
    decreases |rows|
  {
    BindParts();
    hide Binds, CellsDoc, CellsCost;
    if rows != [] {
      CellsBind(rows[0].cells, dialect);
      RowsBind(rows[1..], dialect);
    }
  }

  /** A statement binds its fixed part and the sum of its rows. */
  lemma {:induction false} StatementIsAdditive(t: Template, rows: seq<Row>, dialect: Dialect)
    requires rows != []
    ensures CountParameters(Statement(t, rows), dialect) == Fixed(t, dialect) + Load(rows, dialect)
  {
    BindParts();
    RowsBind(rows, dialect);
    TableBindsNothing(t.table, dialect);
    NamesBindNothing(CellNames(rows[0].cells));
    hide Binds, RowsDoc, TableDoc, NamesDoc, ConflictClauseDoc, ReturningDoc, Load;
    var names := NamesDoc(CellNames(rows[0].cells));
    assert |Binds(Parenthesized(names))| == 0;
    assert |Binds(Seq(TableDoc(t.table, dialect), Parenthesized(names)))| == 0;
    assert |Binds(InsertBody(Rows(rows), dialect))| == Load(rows, dialect);
    assert |Binds(InsertDoc(t.table, Some(Rows(rows)), dialect))| == Load(rows, dialect);
  }

  // ---- Partitions ---------------------------------------------------------------------------------

  function Concat(batches: seq<seq<Row>>): seq<Row> {
    if batches == [] then [] else Concat(batches[..|batches| - 1]) + batches[|batches| - 1]
  }

  lemma {:induction false} ConcatOne(batches: seq<seq<Row>>, batch: seq<Row>)
    ensures Concat(batches + [batch]) == Concat(batches) + batch
  {
    assert (batches + [batch])[..|batches|] == batches;
  }

  lemma {:induction false} LoadConcat(a: seq<Row>, b: seq<Row>, dialect: Dialect)
    ensures Load(a + b, dialect) == Load(a, dialect) + Load(b, dialect)
    decreases |a|
  {
    hide RowCost;
    if a == [] {
      assert a + b == b;
    } else {
      assert (a + b)[0] == a[0] && (a + b)[1..] == a[1..] + b;
      LoadConcat(a[1..], b, dialect);
    }
  }

  /** Consecutive, non-empty batches, each within the budget left for rows. */
  ghost predicate Splits(batches: seq<seq<Row>>, rows: seq<Row>, budget: nat, dialect: Dialect) {
    && Concat(batches) == rows
    && forall b :: b in batches ==> b != [] && Load(b, dialect) <= budget
  }

  /**
   `done` and `current` are at least as good as any split of the same rows: none has fewer
   batches, and one with as many leaves at least as much in its last batch.
   */
  ghost predicate Ahead(done: nat, current: seq<Row>, rows: seq<Row>, budget: nat, dialect: Dialect) {
    forall p :: Splits(p, rows, budget, dialect) ==>
      |p| > done && (|p| == done + 1 ==> |p[|p| - 1]| >= |current|)
  }

  /** A split without its last row: the last batch shortened, or dropped if that was all of it. */
  lemma {:induction false} Trim(p: seq<seq<Row>>, rows: seq<Row>, row: Row, budget: nat,
                                dialect: Dialect) returns (q: seq<seq<Row>>)
    requires Splits(p, rows + [row], budget, dialect)
    ensures p != [] && Splits(q, rows, budget, dialect)
    ensures var last := p[|p| - 1];
      && last != [] && last[|last| - 1] == row
      && (|last| == 1 ==> |q| == |p| - 1)
      && (|last| > 1 ==> |q| == |p| && q[|q| - 1] == last[..|last| - 1])
  {
    assert p != [];
    var front, last := p[..|p| - 1], p[|p| - 1];
    assert p == front + [last] && last in p;
    ConcatOne(front, last);
    assert Concat(front) + last == rows + [row];
    var short := last[..|last| - 1];
    assert last == short + [last[|last| - 1]];
    assert (Concat(front) + last)[|rows|] == row;
    assert Concat(front) + short == rows by {
      assert (Concat(front) + last)[..|rows|] == (rows + [row])[..|rows|];
    }
    forall b | b in front ensures b in p {
    }
    if |last| == 1 {
      q := front;
      assert Concat(front) == rows;
    } else {
      q := front + [short];
      ConcatOne(front, short);
      LoadConcat(short, [row], dialect);
    }
  }

  /** The last batch is the end of the rows. */
  lemma {:induction false} LastIsSuffix(p: seq<seq<Row>>, rows: seq<Row>, budget: nat, dialect: Dialect)
    requires Splits(p, rows, budget, dialect) && p != []
    ensures |p[|p| - 1]| <= |rows| && p[|p| - 1] == rows[|rows| - |p[|p| - 1]|..]
  {
  }

  /** A longer suffix weighs at least as much. */
  lemma {:induction false} SuffixLoad(rows: seq<Row>, long: nat, short: nat, dialect: Dialect)
    requires short <= long <= |rows|
    ensures Load(rows[|rows| - short..], dialect) <= Load(rows[|rows| - long..], dialect)
  {
    var a := rows[|rows| - long..|rows| - short];
    assert rows[|rows| - long..] == a + rows[|rows| - short..];
    LoadConcat(a, rows[|rows| - short..], dialect);
  }

  /** Adding a row that fits keeps the lead. */
  lemma {:induction false} AheadGrows(done: nat, current: seq<Row>, rows: seq<Row>, row: Row, budget: nat,
                                      dialect: Dialect)
    requires Ahead(done, current, rows, budget, dialect)
    ensures Ahead(done, current + [row], rows + [row], budget, dialect)
  {
    hide Splits;
    forall p | Splits(p, rows + [row], budget, dialect)
      ensures |p| > done && (|p| == done + 1 ==> |p[|p| - 1]| >= |current + [row]|)
    {
      var q := Trim(p, rows, row, budget, dialect);
    }
  }

  /** Closing a batch because the next row does not fit keeps the lead. */
  lemma {:induction false} AheadCloses(done: nat, current: seq<Row>, rows: seq<Row>, row: Row, budget: nat,
                                       dialect: Dialect)
    requires Ahead(done, current, rows, budget, dialect)
    requires |current| <= |rows| && current == rows[|rows| - |current|..]
    requires Load(current, dialect) + RowCost(row, dialect) > budget
    ensures Ahead(done + 1, [row], rows + [row], budget, dialect)
  {
    hide Splits, Load, RowCost;
    forall p | Splits(p, rows + [row], budget, dialect) ensures |p| > done + 1 && |p[|p| - 1]| >= 1 {
      Behind(done, current, rows, row, budget, dialect, p);
    }
  }

  /** A split of one row more needs another batch. */
  lemma {:induction false} Behind(done: nat, current: seq<Row>, rows: seq<Row>, row: Row, budget: nat, dialect: Dialect,
                                  p: seq<seq<Row>>)
    requires Ahead(done, current, rows, budget, dialect)
    requires |current| <= |rows| && current == rows[|rows| - |current|..]
    requires Load(current, dialect) + RowCost(row, dialect) > budget
    requires Splits(p, rows + [row], budget, dialect)
    ensures |p| > done + 1 && p[|p| - 1] != []
  {
    hide Splits, Load, RowCost;
    var q := Trim(p, rows, row, budget, dialect);
    var last := p[|p| - 1];
    if |last| > 1 {
      LastFits(p, rows + [row], budget, dialect);
      LastIsSuffix(q, rows, budget, dialect);
      Overfull(current, last, rows, row, budget, dialect);
    }
  }

  lemma {:induction false} LastFits(p: seq<seq<Row>>, rows: seq<Row>, budget: nat, dialect: Dialect)
    requires Splits(p, rows, budget, dialect) && p != []
    ensures Load(p[|p| - 1], dialect) <= budget
  {
    assert p[|p| - 1] in p;
  }

  /** A batch that fits cannot hold all of `current` and the row. */
  lemma {:induction false} Overfull(current: seq<Row>, last: seq<Row>, rows: seq<Row>, row: Row, budget: nat,
                                    dialect: Dialect)
    requires |current| <= |rows| && current == rows[|rows| - |current|..]
    requires Load(current, dialect) + RowCost(row, dialect) > budget
    requires 1 < |last| <= |rows| + 1 && last[|last| - 1] == row && Load(last, dialect) <= budget
    requires last[..|last| - 1] == rows[|rows| - (|last| - 1)..]
    ensures |last| - 1 < |current|
  {
    hide Load, RowCost;
    var front := last[..|last| - 1];
    assert last == front + [row];
    LoadConcat(front, [row], dialect);
    OneLoad(row, dialect);
    if |front| >= |current| {
      SuffixLoad(rows, |front|, |current|, dialect);
    }
  }

  lemma {:induction false} OneLoad(row: Row, dialect: Dialect)
    ensures Load([row], dialect) == RowCost(row, dialect)
  {
    assert [row][1..] == [];
  }

  // ---- The loop --------------------------------------------------------------------------------------

  /** A row that cannot be batched: it has no column, or is too large for a statement of its own. */
  predicate Unbatchable(t: Template, row: Row, dialect: Dialect, ceiling: nat) {
    row.cells == [] || CountParameters(Statement(t, [row]), dialect) > ceiling
  }

  /** Every statement is within the ceiling, and together they insert exactly the rows. */
  ghost predicate Covers(t: Template, batches: seq<seq<Row>>, rows: seq<Row>, dialect: Dialect, ceiling: nat) {
    && Concat(batches) == rows
    && forall b :: b in batches ==> b != [] && CountParameters(Statement(t, b), dialect) <= ceiling
  }

  /** The rows of a beginning, the rest being read but not yet yielded. */
  ghost predicate CoversSome(t: Template, batches: seq<seq<Row>>, rows: seq<Row>, dialect: Dialect, ceiling: nat) {
    exists n :: 0 <= n <= |rows| && Covers(t, batches, rows[..n], dialect, ceiling)
  }

  lemma {:induction false} CoversSplits(t: Template, batches: seq<seq<Row>>, rows: seq<Row>, dialect: Dialect,
                                        ceiling: nat)
    requires Fixed(t, dialect) <= ceiling
    ensures Covers(t, batches, rows, dialect, ceiling) <==> Splits(batches, rows, ceiling - Fixed(t, dialect), dialect)
  {
    hide CountParameters, Fixed, Load;
    forall b | b in batches && b != []
      ensures CountParameters(Statement(t, b), dialect) == Fixed(t, dialect) + Load(b, dialect)
    {
      StatementIsAdditive(t, b, dialect);
    }
  }

  lemma {:induction false} OneRow(t: Template, row: Row, dialect: Dialect)
    ensures CountParameters(Statement(t, [row]), dialect) == Fixed(t, dialect) + RowCost(row, dialect)
    ensures Load([row], dialect) == RowCost(row, dialect)
  {
    StatementIsAdditive(t, [row], dialect);
    assert [row][1..] == [];
  }

  /**
   The greedy loop.  Without an error its batches cover the rows within the ceiling, and no
   consecutive batches that do so are fewer.  An error stops at the first row that cannot be
   batched at all, with the batches before it already yielded.
   */
  method BatchRows(t: Template, rows: seq<Row>, dialect: Dialect, ceiling: nat)
    returns (ok: bool, batches: seq<seq<Row>>, read: nat)
    ensures ok <==> forall row :: row in rows ==> !Unbatchable(t, row, dialect, ceiling)
    ensures ok ==> Covers(t, batches, rows, dialect, ceiling)
    ensures ok ==> forall p :: Covers(t, p, rows, dialect, ceiling) ==> |batches| <= |p|
    ensures !ok ==> read < |rows| && Unbatchable(t, rows[read], dialect, ceiling)
                    && (forall row :: row in rows[..read] ==> !Unbatchable(t, row, dialect, ceiling))
                    && CoversSome(t, batches, rows[..read], dialect, ceiling)
  {
    hide CountParameters, Load, RowCost, Splits, Ahead, Fixed, Concat, Covers, CoversSome;
    batches := [];
    var batch: seq<Row> := [];
    var fixed: nat := 0;
    var used: nat := 0;
    var i := 0;
    NothingCovers(t, dialect, ceiling);
    while i < |rows|
      invariant i <= |rows| && |batch| <= i && batch == rows[i - |batch|..i]
      invariant i == 0 <==> batch == []
      invariant forall row :: row in rows[..i] ==> !Unbatchable(t, row, dialect, ceiling)
      invariant i == 0 ==> batches == []
      invariant i > 0 ==> fixed == Fixed(t, dialect) <= ceiling && used == fixed + Load(batch, dialect) <= ceiling
      invariant i > 0 ==> Splits(batches + [batch], rows[..i], ceiling - fixed, dialect)
      invariant i > 0 ==> Ahead(|batches|, batch, rows[..i], ceiling - fixed, dialect)
    {
      var row := rows[i];
      assert row in rows;
      OneRow(t, row, dialect);
      if row.cells == [] {
        Yielded(t, batches, batch, rows, i, dialect, ceiling);
        return false, batches, i;
      }
      var cost := RowCost(row, dialect);
      if i == 0 {
        fixed := CountParameters(Statement(t, [row]), dialect) - cost;
        used := fixed;
      }
      if fixed + cost > ceiling {
        Yielded(t, batches, batch, rows, i, dialect, ceiling);
        return false, batches, i;
      }
      assert rows[..i + 1] == rows[..i] + [row];
      if used + cost > ceiling {
        assert i > 0;
        Closing(batches, batch, rows[..i], row, ceiling - fixed, dialect);
        batches := batches + [batch];
        batch := [];
        used := fixed;
        assert [] + [row] == [row];
      } else if i == 0 {
        FirstRow(row, ceiling - fixed, dialect);
        assert rows[..1] == [row] && [] + [row] == [row];
      } else {
        Growing(batches, batch, rows[..i], row, ceiling - fixed, dialect);
      }
      LoadConcat(batch, [row], dialect);
      EmptyLoad(dialect);
      batch := batch + [row];
      used := used + cost;
      i := i + 1;
    }
    assert rows[..i] == rows;
    if batch != [] {
      NoneFewer(t, batches, batch, rows, dialect, ceiling);
      batches := batches + [batch];
    }
    return true, batches, |rows|;
  }

  /** The batches already yielded hold the rows before the one being filled. */
  lemma {:induction false} Yielded(t: Template, batches: seq<seq<Row>>, batch: seq<Row>, rows: seq<Row>, i: nat,
                                   dialect: Dialect, ceiling: nat)
    requires |batch| <= i <= |rows| && batch == rows[i - |batch|..i]
    requires i == 0 ==> batches == []
    requires i > 0 ==> Fixed(t, dialect) <= ceiling && Splits(batches + [batch], rows[..i], ceiling - Fixed(t, dialect), dialect)
    ensures CoversSome(t, batches, rows[..i], dialect, ceiling)
  {
    assert rows[..i][..i - |batch|] == rows[..i - |batch|];
    if i == 0 {
      assert rows[..0] == [];
      NothingCovers(t, dialect, ceiling);
    } else {
      ConcatOne(batches, batch);
      var n := i - |batch|;
      assert rows[..i] == rows[..n] + batch;
      assert |Concat(batches)| == n;
      assert Concat(batches) == (Concat(batches) + batch)[..n] && rows[..n] == (rows[..n] + batch)[..n];
      forall b | b in batches ensures b in batches + [batch] {
      }
      CoversSplits(t, batches, rows[..n], dialect, ceiling);
    }
  }

  lemma {:induction false} EmptyLoad(dialect: Dialect)
    ensures Load([], dialect) == 0
  {
  }

  lemma {:induction false} NothingCovers(t: Template, dialect: Dialect, ceiling: nat)
    ensures Covers(t, [], [], dialect, ceiling)
  {
  }

  lemma {:induction false} NoneFewer(t: Template, batches: seq<seq<Row>>, batch: seq<Row>, rows: seq<Row>,
                                     dialect: Dialect, ceiling: nat)
    requires Fixed(t, dialect) <= ceiling
    requires Splits(batches + [batch], rows, ceiling - Fixed(t, dialect), dialect)
    requires Ahead(|batches|, batch, rows, ceiling - Fixed(t, dialect), dialect)
    ensures Covers(t, batches + [batch], rows, dialect, ceiling)
    ensures forall p :: Covers(t, p, rows, dialect, ceiling) ==> |batches + [batch]| <= |p|
  {
    hide Covers, Splits, Ahead, Fixed;
    CoversSplits(t, batches + [batch], rows, dialect, ceiling);
    forall p | Covers(t, p, rows, dialect, ceiling) ensures |batches + [batch]| <= |p| {
      CoversSplits(t, p, rows, dialect, ceiling);
      AheadMeans(|batches|, batch, rows, ceiling - Fixed(t, dialect), dialect, p);
    }
  }

  lemma {:induction false} AheadMeans(done: nat, current: seq<Row>, rows: seq<Row>, budget: nat, dialect: Dialect,
                                      p: seq<seq<Row>>)
    requires Ahead(done, current, rows, budget, dialect) && Splits(p, rows, budget, dialect)
    ensures |p| > done
  {
  }

  /** The first row opens the first batch. */
  lemma {:induction false} FirstRow(row: Row, budget: nat, dialect: Dialect)
    requires RowCost(row, dialect) <= budget
    ensures Splits([] + [[row]], [row], budget, dialect) && Ahead(0, [row], [row], budget, dialect)
  {
    assert [row][1..] == [];
    ConcatOne([], [row]);
    forall p | Splits(p, [row], budget, dialect) ensures |p| > 0 && |p[|p| - 1]| >= 1 {
      assert p != [];
      assert p[|p| - 1] in p;
    }
  }

  lemma {:induction false} Growing(batches: seq<seq<Row>>, batch: seq<Row>, rows: seq<Row>, row: Row, budget: nat,
                                   dialect: Dialect)
    requires Splits(batches + [batch], rows, budget, dialect) && Ahead(|batches|, batch, rows, budget, dialect)
    requires Load(batch, dialect) + RowCost(row, dialect) <= budget
    ensures Splits(batches + [batch + [row]], rows + [row], budget, dialect)
    ensures Ahead(|batches|, batch + [row], rows + [row], budget, dialect)
  {
    AheadGrows(|batches|, batch, rows, row, budget, dialect);
    LoadConcat(batch, [row], dialect);
    assert [row][1..] == [];
    ConcatOne(batches, batch);
    ConcatOne(batches, batch + [row]);
    assert Concat(batches) + (batch + [row]) == (Concat(batches) + batch) + [row];
    forall b | b in batches + [batch + [row]] ensures b != [] && Load(b, dialect) <= budget {
      assert b != batch + [row] ==> b in batches + [batch];
    }
  }

  lemma {:induction false} Closing(batches: seq<seq<Row>>, batch: seq<Row>, rows: seq<Row>, row: Row, budget: nat,
                                   dialect: Dialect)
    requires rows != [] ==>
      Splits(batches + [batch], rows, budget, dialect) && Ahead(|batches|, batch, rows, budget, dialect)
    requires rows != [] && |batch| <= |rows| && batch == rows[|rows| - |batch|..]
    requires Load(batch, dialect) + RowCost(row, dialect) > budget && RowCost(row, dialect) <= budget
    ensures Splits((batches + [batch]) + [[row]], rows + [row], budget, dialect)
    ensures Ahead(|batches + [batch]|, [row], rows + [row], budget, dialect)
  {
    AheadCloses(|batches|, batch, rows, row, budget, dialect);
    assert [row][1..] == [];
    ConcatOne(batches + [batch], [row]);
  }
}

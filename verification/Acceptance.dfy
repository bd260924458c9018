/** What acceptance is worth, rule by rule: each stated on the syntax or on result rows. */
module Acceptance {
  import opened Options
  import opened Ast
  import opened Scopes
  import opened Nullability
  import opened Grouping
  import opened Validation
  import opened Render

  // ---- Data-modifying statements --------------------------------------------------------------

  /**
   An UPDATE says what it writes, an UPDATE or DELETE which rows it means, be it all of them,
   and so does every data-modifying statement in a WITH clause inside, which also says what it
   returns.
   */
  predicate BoundedDml(query: Query)
    requires !query.SelectQuery?
    decreases query, 0
  {
    && (query.Update? ==> query.values != [] && query.bounded)
    && (query.Delete? ==> query.bounded)
    && (query.Insert? ==> query.source.Some?)
    && (forall q :: q in InsertedQuery(query) ==> BoundedSelect(q))
    && (forall q :: q in AllSubqueries(DmlExpressions(query)) ==> BoundedSelect(q))
    && forall q :: q in ConflictSubqueries(query) ==> BoundedSelect(q)
  }

  predicate BoundedSelect(select: Select)
    decreases select, 0
  {
    && (forall i :: 0 <= i < |select.ctes| ==> BoundedCte(select.ctes[i]))
    && forall q :: q in InnerQueries(select) ==> BoundedSelect(q)
  }

  predicate BoundedCte(cte: Cte)
    decreases cte, 1
  {
    match cte.query
    case SelectQuery(select) => BoundedSelect(select)
    case _ => cte.query.returning != [] && !cte.recursive && BoundedDml(cte.query)
  }

  lemma {:induction false} SelectIsBounded(select: Select, dialect: Dialect, outer: set<string>)
    requires AcceptsSelect(select, dialect, outer)
    ensures BoundedSelect(select)
    decreases select, 0
  {
    hide SelectRules, SelectExpressions, Sources, BoundedCte;
    var visible := outer + CteNames(select.ctes);
    forall i | 0 <= i < |select.ctes| ensures BoundedCte(select.ctes[i]) {
      CteIsBounded(select.ctes[i], dialect, outer + CteNames(select.ctes[..i]));
    }
    forall q | q in InnerQueries(select) ensures BoundedSelect(q) {
      if q in AllSubqueries(SelectExpressions(select)) {
        SelectIsBounded(q, dialect, visible + LocalSources(select));
      } else {
        SelectIsBounded(q, dialect, visible);
      }
    }
  }

  lemma {:induction false} CteIsBounded(cte: Cte, dialect: Dialect, visible: set<string>)
    requires AcceptsCte(cte, dialect, visible)
    ensures BoundedCte(cte)
    decreases cte, 1
  {
    hide AcceptsSelect, AcceptsDml, BoundedSelect, BoundedDml;
    match cte.query
    case SelectQuery(select) =>
      SelectIsBounded(select, dialect, visible + if cte.recursive then {cte.name} else {});
    case _ =>
      DmlIsBounded(cte.query, dialect, visible);
  }

  /** No accepted statement updates or deletes without saying which rows, at any depth. */
  lemma {:induction false} DmlIsBounded(query: Query, dialect: Dialect, outer: set<string>)
    requires !query.SelectQuery? && AcceptsDml(query, dialect, outer)
    ensures BoundedDml(query)
    decreases query, 0
  {
    hide AcceptsSelect, BoundedSelect, DmlExpressions, ConflictSubqueries, InsertedQuery;
    RulesBound(query, dialect);
    forall q | q in InsertedQuery(query) ensures BoundedSelect(q) {
      SelectIsBounded(q, dialect, outer);
    }
    forall q | q in AllSubqueries(DmlExpressions(query)) || q in ConflictSubqueries(query) ensures BoundedSelect(q) {
      SelectIsBounded(q, dialect, outer + {query.table.Reference()});
    }
  }

  lemma RulesBound(query: Query, dialect: Dialect)
    requires !query.SelectQuery? && DmlRules(query, dialect)
    ensures query.Update? ==> query.values != [] && query.bounded
    ensures query.Delete? ==> query.bounded
    ensures query.Insert? ==> query.source.Some?
  {
  }

  lemma AcceptedIsBounded(query: Query, dialect: Dialect)
    requires Accepts(query, dialect)
    ensures if query.SelectQuery? then BoundedSelect(query.select) else BoundedDml(query)
  {
    hide AcceptsSelect, AcceptsDml, BoundedSelect, BoundedDml;
    if query.SelectQuery? {
      SelectIsBounded(query.select, dialect, {});
    } else {
      DmlIsBounded(query, dialect, {});
    }
  }

  /** No WITH clause at any depth holds a data-modifying body. */
  predicate ReadsOnly(select: Select)
    decreases select
  {
    && (forall i :: 0 <= i < |select.ctes| ==>
          select.ctes[i].query.SelectQuery? && ReadsOnly(select.ctes[i].query.select))
    && forall q :: q in InnerQueries(select) ==> ReadsOnly(q)
  }

  /** Nor does anything nested in the statement, outside conflict predicates. */
  predicate ReadsOnlyInside(query: Query)
    requires !query.SelectQuery?
  {
    && (forall q :: q in InsertedQuery(query) ==> ReadsOnly(q))
    && forall q :: q in AllSubqueries(DmlExpressions(query)) ==> ReadsOnly(q)
  }

  lemma {:induction false} NestedReadsOnly(select: Select, visible: set<string>)
    requires EveryNested(select, visible, NoDmlBodies) && NoDmlBodies(SelectQuery(select), visible)
    ensures ReadsOnly(select)
    decreases select, 1
  {
    hide InnerQueries, EveryNested;
    forall i | 0 <= i < |select.ctes|
      ensures select.ctes[i].query.SelectQuery? && ReadsOnly(select.ctes[i].query.select)
    {
      assert select.ctes[i] in select.ctes;
      BodyReadsOnly(select, visible, i);
    }
    forall q | q in InnerQueries(select) ensures ReadsOnly(q) {
      InnerReadsOnly(select, visible, q);
    }
  }

  lemma BodyReadsOnly(select: Select, visible: set<string>, i: nat)
    requires i < |select.ctes| && EveryNested(select, visible, NoDmlBodies)
    ensures select.ctes[i].query.SelectQuery? ==> ReadsOnly(select.ctes[i].query.select)
    ensures !select.ctes[i].query.SelectQuery? ==> ReadsOnlyInside(select.ctes[i].query)
    decreases select, 0
  {
    var s := BodyScopes(select.ctes, visible)[i];
    assert s in BodyScopes(select.ctes, visible) && s in ChildScopes(select, visible);
    assert Inside(s, select);
    if s.query.SelectQuery? {
      NestedReadsOnly(s.query.select, s.visible);
    } else {
      InsideReadsOnly(s.query, s.visible);
    }
  }

  lemma InnerReadsOnly(select: Select, visible: set<string>, q: Select)
    requires EveryNested(select, visible, NoDmlBodies) && q in InnerQueries(select)
    ensures ReadsOnly(q)
    decreases select, 0
  {
    var s := Scope(SelectQuery(q), visible + CteNames(select.ctes));
    assert s in SelectScopes(InnerQueries(select), s.visible) && s in ChildScopes(select, visible);
    NestedReadsOnly(q, s.visible);
  }

  lemma InsideReadsOnly(query: Query, visible: set<string>)
    requires !query.SelectQuery? && EveryNestedInDml(query, visible, NoDmlBodies)
    ensures ReadsOnlyInside(query)
    decreases query, 0
  {
    hide ReadsOnly, EveryNested, InsertedQuery, DmlExpressions;
    forall q | q in InsertedQuery(query) || q in AllSubqueries(DmlExpressions(query)) ensures ReadsOnly(q) {
      NestedReadsOnly(q, visible);
    }
  }

  /** Data-modifying bodies stand in the outermost WITH clause only. */
  lemma DmlStaysOutermost(query: Query, dialect: Dialect)
    requires Accepts(query, dialect)
    ensures !query.SelectQuery? ==> ReadsOnlyInside(query)
    ensures query.SelectQuery? ==> forall q :: q in InnerQueries(query.select) ==> ReadsOnly(q)
    ensures query.SelectQuery? ==> forall i :: 0 <= i < |query.select.ctes| ==>
      if query.select.ctes[i].query.SelectQuery? then ReadsOnly(query.select.ctes[i].query.select)
      else ReadsOnlyInside(query.select.ctes[i].query)
  {
    hide AcceptsStatement, EveryNested, EveryNestedInDml, ReadsOnly, ReadsOnlyInside, InnerQueries, BoundSources;
    if query.SelectQuery? {
      forall q | q in InnerQueries(query.select) ensures ReadsOnly(q) {
        InnerReadsOnly(query.select, {}, q);
      }
      forall i | 0 <= i < |query.select.ctes|
        ensures if query.select.ctes[i].query.SelectQuery? then ReadsOnly(query.select.ctes[i].query.select)
                else ReadsOnlyInside(query.select.ctes[i].query)
      {
        BodyReadsOnly(query.select, {}, i);
      }
    } else {
      InsideReadsOnly(query, {});
    }
  }

  // ---- Row locks ------------------------------------------------------------------------------------

  /**
   A locked table is in every result row: each table a lock names, or each table when it names
   none, stands in FROM or a join, and no database makes a row without a row of its own.
   */
  lemma LockedRowsArePresent(select: Select, lock: Lock, table: Table, db: Database, row: Joined)
    requires select.base.Some? && KindsKnown(select) && DistinctReferences(select) && LocksAllowed(select)
    requires lock in select.locks
    requires table in lock.tables || (lock.tables == [] && table in DirectTables(select))
    requires Fits(db, Kinds(select)) && InChain(db, Kinds(select), |select.joins|, row)
    ensures exists k :: 0 <= k <= |select.joins| && SourceAt(select, k) == Stored(table) && row[k].Some?
  {
    assert LockFits(select, lock);
    var k := TableStands(select, table);
    assert ReferenceAt(select, k) == table.Reference();
    assert Kinds(select)[..|select.joins|] == Kinds(select);
    assert !Extended(Kinds(select), k);
    NeverExtended(db, Kinds(select), |select.joins|, row, k);
  }

  function SourceAt(select: Select, k: nat): Source
    requires select.base.Some? && k <= |select.joins|
  {
    if k == 0 then select.base.value else select.joins[k - 1].source
  }

  lemma TableStands(select: Select, table: Table) returns (k: nat)
    requires select.base.Some? && table in DirectTables(select)
    ensures k <= |select.joins| && SourceAt(select, k) == Stored(table)
  {
    var sources := Sources(select);
    var s :| s in sources && s.Stored? && s.table == table;
    k :| 0 <= k < |sources| && sources[k] == s;
  }

  /** A lock stands on rows as stored: nothing is grouped, combined, made distinct or computed over many rows. */
  lemma LockedRowsAreStored(select: Select, dialect: Dialect, visible: set<string>, n: Node)
    requires SelectRules(select, dialect, visible) && select.locks != []
    ensures dialect.supportsRowLocking
    ensures !select.distinct && select.groupBy == [] && select.having.None? && select.compounds == []
    ensures forall i :: 0 <= i < |select.selections| && n in Walk(select.selections[i]) ==> !n.Aggregate? && !n.Window?
    ensures select.condition.Some? && n in Walk(select.condition.value) ==> !n.Aggregate? && !n.Window?
    ensures forall i :: 0 <= i < |select.orderBy| && n in Walk(select.orderBy[i].expression) ==> !n.Aggregate? && !n.Window?
  {
    var rows := RowExpressions(select);
    forall i | 0 <= i < |select.selections| && n in Walk(select.selections[i]) ensures !Analytic(n) {
      assert select.selections[i] in rows;
    }
    forall i | 0 <= i < |select.orderBy| && n in Walk(select.orderBy[i].expression) ensures !Analytic(n) {
      assert OrderExpressions(select.orderBy)[i] == select.orderBy[i].expression;
      assert select.orderBy[i].expression in rows;
    }
    if select.condition.Some? && n in Walk(select.condition.value) {
      assert select.condition.value in rows;
    }
  }

  // ---- INSERT -----------------------------------------------------------------------------------------

  /** What `excluded` may name, and where: the row an upsert proposed, while it updates the row that was there. */
  lemma ExcludedIsProposed(query: Query, dialect: Dialect, n: Node)
    requires query.Insert? && DmlRules(query, dialect) && n.Excluded?
    ensures query.source.value.DefaultValues? ==> query.conflict.None?
    ensures query.conflict.None? ==> !InValues(query.source.value, n)
    ensures query.conflict.Some? ==>
      var conflict := query.conflict.value;
      && (conflict.targetWhere.Some? ==> conflict.columns != [] && n !in Walk(conflict.targetWhere.value))
      && (conflict.updateWhere.Some? ==> conflict.action == "update")
      && (InValues(query.source.value, n) || InCells(conflict.updateValues, n)
          || (conflict.updateWhere.Some? && n in Walk(conflict.updateWhere.value)) ==>
            conflict.action == "update" && n.source == query.table.Reference())
  {
    hide Walk, DmlRules;
    InsertIsShaped(query, dialect);
    if InValues(query.source.value, n) {
      var e := ValueHolds(query.source.value, n);
      ProposedByUpdate(query, e, n);
    }
    if query.conflict.Some? {
      var conflict := query.conflict.value;
      if InCells(conflict.updateValues, n) {
        var e := CellHolds(conflict.updateValues, n);
        ProposedByUpdate(query, e, n);
      }
      if conflict.updateWhere.Some? && n in Walk(conflict.updateWhere.value) {
        ProposedByUpdate(query, conflict.updateWhere.value, n);
      }
      if conflict.targetWhere.Some? {
        SourceShows(conflict.targetWhere.value, n);
      }
    }
  }

  lemma SourceShows(e: Node, n: Node)
    requires n.Excluded?
    ensures n in Walk(e) ==> n.source in ExcludedSources(e)
  {
  }

  lemma InsertIsShaped(query: Query, dialect: Dialect)
    requires query.Insert? && DmlRules(query, dialect)
    ensures query.source.Some? && ConflictShape(query.table, query.source.value, query.conflict)
  {
  }

  lemma ProposedByUpdate(query: Query, e: Node, n: Node)
    requires query.Insert? && query.source.Some? && ConflictShape(query.table, query.source.value, query.conflict)
    requires n.Excluded? && n in Walk(e)
    requires e in InsertValues(query.source) + UpdateValues(query.conflict)
                  + (if query.conflict.Some? then Present(query.conflict.value.updateWhere) else [])
    ensures query.conflict.Some? && query.conflict.value.action == "update" && n.source == query.table.Reference()
  {
    hide Walk;
    assert query.source == Some(query.source.value);
    assert n.source in ExcludedSources(e);
    var proposed := set e, s | e in InsertValues(query.source) + UpdateValues(query.conflict)
                                     + (if query.conflict.Some? then Present(query.conflict.value.updateWhere) else [])
                               && s in ExcludedSources(e) :: s;
    assert n.source in proposed;
  }

  predicate InCells(cells: seq<Cell>, n: Node) {
    exists i :: 0 <= i < |cells| && n in Walk(cells[i].value)
  }

  predicate InValues(source: InsertSource, n: Node) {
    match source
    case Values(cells) => InCells(cells, n)
    case Rows(rows) => exists i :: 0 <= i < |rows| && InCells(rows[i].cells, n)
    case _ => false
  }

  lemma CellHolds(cells: seq<Cell>, n: Node) returns (e: Node)
    requires InCells(cells, n)
    ensures e in CellValues(cells) && n in Walk(e)
  {
    var i :| 0 <= i < |cells| && n in Walk(cells[i].value);
    e := cells[i].value;
    assert CellValues(cells)[i] == e;
  }

  lemma {:induction false} RowHolds(rows: seq<Row>, i: nat, e: Node)
    requires i < |rows| && e in CellValues(rows[i].cells)
    ensures e in RowValues(rows)
    decreases |rows|
  {
    if i > 0 {
      RowHolds(rows[1..], i - 1, e);
    }
  }

  lemma ValueHolds(source: InsertSource, n: Node) returns (e: Node)
    requires InValues(source, n)
    ensures e in InsertValues(Some(source)) && n in Walk(e)
  {
    match source
    case Values(cells) => e := CellHolds(cells, n);
    case Rows(rows) =>
      var i :| 0 <= i < |rows| && InCells(rows[i].cells, n);
      e := CellHolds(rows[i].cells, n);
      RowHolds(rows, i, e);
  }

  /** An INSERT has as many values as columns, in every row, and its conflict predicates only where the dialect has them. */
  lemma InsertFits(query: Query, dialect: Dialect)
    requires query.Insert? && DmlRules(query, dialect)
    ensures query.source.Some?
    ensures query.source.value.FromSelect? ==>
      query.source.value.columns != [] && |query.source.value.query.selections| == |query.source.value.columns|
    ensures query.source.value.Rows? ==> query.source.value.rows != [] && RowsAgree(query.source.value.rows)
    ensures query.conflict.Some? && (query.conflict.value.targetWhere.Some? || query.conflict.value.updateWhere.Some?) ==>
      dialect.supportsConflictPredicates
  {
    hide DmlSees, WalksAnalytic, ExpressionsDialect, ConflictShape, DmlExpressions, SameColumns, RowsAgree;
    if query.source.value.Rows? {
      SameColumnsAgree(query.source.value.rows);
    }
    if query.conflict.Some? {
      PredicatesShow(query.conflict.value);
    }
  }

  lemma PredicatesShow(conflict: Conflict)
    ensures conflict.targetWhere.Some? || conflict.updateWhere.Some? ==> ConflictPredicates(Some(conflict)) != []
  {
  }

  /** Outside nested SELECTs, a data-modifying statement computes row by row. */
  lemma DmlIsRowwise(query: Query, dialect: Dialect, n: Node)
    requires !query.SelectQuery? && DmlRules(query, dialect) && (n.Aggregate? || n.Window?)
    ensures forall i :: 0 <= i < |query.returning| ==> n !in Walk(query.returning[i])
    ensures query.Insert? && query.source.Some? ==> !InValues(query.source.value, n)
    ensures query.Insert? && query.conflict.Some? ==>
      && !InCells(query.conflict.value.updateValues, n)
      && (query.conflict.value.targetWhere.Some? ==> n !in Walk(query.conflict.value.targetWhere.value))
      && (query.conflict.value.updateWhere.Some? ==> n !in Walk(query.conflict.value.updateWhere.value))
    ensures query.Update? ==> !InCells(query.values, n)
    ensures query.Update? && query.condition.Some? ==> n !in Walk(query.condition.value)
    ensures query.Delete? && query.condition.Some? ==> n !in Walk(query.condition.value)
  {
    hide Walk, DmlSees, ExpressionsDialect, ConflictShape, SourceShape, InValues, InCells, RowValues, CellValues;
    var all := AllDmlExpressions(query);
    assert forall e :: e in all ==> n !in Walk(e);
    if query.Insert? {
      assert forall e :: e in InsertValues(query.source) + UpdateValues(query.conflict) ==> e in all;
      if query.source.Some? {
        assert query.source == Some(query.source.value);
        NoneInValues(query.source.value, n);
      }
      if query.conflict.Some? {
        NoneInCells(query.conflict.value.updateValues, n);
      }
    } else if query.Update? {
      assert forall e :: e in CellValues(query.values) ==> e in all;
      NoneInCells(query.values, n);
    }
  }

  lemma NoneInCells(cells: seq<Cell>, n: Node)
    requires forall e :: e in CellValues(cells) ==> n !in Walk(e)
    ensures !InCells(cells, n)
  {
    if InCells(cells, n) {
      var e := CellHolds(cells, n);
    }
  }

  lemma NoneInValues(source: InsertSource, n: Node)
    requires forall e :: e in InsertValues(Some(source)) ==> n !in Walk(e)
    ensures !InValues(source, n)
  {
    if InValues(source, n) {
      var e := ValueHolds(source, n);
    }
  }

  // ---- Set operations -----------------------------------------------------------------------------------

  /** The arms of a set operation have as many columns as its first SELECT, and nothing that belongs to the whole. */
  lemma ArmsFit(select: Select, dialect: Dialect, visible: set<string>, i: nat)
    requires SelectRules(select, dialect, visible) && i < |select.compounds|
    ensures var arm := select.compounds[i].query;
      && |arm.selections| == |select.selections|
      && arm.ctes == [] && arm.compounds == [] && arm.orderBy == [] && arm.locks == []
      && arm.limit.None? && arm.offset.None?
    ensures select.orderBy == [] && select.limit.None? && select.offset.None? && select.locks == []
  {
    assert select.compounds[i] in select.compounds;
  }

  // ---- Words that are printed as they are -----------------------------------------------------------------

  predicate PlainWord(word: string) {
    word != "" && forall i :: 0 <= i < |word| ==> 'a' <= word[i] <= 'z' || word[i] == '_'
  }

  /** Whatever a temporal node prints without quoting is a plain word, and its interval steps forward. */
  lemma TemporalWordsArePlain(n: Node, dialect: Dialect)
    requires NodeDialect(n, dialect)
    ensures n.Clock? ==> PlainWord(n.kind)
    ensures n.Extract? || n.Trunc? ==> PlainWord(n.field)
    ensures n.TemporalCall? ==> PlainWord(n.callee)
    ensures n.MakeInterval? ==>
      && (forall i :: 0 <= i < |n.components| ==> PlainWord(n.components[i].name))
      && forall i, j :: 0 <= i < j < |n.components| ==> n.components[i].name != n.components[j].name
    ensures n.Arithmetic? ==> n.operator == "+" || n.operator == "-"
    ensures n.Bin? && n.stride.Bound? && n.stride.value.IntervalValue? ==>
      n.stride.value.months == 0 && n.stride.value.days * 86_400_000_000 + n.stride.value.microseconds > 0
    ensures IsTemporal(n) ==> dialect.supportsTemporalArithmetic
  {
    if n.Clock? {
      ClockWords(n.kind);
    } else if n.Extract? {
      FieldWords(n.field);
    } else if n.Trunc? {
      UnitWords(n.field);
    } else if n.TemporalCall? {
      CallWords(n.callee);
    } else if n.MakeInterval? {
      forall i | 0 <= i < |n.components| ensures PlainWord(n.components[i].name) {
        assert n.components[i] in n.components;
        ComponentWords(n.components[i].name);
      }
    }
  }

  lemma ClockWords(word: string)
    requires word in CLOCKS
    ensures PlainWord(word)
  {
  }

  lemma FieldWords(word: string)
    requires word in EXTRACT_FIELDS
    ensures PlainWord(word)
  {
  }

  lemma UnitWords(word: string)
    requires word in TRUNC_UNITS
    ensures PlainWord(word)
  {
  }

  lemma CallWords(word: string)
    requires word in CALLS
    ensures PlainWord(word)
  {
  }

  lemma ComponentWords(word: string)
    requires word in COMPONENTS
    ensures PlainWord(word)
  {
  }
}

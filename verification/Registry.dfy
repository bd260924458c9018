/**
 The per-connection transaction registry that the SQLite and PostgreSQL executors
 both keep: an ordered list of live handles, the stack of transactions in it, and
 the reserved savepoint names.  Handles are objects whose flags the registry's
 cascading invalidation changes in place.
 */
module Registry {
  import opened Options
  import opened Sequences

  /** The key under which a savepoint name is reserved: ASCII letters lose their case. */
  function SavepointNameKey(name: string): string {
    seq(|name|, i requires 0 <= i < |name| =>
      if 'A' <= name[i] <= 'Z' then (name[i] as int + ('a' as int - 'A' as int)) as char else name[i])
  }

  const UPPER := "ABCDEFGHIJKLMNOPQRSTUVWXYZ"
  const LOWER := "abcdefghijklmnopqrstuvwxyz"

  predicate SameLetter(a: char, b: char) {
    a == b || exists k :: 0 <= k < 26 && ((a == UPPER[k] && b == LOWER[k]) || (a == LOWER[k] && b == UPPER[k]))
  }

  /** Two names share a key exactly when they differ in the case of ASCII letters only. */
  lemma KeysFoldCase(a: string, b: string)
    ensures SavepointNameKey(a) == SavepointNameKey(b) <==>
            |a| == |b| && forall i :: 0 <= i < |a| ==> SameLetter(a[i], b[i])
  {
    var x, y := SavepointNameKey(a), SavepointNameKey(b);
    forall i | 0 <= i < |a| && i < |b| ensures x[i] == y[i] <==> SameLetter(a[i], b[i]) {
      FoldedLetters(a[i], b[i]);
      assert SavepointNameKey([a[i]]) == [x[i]] && SavepointNameKey([b[i]]) == [y[i]];
    }
    hide SameLetter;
  }

  lemma FoldedLetters(a: char, b: char)
    ensures SavepointNameKey([a]) == SavepointNameKey([b]) <==> SameLetter(a, b)
  {
    hide SameLetter;
    PairedLetters(a, b);
    assert SavepointNameKey([a])[0] == SavepointNameKey([b])[0] <==> SavepointNameKey([a]) == SavepointNameKey([b]);
  }

  lemma PairedLetters(a: char, b: char)
    ensures SameLetter(a, b) <==>
      a == b || ('A' <= a <= 'Z' && b as int == a as int + 32) || ('A' <= b <= 'Z' && a as int == b as int + 32)
  {
    LetterPairs();
    if 'A' <= a <= 'Z' {
      assert UPPER[a as int - 'A' as int] == a;
    }
    if 'A' <= b <= 'Z' {
      assert UPPER[b as int - 'A' as int] == b;
    }
  }

  lemma LetterPairs()
    ensures forall k :: 0 <= k < 26 ==> UPPER[k] as int == 'A' as int + k && LOWER[k] as int == 'a' as int + k
  {
  }

  /** Either kind of registered handle. */
  datatype Entry = TransactionEntry(transaction: Transaction) | SavepointEntry(savepoint: Savepoint) {
    predicate Named() {
      SavepointEntry? || transaction.generatedName.Some?
    }

    function Name(): string
      requires Named()
    {
      if SavepointEntry? then savepoint.name else transaction.generatedName.value
    }

    function Key(): string
      requires Named()
    {
      SavepointNameKey(Name())
    }

    /** The work that was pending when the handle was opened. */
    ghost function Origin(): seq<string> {
      if SavepointEntry? then savepoint.origin else transaction.origin
    }

    /** The transaction an entry belongs to; a transaction belongs to itself. */
    function Owner(): Transaction {
      if SavepointEntry? then savepoint.transaction else transaction
    }

    ghost function Object(): object {
      if SavepointEntry? then savepoint else transaction
    }

    /** A handle no operation accepts any more. */
    ghost predicate Dead()
      reads Object()
    {
      if SavepointEntry? then savepoint.released || savepoint.invalidated else transaction.closed
    }
  }

  ghost function TransactionsOf(entries: seq<Entry>): seq<Transaction> {
    if entries == [] then []
    else TransactionsOf(entries[..|entries| - 1]) +
         if entries[|entries| - 1].TransactionEntry? then [entries[|entries| - 1].transaction] else []
  }

  /** The names of the named entries, oldest first. */
  ghost function Names(entries: seq<Entry>): seq<string> {
    if entries == [] then []
    else Names(entries[..|entries| - 1]) +
         if entries[|entries| - 1].Named() then [entries[|entries| - 1].Name()] else []
  }

  /** Every savepoint comes after the transaction it belongs to. */
  ghost predicate OwnersFirst(entries: seq<Entry>) {
    entries == [] ||
    (var init, last := entries[..|entries| - 1], entries[|entries| - 1];
     OwnersFirst(init) && (last.SavepointEntry? ==> TransactionEntry(last.savepoint.transaction) in init))
  }

  ghost predicate DistinctKeys(entries: seq<Entry>) {
    forall e, f | e in entries && f in entries && e != f && e.Named() && f.Named() :: e.Key() != f.Key()
  }

  /** What the entry list alone must satisfy. */
  ghost predicate WellFormed(entries: seq<Entry>) {
    NoDuplicates(entries) && OwnersFirst(entries) && DistinctKeys(entries)
  }

  ghost function KeysOf(entries: seq<Entry>): set<string> {
    set e | e in entries && e.Named() :: e.Key()
  }

  /** No savepoint outside `gone` belongs to a transaction in `gone`. */
  ghost predicate ClosedUnderOwnership(entries: seq<Entry>, gone: set<Entry>) {
    forall e | e in entries && TransactionEntry(e.Owner()) in gone :: e in gone
  }

  lemma OwnersFirstMember(entries: seq<Entry>, e: Entry)
    requires OwnersFirst(entries) && e in entries
    ensures TransactionEntry(e.Owner()) in entries
  {
    if e != entries[|entries| - 1] {
      OwnersFirstMember(entries[..|entries| - 1], e);
    }
  }

  lemma OwnersFirstPrefix(entries: seq<Entry>, k: nat)
    requires OwnersFirst(entries) && k <= |entries|
    ensures OwnersFirst(entries[..k])
  {
    if k < |entries| {
      assert entries[..|entries| - 1][..k] == entries[..k];
      OwnersFirstPrefix(entries[..|entries| - 1], k);
    } else {
      assert entries[..k] == entries;
    }
  }

  lemma OwnersFirstWithout(entries: seq<Entry>, gone: set<Entry>)
    requires OwnersFirst(entries) && ClosedUnderOwnership(entries, gone)
    ensures OwnersFirst(Without(entries, gone))
  {
    if entries != [] {
      var init, last := entries[..|entries| - 1], entries[|entries| - 1];
      OwnersFirstWithout(init, gone);
      if last !in gone {
        assert Without(entries, gone)[..|Without(entries, gone)| - 1] == Without(init, gone);
      } else {
        assert Without(entries, gone) == Without(init, gone);
      }
    }
  }

  lemma WellFormedWithout(entries: seq<Entry>, gone: set<Entry>)
    requires WellFormed(entries) && ClosedUnderOwnership(entries, gone)
    ensures WellFormed(Without(entries, gone))
  {
    WithoutNoDuplicates(entries, gone);
    OwnersFirstWithout(entries, gone);
  }

  /** Dropping one entry frees exactly its own key. */
  lemma KeysOfWithout(entries: seq<Entry>, e: Entry)
    requires DistinctKeys(entries) && e in entries
    ensures KeysOf(Without(entries, {e})) == KeysOf(entries) - if e.Named() then {e.Key()} else {}
  {
    var rest := Without(entries, {e});
    forall k | k in KeysOf(entries) && (e.Named() ==> k != e.Key())
      ensures k in KeysOf(rest)
    {
      var f :| f in entries && f.Named() && f.Key() == k;
      assert f in rest;
    }
  }

  lemma TransactionsOfWithout(entries: seq<Entry>, gone: set<Entry>, ts: set<Transaction>)
    requires forall e | e in entries && e.TransactionEntry? :: e.transaction in ts <==> e in gone
    ensures TransactionsOf(Without(entries, gone)) == Without(TransactionsOf(entries), ts)
  {
    if entries != [] {
      var init, last := entries[..|entries| - 1], entries[|entries| - 1];
      TransactionsOfWithout(init, gone, ts);
      WithoutConcat(TransactionsOf(init), if last.TransactionEntry? then [last.transaction] else [], ts);
      if last.TransactionEntry? {
        assert [last.transaction][..0] == [];
      }
      if last !in gone {
        assert Without(entries, gone)[..|Without(entries, gone)| - 1] == Without(init, gone);
      } else {
        assert Without(entries, gone) == Without(init, gone);
      }
    }
  }

  lemma TransactionsOfMembers(entries: seq<Entry>)
    ensures forall t | t in TransactionsOf(entries) :: TransactionEntry(t) in entries
    ensures forall e | e in entries && e.TransactionEntry? :: e.transaction in TransactionsOf(entries)
  {
    if entries != [] {
      TransactionsOfMembers(entries[..|entries| - 1]);
    }
  }

  lemma TransactionsOfNoDuplicates(entries: seq<Entry>)
    requires NoDuplicates(entries)
    ensures NoDuplicates(TransactionsOf(entries))
  {
    if entries != [] {
      TransactionsOfNoDuplicates(entries[..|entries| - 1]);
      TransactionsOfMembers(entries[..|entries| - 1]);
    }
  }

  function GeneratedNames(generatedName: Option<string>): set<string> {
    if generatedName.Some? then {generatedName.value} else {}
  }

  function Reservation(generatedName: Option<string>): set<string> {
    if generatedName.Some? then {SavepointNameKey(generatedName.value)} else {}
  }

  /** How the views of the entry list grow when a handle is registered. */
  lemma Appended(entries: seq<Entry>, e: Entry)
    ensures TransactionsOf(entries + [e]) ==
            TransactionsOf(entries) + if e.TransactionEntry? then [e.transaction] else []
    ensures Names(entries + [e]) == Names(entries) + if e.Named() then [e.Name()] else []
    ensures KeysOf(entries + [e]) == KeysOf(entries) + if e.Named() then {e.Key()} else {}
    ensures OwnersFirst(entries) && (e.SavepointEntry? ==> TransactionEntry(e.Owner()) in entries) ==>
              OwnersFirst(entries + [e])
  {
    assert (entries + [e])[..|entries + [e]| - 1] == entries;
  }

  lemma ForgetIsWellFormed(entries: seq<Entry>, e: Entry)
    requires WellFormed(entries) && e in entries && e.SavepointEntry?
    ensures NoDuplicates(entries)
    ensures TransactionEntry(e.Owner()) in entries
    ensures WellFormed(Without(entries, {e}))
    ensures KeysOf(Without(entries, {e})) == KeysOf(entries) - {e.Key()}
    ensures TransactionsOf(Without(entries, {e})) == TransactionsOf(entries)
    ensures forall f | f in entries && f != e && f.Named() :: f.Key() != e.Key()
  {
    OwnersFirstMember(entries, e);
    WellFormedWithout(entries, {e});
    KeysOfWithout(entries, e);
    TransactionsOfWithout(entries, {e}, {});
    WithoutNothing(TransactionsOf(entries), {});
  }

  lemma CloseIsWellFormed(entries: seq<Entry>, e: Entry)
    requires WellFormed(entries) && e in entries && e.TransactionEntry?
    requires ClosedUnderOwnership(entries, {e})
    ensures NoDuplicates(entries) && NoDuplicates(TransactionsOf(entries))
    ensures WellFormed(Without(entries, {e}))
    ensures KeysOf(Without(entries, {e})) == KeysOf(entries) - if e.Named() then {e.Key()} else {}
    ensures TransactionsOf(Without(entries, {e})) == Without(TransactionsOf(entries), {e.transaction})
  {
    WellFormedWithout(entries, {e});
    KeysOfWithout(entries, e);
    TransactionsOfNoDuplicates(entries);
    TransactionsOfWithout(entries, {e}, {e.transaction});
  }

  lemma AppendedIsWellFormed(entries: seq<Entry>, e: Entry)
    requires WellFormed(entries) && e !in entries
    requires e.SavepointEntry? ==> TransactionEntry(e.Owner()) in entries
    requires e.Named() ==> e.Key() !in KeysOf(entries)
    ensures WellFormed(entries + [e])
    ensures KeysOf(entries + [e]) == KeysOf(entries) + if e.Named() then {e.Key()} else {}
    ensures TransactionsOf(entries + [e]) ==
            TransactionsOf(entries) + if e.TransactionEntry? then [e.transaction] else []
  {
    Appended(entries, e);
    forall f | f in entries && e.Named() && f.Named() ensures f.Key() != e.Key() {
      assert f.Key() in KeysOf(entries);
    }
  }

  lemma OwnerIsRegistered(entries: seq<Entry>, e: Entry)
    requires WellFormed(entries) && e in entries
    ensures TransactionEntry(e.Owner()) in entries
  {
    OwnersFirstMember(entries, e);
  }

  lemma NewestOwnsNothing(entries: seq<Entry>, e: Entry)
    requires WellFormed(entries) && e in entries && e.SavepointEntry?
    ensures TransactionEntry(e.Owner()) != entries[|entries| - 1]
  {
    var init := entries[..|entries| - 1];
    if e in init {
      OwnersFirstMember(init, e);
      assert TransactionEntry(e.Owner()) in init;
    }
  }

  lemma OwnerIsRegisteredUnlessGone(entries: seq<Entry>, e: Entry, gone: set<Entry>)
    requires WellFormed(entries) && (e in entries || e in gone)
    ensures e in gone || TransactionEntry(e.Owner()) in entries
  {
    if e in entries {
      OwnersFirstMember(entries, e);
    }
  }

  /** Savepoints of a transaction registered at `start` or later are registered there too. */
  lemma OwnersFirstSuffix(entries: seq<Entry>, start: nat)
    requires WellFormed(entries) && start <= |entries|
    ensures forall e | e in entries && TransactionEntry(e.Owner()) in entries[start..] :: e in entries[start..]
    ensures NoDuplicates(entries[start..]) && forall e | e in entries[..start] :: e !in entries[start..]
  {
    OwnersFirstPrefix(entries, start);
    forall e | e in entries && e !in entries[start..]
      ensures TransactionEntry(e.Owner()) !in entries[start..]
    {
      assert e in entries[..start];
      OwnersFirstMember(entries[..start], e);
    }
  }

  /** A user savepoint.  `released` and `invalidated` are set once and never reset. */
  class Savepoint {
    const transaction: Transaction
    const name: string
    var released: bool
    var invalidated: bool
    ghost const origin: seq<string>

    constructor (transaction: Transaction, quotedName: string, ghost origin: seq<string>)
      ensures this.transaction == transaction && name == quotedName && this.origin == origin
      ensures !released && !invalidated
    {
      this.transaction := transaction;
      name := quotedName;
      this.origin := origin;
      released := false;
      invalidated := false;
    }

    /** Releases a savepoint that nothing newer depends on. */
    method ReleaseNewest()
      requires transaction.state.Sound()
      requires transaction.state.Newest(SavepointEntry(this))
      modifies this, transaction, transaction.state
      ensures transaction.state.Sound() && released
      ensures transaction.state.entries == old(transaction.state.entries)[..|old(transaction.state.entries)| - 1]
      ensures transaction.state.issued == old(transaction.state.issued)
    {
      hide WellFormed, KeysOf, TransactionsOf, Without, SavepointNameKey;
      transaction.state.GoneStaysGone();
      transaction.state.WithoutNewest({SavepointEntry(this)});
      transaction.ForgetSavepoint(this);
      released := true;
      forall e | e in transaction.state.issued ensures e.Dead() <==> e !in transaction.state.entries {
        assert e in transaction.state.entries ==> transaction.state.Coherent(e);
        assert e != SavepointEntry(this) && e !in transaction.state.entries ==> old(e.Dead());
      }
    }

    /** Invalidates a savepoint that nothing newer depends on. */
    method InvalidateNewest()
      requires transaction.state.Sound()
      requires transaction.state.Newest(SavepointEntry(this))
      modifies this, transaction, transaction.state
      ensures transaction.state.Sound() && invalidated
      ensures transaction.state.entries == old(transaction.state.entries)[..|old(transaction.state.entries)| - 1]
      ensures transaction.state.issued == old(transaction.state.issued)
    {
      hide WellFormed, KeysOf, TransactionsOf, Without, SavepointNameKey;
      transaction.state.GoneStaysGone();
      transaction.state.WithoutNewest({SavepointEntry(this)});
      assert transaction.state.Coherent(SavepointEntry(this));
      Invalidate();
      forall e | e in transaction.state.issued ensures e.Dead() <==> e !in transaction.state.entries {
        assert e in transaction.state.entries ==> transaction.state.Coherent(e);
        assert e != SavepointEntry(this) && e !in transaction.state.entries ==> old(e.Dead());
      }
    }

    /** Drops a live savepoint from the registry; does nothing to a dead one. */
    method Invalidate()
      requires transaction.state.Valid()
      requires released || invalidated || SavepointEntry(this) in transaction.state.entries
      modifies this, transaction, transaction.state
      ensures transaction.state.Valid()
      ensures old(released || invalidated) ==>
        unchanged(this) && unchanged(transaction) && unchanged(transaction.state)
      ensures !old(released || invalidated) ==>
        transaction.Forgot(this, old(transaction.state.entries), old(transaction.savepoints))
      ensures transaction.state.stack == old(transaction.state.stack)
      ensures transaction.state.issued == old(transaction.state.issued)
      ensures SavepointEntry(this).Dead() && released == old(released)
    {
      hide WellFormed, KeysOf, TransactionsOf, Without, SavepointNameKey;
      if released || invalidated {
        return;
      }
      assert transaction.state.Coherent(SavepointEntry(this));
      transaction.ForgetSavepoint(this);
      invalidated := true;
    }
  }

  /** A controlled transaction; a nested one is a savepoint with a generated name. */
  class Transaction {
    const state: TransactionState
    const generatedName: Option<string>
    var savepointNames: set<string>
    var savepoints: seq<Savepoint>
    var closed: bool
    ghost const origin: seq<string>

    constructor (state: TransactionState, generatedName: Option<string>, ghost origin: seq<string>)
      requires state.SoundReserving(Reservation(generatedName))
      modifies state
      ensures this.state == state && this.generatedName == generatedName && this.origin == origin
      ensures state.Sound() && !closed
      ensures state.entries == old(state.entries) + [TransactionEntry(this)]
      ensures state.stack == old(state.stack) + [this]
      ensures state.issued == old(state.issued) + {TransactionEntry(this)}
    {
      this.state := state;
      this.generatedName := generatedName;
      this.origin := origin;
      savepointNames := GeneratedNames(generatedName);
      savepoints := [];
      closed := false;
      new;
      hide WellFormed, KeysOf, TransactionsOf, SavepointNameKey;
      assert TransactionEntry(this) !in state.issued;
      state.RegisterTransaction(this);
    }

    /** Creates, records and registers a savepoint under an already reserved name. */
    method AddSavepoint(quoted: string, ghost origin: seq<string>) returns (savepoint: Savepoint)
      requires state.SoundReserving({SavepointNameKey(quoted)})
      requires TransactionEntry(this) in state.entries
      modifies this, state
      ensures state.Sound() && fresh(savepoint)
      ensures savepoint.transaction == this && savepoint.name == quoted && savepoint.origin == origin
      ensures state.entries == old(state.entries) + [SavepointEntry(savepoint)]
      ensures state.stack == old(state.stack)
      ensures state.issued == old(state.issued) + {SavepointEntry(savepoint)}
    {
      hide WellFormed, KeysOf, TransactionsOf, SavepointNameKey, Reservation, GeneratedNames;
      assert state.Coherent(TransactionEntry(this));
      ghost var before := state.entries;
      savepointNames := savepointNames + {quoted};
      savepoint := new Savepoint(this, quoted, origin);
      assert savepoint !in savepoints && SavepointEntry(savepoint) !in before;
      savepoints := savepoints + [savepoint];
      state.RegisterSavepoint(savepoint);
      AppendedIsWellFormed(before, SavepointEntry(savepoint));
      forall f | f in state.entries ensures state.Coherent(f) {
        assert f in before || f == SavepointEntry(savepoint);
      }
    }

    /** Marks the transaction and its savepoints unusable and unregisters them. */
    method Close()
      requires state.Valid() && TransactionEntry(this) in state.entries
      modifies this, state, savepoints
      ensures state.Valid()
      ensures state.entries == Without(old(state.entries), OwnEntries(this, old(savepoints)))
      ensures forall e | e in OwnEntries(this, old(savepoints)) :: e.Dead()
      ensures state.issued == old(state.issued)
    {
      hide WellFormed, KeysOf, TransactionsOf, Without, RemoveFirst, SavepointNameKey;
      ghost var e, before, mine := TransactionEntry(this), state.entries, savepoints;
      assert state.Coherent(e);
      InvalidateSavepoints();
      Unregister();
      ghost var ownSavepoints := set s | s in mine :: SavepointEntry(s);
      WithoutTwice(before, ownSavepoints, {e});
      assert ownSavepoints + {e} == OwnEntries(this, mine);
    }

    /** The second half of closing, once the transaction has no savepoints left. */
    method Unregister()
      requires state.Valid() && TransactionEntry(this) in state.entries && savepoints == []
      modifies this, state
      ensures state.Valid() && closed
      ensures state.entries == Without(old(state.entries), {TransactionEntry(this)})
      ensures state.issued == old(state.issued)
    {
      hide WellFormed, KeysOf, TransactionsOf, Without, RemoveFirst, SavepointNameKey;
      var e := TransactionEntry(this);
      ghost var kept := state.entries;
      assert state.Coherent(e);
      assert ClosedUnderOwnership(kept, {e});
      CloseIsWellFormed(kept, e);
      savepointNames, state.savepointNames :=
        {}, state.savepointNames - (set n | n in savepointNames :: SavepointNameKey(n));
      closed := true;
      state.RemoveEntry(e);
      RemoveFirstIsWithout(state.stack, this);
      state.stack := RemoveFirst(state.stack, this);
      forall f | f in state.entries ensures state.Coherent(f) {
        assert f in kept;
      }
    }

    /** Closes a transaction that nothing newer depends on. */
    method CloseNewest()
      requires state.Sound() && state.Newest(TransactionEntry(this))
      modifies this, state
      ensures state.Sound() && closed
      ensures state.entries == old(state.entries)[..|old(state.entries)| - 1]
      ensures state.issued == old(state.issued)
    {
      hide WellFormed, KeysOf, TransactionsOf, Without, RemoveFirst, SavepointNameKey;
      state.GoneStaysGone();
      assert state.Coherent(TransactionEntry(this));
      if savepoints != [] {
        NewestOwnsNothing(state.entries, SavepointEntry(savepoints[0]));
      }
      assert savepoints == [];
      assert OwnEntries(this, savepoints) == {TransactionEntry(this)};
      state.WithoutNewest({TransactionEntry(this)});
      Close();
      forall e | e in state.issued ensures e.Dead() <==> e !in state.entries {
        assert e in state.entries ==> state.Coherent(e);
        assert e != TransactionEntry(this) && e !in state.entries ==> old(e.Dead());
      }
    }

    /** The first loop of clearing a transaction: each savepoint is invalidated in turn. */
    method InvalidateSavepoints()
      requires state.Valid() && TransactionEntry(this) in state.entries
      modifies this, state, savepoints
      ensures state.Valid() && savepoints == [] && !closed
      ensures state.entries == Without(old(state.entries), set s | s in old(savepoints) :: SavepointEntry(s))
      ensures state.stack == old(state.stack) && state.issued == old(state.issued)
      ensures forall s | s in old(savepoints) :: SavepointEntry(s).Dead()
    {
      hide WellFormed, KeysOf, TransactionsOf, Without, RemoveFirst, SavepointNameKey;
      ghost var before := state.entries;
      var snapshot := savepoints;
      ghost var gone: set<Entry> := {};
      WithoutNothing(before, gone);
      assert state.Coherent(TransactionEntry(this));
      var k := 0;
      while k < |snapshot|
        invariant 0 <= k <= |snapshot|
        invariant state.Valid() && TransactionEntry(this) in state.entries && !closed
        invariant gone == set s | s in snapshot[..k] :: SavepointEntry(s)
        invariant state.entries == Without(before, gone)
        invariant savepoints == snapshot[k..]
        invariant state.stack == old(state.stack) && state.issued == old(state.issued)
        invariant forall s | s in snapshot[..k] :: SavepointEntry(s).Dead()
      {
        var s := snapshot[k];
        assert state.Coherent(TransactionEntry(this));
        assert s in savepoints && state.Coherent(SavepointEntry(s));
        WithoutHead(savepoints);
        s.Invalidate();
        WithoutTwice(before, gone, {SavepointEntry(s)});
        gone := gone + {SavepointEntry(s)};
        k := k + 1;
      }
      assert snapshot[..k] == snapshot;
    }

    /** What `ForgetSavepoint` leaves behind, in terms of the lists before it. */
    ghost predicate Forgot(savepoint: Savepoint, entries: seq<Entry>, mine: seq<Savepoint>)
      reads this, state
    {
      && state.entries == Without(entries, {SavepointEntry(savepoint)})
      && savepoints == Without(mine, {savepoint})
      && !closed
    }

    method ForgetSavepoint(savepoint: Savepoint)
      requires state.Valid()
      requires SavepointEntry(savepoint) in state.entries && savepoint.transaction == this
      modifies this, state
      ensures state.Valid()
      ensures Forgot(savepoint, old(state.entries), old(savepoints))
      ensures state.stack == old(state.stack) && state.issued == old(state.issued)
    {
      hide WellFormed, KeysOf, TransactionsOf, Without, RemoveFirst, SavepointNameKey;
      ghost var e, before := SavepointEntry(savepoint), state.entries;
      ForgetIsWellFormed(before, e);
      assert state.Coherent(e) && state.Coherent(TransactionEntry(this));
      RemoveFirstIsWithout(savepoints, savepoint);
      WithoutNoDuplicates(savepoints, {savepoint});
      savepoints := RemoveFirst(savepoints, savepoint);
      state.RemoveEntry(SavepointEntry(savepoint));
      savepointNames := savepointNames - {savepoint.name};
      state.ReleaseSavepointName(savepoint.name);
      forall f | f in state.entries ensures state.Coherent(f) {
        assert f in before;
      }
    }
  }

  ghost function OwnEntries(transaction: Transaction, savepoints: seq<Savepoint>): set<Entry> {
    {TransactionEntry(transaction)} + (set s | s in savepoints :: SavepointEntry(s))
  }

  class TransactionState {
    var stack: seq<Transaction>
    var entries: seq<Entry>
    var savepointNames: set<string>
    /** Every handle this registry ever gave out. */
    ghost var issued: set<Entry>

    ghost function Footprint(): set<object>
      reads this
    {
      {this} + (set e | e in entries :: e.Object()) + (set e | e in entries :: e.Owner() as object)
    }

    ghost predicate Coherent(e: Entry)
      reads this, e.Object(), e.Owner()
    {
      match e
      case TransactionEntry(t) =>
        && t.state == this
        && !t.closed
        && NoDuplicates(t.savepoints)
        && (forall s | s in t.savepoints :: SavepointEntry(s) in entries && s.transaction == t)
        && t.savepointNames == GeneratedNames(t.generatedName) + (set s | s in t.savepoints :: s.name)
      case SavepointEntry(s) =>
        && !s.released
        && !s.invalidated
        && s in s.transaction.savepoints
    }

    /** The registry invariant. */
    ghost predicate Valid()
      reads this, Footprint()
    {
      ValidReserving({})
    }

    /** The invariant while the keys in `reserved` await the handle that will carry them. */
    ghost predicate ValidReserving(reserved: set<string>)
      reads this, Footprint()
    {
      && WellFormed(entries)
      && (forall e | e in entries :: Coherent(e))
      && stack == TransactionsOf(entries)
      && savepointNames == KeysOf(entries) + reserved
      && reserved !! KeysOf(entries)
    }

    /** A handle is usable exactly while it is registered, whatever happened to it before. */
    ghost predicate UsableIffRegistered()
      reads this, (set e | e in issued :: e.Object())
    {
      && (forall e | e in issued :: e.Owner().state == this && (e.Dead() <==> e !in entries))
      && (forall e | e in entries :: e in issued)
    }

    ghost predicate Sound()
      reads this, Footprint(), (set e | e in issued :: e.Object())
    {
      SoundReserving({})
    }

    ghost predicate SoundReserving(reserved: set<string>)
      reads this, Footprint(), (set e | e in issued :: e.Object())
    {
      ValidReserving(reserved) && UsableIffRegistered()
    }

    constructor ()
      ensures Sound() && entries == [] && issued == {}
    {
      stack, entries, savepointNames, issued := [], [], {}, {};
    }

    ghost predicate Newest(e: Entry)
      reads this
    {
      entries != [] && entries[|entries| - 1] == e
    }

    lemma WithoutNewest(gone: set<Entry>)
      requires Valid() && entries != [] && gone == {entries[|entries| - 1]}
      ensures Without(entries, gone) == entries[..|entries| - 1]
    {
      var init := entries[..|entries| - 1];
      assert entries == init + entries[|entries| - 1..];
      WithoutTail(init, entries[|entries| - 1..], gone);
    }

    lemma GoneStaysGone()
      requires Valid()
      ensures forall e | e in issued && e !in entries :: e.Object() !in Footprint()
    {
      forall e | e in issued && e !in entries ensures e.Object() !in Footprint() {
        GoneIsOutsideFootprint(e);
      }
    }

    lemma TransactionOutlivesSavepoints(savepoint: Savepoint)
      requires Sound() && SavepointEntry(savepoint) in issued
      ensures savepoint.transaction.closed ==> SavepointEntry(savepoint) !in entries
    {
      if SavepointEntry(savepoint) in entries {
        OwnersFirstMember(entries, SavepointEntry(savepoint));
        assert Coherent(TransactionEntry(savepoint.transaction));
      }
    }

    lemma NewestTransaction() returns (k: nat)
      requires Sound() && stack != []
      ensures k < |entries| && entries[k] == TransactionEntry(stack[|stack| - 1])
    {
      TransactionsOfMembers(entries);
      assert stack[|stack| - 1] in stack;
      k :| k < |entries| && entries[k] == TransactionEntry(stack[|stack| - 1]);
    }

    lemma OwnerIsEntry(e: Entry)
      requires Sound() && e in entries
      ensures TransactionEntry(e.Owner()) in entries
    {
      OwnersFirstMember(entries, e);
    }

    lemma InFootprint(e: Entry)
      requires e in entries
      ensures e.Object() in Footprint() && e.Owner() in Footprint()
    {
    }

    lemma EntriesDistinct()
      requires Sound()
      ensures NoDuplicates(entries)
    {
    }

    lemma PositionIsIndex(k: nat)
      requires Sound() && k < |entries|
      ensures NoDuplicates(entries) && IndexOf(entries, entries[k]) == k
      ensures entries[k].Owner().state == this && entries[k] in issued
    {
    }

    lemma FootprintIsIssued()
      requires Sound()
      ensures forall o | o in Footprint() :: o == this || exists e | e in issued :: e.Object() == o
    {
      forall o | o in Footprint() && o != this
        ensures exists e | e in issued :: e.Object() == o
      {
        var e :| e in entries && (o == e.Object() || o == e.Owner());
        OwnersFirstMember(entries, e);
        assert o == e.Object() || TransactionEntry(e.Owner()).Object() == o;
      }
    }

    lemma StackEmptyIffNoEntries()
      requires Sound()
      ensures stack == [] <==> entries == []
    {
      TransactionsOfMembers(entries);
      if entries != [] {
        OwnersFirstMember(entries, entries[0]);
        assert TransactionEntry(entries[0].Owner()).transaction in TransactionsOf(entries);
      }
    }

    lemma UsableMeansRegistered(e: Entry)
      requires Sound() && e in issued
      ensures e.Dead() <==> e !in entries
      ensures e.Owner().state == this
      ensures e in entries ==> TransactionEntry(e.Owner()) in entries && NoDuplicates(entries)
    {
      if e in entries {
        OwnersFirstMember(entries, e);
      }
    }

    /** Handles that are gone from the registry lie outside what registry methods touch. */
    lemma GoneIsOutsideFootprint(e: Entry)
      requires Valid() && e !in entries
      ensures e.Object() !in Footprint()
    {
      hide WellFormed, KeysOf, TransactionsOf, SavepointNameKey;
      forall f | f in entries ensures e.Object() != f.Object() && e.Object() != f.Owner() {
        OwnerIsRegistered(entries, f);
      }
    }

    method RegisterTransaction(transaction: Transaction)
      requires SoundReserving(Reservation(transaction.generatedName))
      requires TransactionEntry(transaction) !in issued
      requires transaction.state == this && !transaction.closed && transaction.savepoints == []
      requires transaction.savepointNames == GeneratedNames(transaction.generatedName)
      modifies this`entries, this`stack, this`issued
      ensures Sound() && issued == old(issued) + {TransactionEntry(transaction)}
      ensures entries == old(entries) + [TransactionEntry(transaction)]
      ensures stack == old(stack) + [transaction]
    {
      hide WellFormed, KeysOf, TransactionsOf;
      ghost var before := entries;
      AppendedIsWellFormed(entries, TransactionEntry(transaction));
      stack := stack + [transaction];
      entries := entries + [TransactionEntry(transaction)];
      issued := issued + {TransactionEntry(transaction)};
      forall f | f in entries ensures Coherent(f) {
        assert f in before || f == TransactionEntry(transaction);
      }
    }

    method RegisterSavepoint(savepoint: Savepoint)
      modifies this`entries, this`issued
      ensures entries == old(entries) + [SavepointEntry(savepoint)]
      ensures issued == old(issued) + {SavepointEntry(savepoint)}
    {
      entries := entries + [SavepointEntry(savepoint)];
      issued := issued + {SavepointEntry(savepoint)};
    }

    /** Refuses a name whose folded form an active savepoint already carries. */
    method ReserveSavepointName(name: string) returns (reserved: bool)
      requires Sound()
      modifies this`savepointNames
      ensures reserved <==> SavepointNameKey(name) !in KeysOf(entries)
      ensures SoundReserving(if reserved then {SavepointNameKey(name)} else {})
    {
      hide WellFormed, KeysOf, TransactionsOf, SavepointNameKey;
      reserved := SavepointNameKey(name) !in savepointNames;
      if reserved {
        savepointNames := savepointNames + {SavepointNameKey(name)};
      }
    }

    /** Runs one entry's own invalidation: its savepoints go with a transaction. */
    method InvalidateEntry(entry: Entry, ghost gone: set<Entry>) returns (ghost removed: set<Entry>)
      requires Valid() && entry.Owner().state == this
      requires entry in entries || (entry.SavepointEntry? && entry in gone)
      requires forall e | e in gone :: e !in entries && e.Dead()
      modifies Footprint(), entry.Object(), entry.Owner()
      ensures Valid()
      ensures entries == Without(old(entries), removed)
      ensures entry in old(entries) ==> entry in removed
      ensures forall e | e in removed :: e in old(entries) && TransactionEntry(e.Owner()) == TransactionEntry(entry.Owner())
      ensures forall e | e in removed && e.TransactionEntry? :: e == entry
      ensures entry.SavepointEntry? ==> removed <= {entry}
      ensures forall e | e in gone + removed :: e.Dead()
      ensures issued == old(issued)
    {
      hide WellFormed, KeysOf, TransactionsOf, Without, SavepointNameKey;
      assert entry in gone || Coherent(entry);
      match entry {
        case TransactionEntry(transaction) =>
          removed := OwnEntries(transaction, transaction.savepoints);
          forall s | s in transaction.savepoints ensures s in Footprint() {
            assert SavepointEntry(s) in entries && SavepointEntry(s).Object() == s;
          }
          transaction.Close();
          forall e | e in gone ensures e.Dead() {
            assert e != entry && old(e.Dead());
            assert e.SavepointEntry? ==> e.savepoint !in old(transaction.savepoints);
          }
        case SavepointEntry(savepoint) =>
          removed := if entry in gone then {} else {entry};
          WithoutNothing(entries, {});
          OwnerIsRegisteredUnlessGone(entries, entry, gone);
          savepoint.Invalidate();
          forall e | e in gone ensures e.Dead() {
            assert old(e.Dead());
          }
      }
    }

    /** Invalidates, oldest first, every handle registered at `start` or later. */
    method InvalidateFrom(start: nat)
      requires Valid() && start <= |entries|
      modifies Footprint()
      ensures Valid()
      ensures entries == old(entries)[..start]
      ensures forall e | e in old(entries)[start..] :: e.Dead()
      ensures issued == old(issued)
      ensures old(UsableIffRegistered()) ==> UsableIffRegistered()
    {
      hide WellFormed, KeysOf, TransactionsOf, Without, SavepointNameKey;
      ghost var before, gone: set<Entry> := entries, {};
      GoneStaysGone();
      var descendants := entries[start..];
      OwnersFirstSuffix(entries, start);
      WithoutNothing(entries, {});
      forall e | e in entries ensures e.Owner().state == this {
        OwnerIsRegistered(entries, e);
        assert Coherent(TransactionEntry(e.Owner()));
      }
      var k := 0;
      while k < |descendants|
        invariant 0 <= k <= |descendants|
        invariant Valid() && issued == old(issued)
        invariant entries == Without(before, gone)
        invariant forall e | e in gone :: e in descendants && e.Dead()
        invariant forall e | e in gone && e.TransactionEntry? :: e in descendants[..k]
        invariant forall e | e in descendants[..k] :: e in gone
      {
        var entry := descendants[k];
        assert entry in before && (entry !in gone ==> entry in entries);
        ghost var removed := InvalidateEntry(entry, gone);
        WithoutTwice(before, gone, removed);
        gone := gone + removed;
        k := k + 1;
      }
      assert before == before[..start] + descendants;
      WithoutTail(before[..start], descendants, gone);
      forall e | old(UsableIffRegistered()) && e in old(issued)
        ensures e.Dead() <==> e !in entries
      {
        if e in before {
          assert e in entries ==> Coherent(e);
        } else {
          assert old(e.Dead());
        }
      }
    }

    /** Invalidates every handle registered after `entry`, if `entry` is registered. */
    method InvalidateAfter(entry: Entry)
      requires Sound()
      modifies Footprint()
      ensures Sound()
      ensures entry !in old(entries) ==> entries == old(entries)
      ensures entry in old(entries) ==>
        && entries == old(entries)[..IndexOf(old(entries), entry) + 1]
        && forall e | e in old(entries) && e !in entries :: e.Dead()
      ensures issued == old(issued)
    {
      if entry !in entries {
        return;
      }
      InvalidateFrom(IndexOf(entries, entry) + 1);
    }

    method InvalidateAll()
      requires Sound()
      modifies Footprint()
      ensures Sound() && entries == []
      ensures forall e | e in old(entries) :: e.Dead()
      ensures issued == old(issued)
    {
      InvalidateFrom(0);
      entries, stack, savepointNames := [], [], {};
    }

    method RemoveEntry(entry: Entry)
      requires NoDuplicates(entries)
      modifies this`entries
      ensures entries == Without(old(entries), {entry})
    {
      RemoveFirstIsWithout(entries, entry);
      entries := RemoveFirst(entries, entry);
    }

    method ReleaseSavepointName(name: string)
      modifies this`savepointNames
      ensures savepointNames == old(savepointNames) - {SavepointNameKey(name)}
      ensures old(SoundReserving({SavepointNameKey(name)})) ==> Sound()
    {
      savepointNames := savepointNames - {SavepointNameKey(name)};
    }
  }
}

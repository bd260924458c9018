/**
 SQLite transaction control: every begin, savepoint, release, rollback and commit
 that relq issues on one connection, with command failures, observers that abort
 the call, and the recovery and cleanup statements that follow.
 */
module SqliteControl {
  import opened Options
  import opened Registry
  import opened Engine
  import opened Quoting
  import opened Sequences

  datatype Outcome =
    | Done
    | Unavailable      // the handle was closed or invalidated before
    | Refused          // the arguments were rejected before any command
    | Failed           // a command raised, and recovery left no transaction open
    | RecoveryFailed   // a command raised, and so did the recovery rollback
    | Interrupted      // the observer aborted the call after the command took effect
    | CleanupFailed    // as above, and the statement that should undo it raised too

  /** Only the outermost handle is unnamed: it stands for the transaction itself. */
  ghost predicate Rooted(entries: seq<Entry>) {
    forall i :: 0 <= i < |entries| ==> (entries[i].Named() <==> i != 0)
  }

  class SQLiteDatabase {
    const connection: Connection
    const state: TransactionState
    const isolationSupported: bool
    ghost function Tracked(): seq<string>
      reads state
    {
      Identities(SQLite, Names(state.entries))
    }

    ghost predicate Valid()
      reads connection, state, state.Footprint(), (set e | e in state.issued :: e.Object())
    {
      && state.Sound()
      && Rooted(state.entries)
      && connection.server.kind.SQLite?
      && (state.entries != [] ==> connection.server.inTransaction)
      && Keeps(true, Tracked(), connection.server.savepoints, |connection.server.base|)
      && connection.server.Coherent()
      && Recalls(SQLite, state.entries, connection.server.savepoints, connection.work.marks)
    }

    /** The registry names exactly the server's savepoint stack. */
    ghost predicate Exact()
      reads connection, state
    {
      connection.server.savepoints == connection.server.base + Tracked()
    }

    constructor (connection: Connection, isolationSupported: bool)
      requires connection.server.kind.SQLite?
      requires connection.server.base == connection.server.savepoints && connection.server.Coherent()
      ensures this.connection == connection && fresh(state)
      ensures Valid() && Exact() && state.entries == [] && state.issued == {}
    {
      this.connection := connection;
      this.isolationSupported := isolationSupported;
      state := new TransactionState();
    }

    /** Sends a command; neither handles nor reservations are involved. */
    method Issue(command: Command, ghost reserved: set<string>) returns (ok: bool)
      requires state.SoundReserving(reserved) && Disciplined(connection.server, command)
      modifies connection
      ensures state.SoundReserving(reserved)
      ensures ok ==>
        old(connection.server).Accepts(command) && connection.server == old(connection.server).Apply(command)
      ensures !ok ==> connection.server == old(connection.server).Failed()
      ensures connection.work ==
        if ok then old(connection.work).After(old(connection.server), command) else old(connection.work)
    {
      ok := connection.Execute(command);
    }

    method Send(statement: string) returns (ok: bool)
      requires state.Sound()
      modifies connection
      ensures state.Sound()
      ensures connection.server == if ok then old(connection.server) else old(connection.server).Failed()
      ensures connection.work == if ok then old(connection.work).Did(old(connection.server), statement) else old(connection.work)
    {
      ok := connection.Perform(statement);
    }

    /** One statement, through a handle if there is any; a failed one is left to the caller. */
    method Perform(via: Option<Transaction>, statement: string) returns (outcome: Outcome)
      requires Valid() && (via.Some? ==> TransactionEntry(via.value) in state.issued)
      modifies connection
      ensures Valid() && connection.server == old(connection.server) && (old(Exact()) ==> Exact())
      ensures outcome in {Done, Unavailable, Failed, Interrupted}
      ensures outcome.Unavailable? <==> via.Some? && TransactionEntry(via.value) !in state.entries
      ensures connection.work ==
        if outcome.Done? || outcome.Interrupted? then old(connection.work).Did(connection.server, statement)
        else old(connection.work)
    {
      hide TransactionState.SoundReserving, LastIndex, Keeps, Recalls, Names, SavepointNameKey;
      if via.Some? {
        state.UsableMeansRegistered(TransactionEntry(via.value));
        if via.value.closed {
          return Unavailable;
        }
      }
      var ok := Send(statement);
      var aborted: bool := *;
      return if !ok then Failed else if aborted then Interrupted else Done;
    }

    /**
     Opens a transaction, or a savepoint inside the open one, and registers a handle
     for it.  `via` is the handle the call came through, if any.
     */
    method Begin(via: Option<Transaction>, generated: string)
      returns (outcome: Outcome, transaction: Transaction?)
      requires Valid() && (via.Some? ==> TransactionEntry(via.value) in state.issued)
      modifies connection, state
      ensures Valid()
      ensures outcome.Done? <==> transaction != null
      ensures outcome.Unavailable? <==> via.Some? && TransactionEntry(via.value) !in old(state.entries)
      ensures outcome.Done? ==>
        && fresh(transaction)
        && state.entries == old(state.entries) + [TransactionEntry(transaction)]
        && state.issued == old(state.issued) + {TransactionEntry(transaction)}
        && transaction.generatedName == (if old(state.entries) == [] then None else Some(generated))
      ensures !outcome.Done? ==> state.entries == old(state.entries) && state.issued == old(state.issued)
      ensures !outcome.Done? && !outcome.CleanupFailed? ==>
        connection.server == old(connection.server) || connection.server == Closed()
      ensures connection.work.durable == old(connection.work.durable)
      ensures old(connection.server.inTransaction) ==> connection.work.pending == old(connection.work.pending)
      ensures outcome.Done? ==> transaction.origin == connection.work.pending
      ensures outcome.Done? && !old(connection.server.inTransaction) ==> connection.work.pending == []
      ensures outcome.CleanupFailed? ==> connection.server != old(connection.server)
      ensures old(Exact()) && !outcome.CleanupFailed? ==> Exact()
    {
      hide TransactionState.SoundReserving, LastIndex, Keeps, Recalls, Names, SavepointNameKey, KeysOf, QuoteIdentifier;
      if via.Some? {
        state.UsableMeansRegistered(TransactionEntry(via.value));
        if via.value.closed {
          return Unavailable, null;
        }
      }
      state.StackEmptyIffNoEntries();
      if state.stack != [] {
        outcome, transaction := BeginNested(generated);
      } else {
        outcome, transaction := BeginTopLevel();
      }
    }

    static function Closed(): Server {
      Server(SQLite, false, false, false, [], [])
    }

    method BeginNested(generated: string) returns (outcome: Outcome, transaction: Transaction?)
      requires Valid() && state.entries != []
      modifies connection, state
      ensures Valid()
      ensures outcome.Done? <==> transaction != null
      ensures !outcome.Unavailable?
      ensures outcome.Done? ==>
        && fresh(transaction)
        && state.entries == old(state.entries) + [TransactionEntry(transaction)]
        && state.issued == old(state.issued) + {TransactionEntry(transaction)}
        && transaction.generatedName == Some(generated)
      ensures !outcome.Done? ==> state.entries == old(state.entries) && state.issued == old(state.issued)
      ensures !outcome.Done? && !outcome.CleanupFailed? ==> connection.server == old(connection.server)
      ensures connection.work.durable == old(connection.work.durable)
      ensures old(connection.server.inTransaction) ==> connection.work.pending == old(connection.work.pending)
      ensures outcome.Done? ==> transaction.origin == connection.work.pending
      ensures outcome.Done? && !old(connection.server.inTransaction) ==> connection.work.pending == []
      ensures outcome.CleanupFailed? ==> connection.server != old(connection.server)
      ensures old(Exact()) && !outcome.CleanupFailed? ==> Exact()
    {
      hide TransactionState.SoundReserving, LastIndex, Keeps, Recalls, Names, SavepointNameKey, KeysOf, QuoteIdentifier;
      ghost var before, server, work := state.entries, connection.server, connection.work;
      transaction := null;
      var reserved := state.ReserveSavepointName(generated);
      if !reserved {
        return Refused, null;
      }
      ghost var key := {SavepointNameKey(generated)};
      KeepsNew(true, SQLite, before, server.savepoints, server.base, generated);
      RecallsPushed(SQLite, before, server.savepoints, work.marks, generated, work.pending);
      var ok := Issue(Command.Savepoint(generated), key);
      if !ok {
        state.ReleaseSavepointName(generated);
        return Failed, null;
      }
      var aborted: bool := *;
      if aborted {
        state.ReleaseSavepointName(generated);
        var cleaned := CleanUpSavepoint(generated, server, work);
        return if cleaned then Interrupted else CleanupFailed, null;
      }
      transaction := new Transaction(state, Some(generated), connection.work.pending);
      Appended(before, TransactionEntry(transaction));
      RecallsNew(SQLite, before, TransactionEntry(transaction), connection.server.savepoints, connection.work.marks);
      outcome := Done;
    }

    /** Undoes a savepoint whose creation the observer interrupted; failures are swallowed. */
    method CleanUpSavepoint(name: string, ghost before: Server, ghost work: Work) returns (cleaned: bool)
      requires before.Accepts(Command.Savepoint(name)) && before.kind.SQLite?
      requires state.Sound() && connection.server == before.Apply(Command.Savepoint(name))
      requires connection.work == work.After(before, Command.Savepoint(name))
      modifies connection
      ensures state.Sound() && connection.work == old(connection.work)
      ensures connection.server == if cleaned then before else before.Apply(Command.Savepoint(name))
    {
      hide TransactionState.SoundReserving, SavepointNameKey;
      LastIndexPush(before.savepoints, Identity(SQLite, name), Identity(SQLite, name));
      var stack := connection.server.savepoints;
      assert stack[..|stack|] == stack && stack[..|before.savepoints|] == before.savepoints;
      cleaned := Issue(RollbackTo(name), {});
      if cleaned {
        cleaned := Issue(Release(name), {});
      }
    }

    method BeginTopLevel() returns (outcome: Outcome, transaction: Transaction?)
      requires Valid() && state.entries == []
      modifies connection, state
      ensures Valid()
      ensures outcome.Done? <==> transaction != null
      ensures !outcome.Unavailable?
      ensures outcome.Done? ==>
        && fresh(transaction)
        && state.entries == [TransactionEntry(transaction)]
        && state.issued == old(state.issued) + {TransactionEntry(transaction)}
        && transaction.generatedName == None
      ensures !outcome.Done? ==> state.entries == old(state.entries) && state.issued == old(state.issued)
      ensures !outcome.Done? && !outcome.CleanupFailed? ==>
        connection.server == old(connection.server) || connection.server == Closed()
      ensures connection.work.durable == old(connection.work.durable)
      ensures old(connection.server.inTransaction) ==> connection.work.pending == old(connection.work.pending)
      ensures outcome.Done? ==> transaction.origin == connection.work.pending
      ensures outcome.Done? && !old(connection.server.inTransaction) ==> connection.work.pending == []
      ensures outcome.CleanupFailed? ==> connection.server != old(connection.server)
      ensures old(Exact()) && !outcome.CleanupFailed? ==> Exact()
    {
      hide TransactionState.SoundReserving, LastIndex, Keeps, Recalls, Names, SavepointNameKey, KeysOf, QuoteIdentifier;
      KeepsNothing(true, SQLite, [], connection.server.savepoints, connection.server.base);
      transaction := null;
      if !connection.server.inTransaction {
        if !isolationSupported {
          return Refused, null;
        }
        var ok := Issue(Command.Begin, {});
        KeepsNothing(true, SQLite, [], connection.server.savepoints, connection.server.base);
        var aborted: bool := *;
        if !ok || aborted {
          var cleaned := Issue(Rollback, {});
          KeepsNothing(true, SQLite, [], connection.server.savepoints, connection.server.base);
          return if !ok then Failed else if cleaned then Interrupted else CleanupFailed, null;
        }
      }
      transaction := new Transaction(state, None, connection.work.pending);
      KeepsNothing(true, SQLite, state.entries, connection.server.savepoints, connection.server.base);
      outcome := Done;
    }

    method Commit(transaction: Transaction) returns (outcome: Outcome)
      requires Valid() && TransactionEntry(transaction) in state.issued
      modifies connection, state, state.Footprint()
      ensures Valid() && state.issued == old(state.issued)
      ensures outcome.Unavailable? <==> TransactionEntry(transaction) !in old(state.entries)
      ensures outcome.Unavailable? ==>
        state.entries == old(state.entries) && connection.server == old(connection.server)
      ensures outcome.Done? || outcome.Interrupted? ==>
        && state.entries == old(state.entries)[..IndexOf(old(state.entries), TransactionEntry(transaction))]
        && (transaction.generatedName.None? ==> !connection.server.inTransaction)
      ensures connection.work.durable == old(connection.work.durable) +
        if (outcome.Done? || outcome.Interrupted?) && transaction.generatedName.None? then old(connection.work.pending) else []
      ensures outcome.Done? || outcome.Interrupted? ==>
        connection.work.pending == if transaction.generatedName.None? then [] else old(connection.work.pending)
      ensures outcome.Failed? || outcome.RecoveryFailed? ==> state.entries == []
      ensures outcome.Failed? ==> !connection.server.inTransaction && connection.work.pending == []
      ensures outcome.Unavailable? || outcome.RecoveryFailed? ==> connection.work == old(connection.work)
      ensures outcome.Done? || outcome.Interrupted? || outcome.Failed? || outcome.RecoveryFailed? || outcome.Unavailable?
      ensures old(Exact()) && !outcome.RecoveryFailed? ==> Exact()
    {
      hide TransactionState.SoundReserving, LastIndex, Keeps, Recalls, Names, SavepointNameKey, IndexOf, Without;
      ghost var e, before := TransactionEntry(transaction), state.entries;
      state.UsableMeansRegistered(TransactionEntry(transaction));
      if transaction.closed {
        return Unavailable;
      }
      ghost var k := KeepThrough(TransactionEntry(transaction));
      var command := if transaction.generatedName.None? then Command.Commit else Release(transaction.generatedName.value);
      ghost var server, work := connection.server, connection.work;
      var ok := Issue(command, {});
      if !ok {
        outcome := Recover();
        return;
      }
      transaction.CloseNewest();
      assert state.entries == before[..k];
      if command.Release? {
        PopRecalls(server, work, before, k, connection.server.savepoints);
      }
      if transaction.generatedName.None? {
        KeepsNothing(true, SQLite, [], [], []);
      }
      var aborted: bool := *;
      outcome := if aborted then Interrupted else Done;
    }

    method RollBack(transaction: Transaction) returns (outcome: Outcome)
      requires Valid() && TransactionEntry(transaction) in state.issued
      modifies connection, state, state.Footprint()
      ensures Valid() && state.issued == old(state.issued)
      ensures outcome.Unavailable? <==> TransactionEntry(transaction) !in old(state.entries)
      ensures outcome.Unavailable? ==>
        state.entries == old(state.entries) && connection.server == old(connection.server)
      ensures outcome.Done? || outcome.Interrupted? ==>
        && state.entries == old(state.entries)[..IndexOf(old(state.entries), TransactionEntry(transaction))]
        && (transaction.generatedName.None? ==> !connection.server.inTransaction)
        && connection.work.pending == (if transaction.generatedName.None? then [] else transaction.origin)
      ensures connection.work.durable == old(connection.work.durable)
      ensures outcome.Failed? || outcome.RecoveryFailed? ==> state.entries == []
      ensures outcome.Failed? ==> !connection.server.inTransaction && connection.work.pending == []
      ensures outcome.Unavailable? ==> connection.work == old(connection.work)
      ensures !outcome.Refused? && !outcome.CleanupFailed?
      ensures old(Exact()) && !outcome.RecoveryFailed? ==> Exact()
    {
      hide TransactionState.SoundReserving, LastIndex, Keeps, Recalls, Names, SavepointNameKey, IndexOf, Without;
      ghost var e, before := TransactionEntry(transaction), state.entries;
      state.UsableMeansRegistered(TransactionEntry(transaction));
      if transaction.closed {
        return Unavailable;
      }
      ghost var k := KeepThrough(TransactionEntry(transaction));
      ghost var server, work := connection.server, connection.work;
      var observerRaised := false;
      if transaction.generatedName.None? {
        var ok := Issue(Rollback, {});
        if !ok {
          outcome := Recover();
          return;
        }
        KeepsNothing(true, SQLite, [], [], []);
      } else {
        var ok;
        ok, observerRaised := RollBackNested(transaction.generatedName.value);
        if !ok {
          outcome := Recover();
          return;
        }
        PopRecalls(server, work, before, k, connection.server.savepoints);
      }
      transaction.CloseNewest();
      assert state.entries == before[..k];
      var aborted: bool := *;
      outcome := if observerRaised || aborted then Interrupted else Done;
    }

    /** The two commands of a nested rollback; the observer may raise between them. */
    method RollBackNested(name: string) returns (ok: bool, observerRaised: bool)
      requires state.Sound() && connection.server.Coherent() && connection.server.Lives(name)
      requires connection.server.kind.SQLite?
      requires |connection.server.base| <= |Below(connection.server, name)|
      modifies connection
      ensures state.Sound() && connection.server.Coherent() && connection.server.kind.SQLite?
      ensures ok ==>
        connection.server ==
          old(connection.server).(savepoints := Below(old(connection.server), name), aborted := false)
        && connection.work == old(connection.work).(pending := old(connection.work).At(old(connection.server), name))
      ensures connection.work.durable == old(connection.work.durable)
    {
      hide TransactionState.SoundReserving, LastIndex, SavepointNameKey;
      PopTwice(connection.server.savepoints, Identity(SQLite, name));
      observerRaised := false;
      ok := Issue(RollbackTo(name), {});
      if ok {
        observerRaised := *;
        ok := Issue(Release(name), {});
      }
    }

    /** Opens a user savepoint under `name` and registers it with `transaction`. */
    method OpenSavepoint(transaction: Transaction, name: string)
      returns (outcome: Outcome, savepoint: Registry.Savepoint?)
      requires Valid() && TransactionEntry(transaction) in state.issued
      modifies connection, transaction, state
      ensures Valid() && old(state.issued) <= state.issued
      ensures forall e | e in state.issued - old(state.issued) :: fresh(e.Object())
      ensures outcome.Done? <==> savepoint != null
      ensures outcome.Unavailable? <==> TransactionEntry(transaction) !in old(state.entries)
      ensures outcome.Refused? <==>
        (!outcome.Unavailable? && (name == "" || SavepointNameKey(QuoteIdentifier(name)) in KeysOf(old(state.entries))))
      ensures outcome.Done? ==>
        && fresh(savepoint) && savepoint.transaction == transaction && savepoint.name == QuoteIdentifier(name)
        && state.entries == old(state.entries) + [SavepointEntry(savepoint)]
        && SavepointEntry(savepoint) in state.issued
      ensures !outcome.Done? ==> state.entries == old(state.entries)
      ensures !outcome.Done? && !outcome.CleanupFailed? ==> connection.server == old(connection.server)
      ensures !outcome.RecoveryFailed?
      ensures connection.work.durable == old(connection.work.durable)
      ensures connection.work.pending == old(connection.work.pending)
      ensures outcome.Done? ==> savepoint.origin == connection.work.pending
      ensures old(Exact()) && !outcome.CleanupFailed? ==> Exact()
    {
      hide TransactionState.SoundReserving, LastIndex, Keeps, Recalls, Names, SavepointNameKey, KeysOf, QuoteIdentifier;
      ghost var before, server, work := state.entries, connection.server, connection.work;
      savepoint := null;
      state.UsableMeansRegistered(TransactionEntry(transaction));
      if transaction.closed {
        return Unavailable, null;
      }
      if name == "" {
        return Refused, null;
      }
      var quoted := QuoteIdentifier(name);
      var reserved := state.ReserveSavepointName(quoted);
      if !reserved {
        return Refused, null;
      }
      ghost var key := {SavepointNameKey(quoted)};
      KeepsNew(true, SQLite, before, server.savepoints, server.base, quoted);
      RecallsPushed(SQLite, before, server.savepoints, work.marks, quoted, work.pending);
      var ok := Issue(Command.Savepoint(quoted), key);
      if !ok {
        state.ReleaseSavepointName(quoted);
        return Failed, null;
      }
      savepoint := transaction.AddSavepoint(quoted, connection.work.pending);
      Appended(before, SavepointEntry(savepoint));
      RecallsNew(SQLite, before, SavepointEntry(savepoint), connection.server.savepoints, connection.work.marks);
      var aborted: bool := *;
      if aborted {
        savepoint.InvalidateNewest();
        assert state.entries == before;
        ok := Issue(Release(quoted), {});
        return if ok then Interrupted else CleanupFailed, null;
      }
      outcome := Done;
    }

    method DropNewer(entry: Entry)
      requires state.Sound() && entry in state.entries && NoDuplicates(state.entries)
      modifies state, state.Footprint()
      ensures state.Sound() && state.issued == old(state.issued) && state.Newest(entry)
      ensures state.entries == old(state.entries)[..IndexOf(old(state.entries), entry) + 1]
      ensures connection.server == old(connection.server) && connection.work == old(connection.work)
    {
      hide TransactionState.SoundReserving;
      assert connection !in state.Footprint();
      state.InvalidateAfter(entry);
    }

    method AbandonSavepoint(savepoint: Registry.Savepoint)
      requires savepoint.transaction.state == state
      requires state.Sound() && state.Newest(SavepointEntry(savepoint))
      modifies state, savepoint, savepoint.transaction
      ensures state.Sound() && state.issued == old(state.issued)
      ensures state.entries == old(state.entries)[..|old(state.entries)| - 1]
      ensures connection.server == old(connection.server) && connection.work == old(connection.work)
    {
      hide TransactionState.SoundReserving;
      savepoint.InvalidateNewest();
    }

    method ReleaseSavepoint(savepoint: Registry.Savepoint) returns (outcome: Outcome)
      requires Valid() && SavepointEntry(savepoint) in state.issued
      modifies connection, state, state.Footprint()
      ensures Valid() && state.issued == old(state.issued)
      ensures outcome.Unavailable? <==> SavepointEntry(savepoint) !in old(state.entries)
      ensures outcome.Unavailable? ==>
        state.entries == old(state.entries) && connection.server == old(connection.server)
      ensures outcome.Done? || outcome.Interrupted? ==>
        && state.entries == old(state.entries)[..IndexOf(old(state.entries), SavepointEntry(savepoint))]
        && savepoint.released && connection.server.inTransaction
        && connection.work.pending == old(connection.work.pending)
      ensures connection.work.durable == old(connection.work.durable)
      ensures outcome.Failed? || outcome.RecoveryFailed? ==> state.entries == []
      ensures outcome.Failed? ==> !connection.server.inTransaction && connection.work.pending == []
      ensures outcome.Unavailable? ==> connection.work == old(connection.work)
      ensures !outcome.Refused? && !outcome.CleanupFailed?
      ensures old(Exact()) && !outcome.RecoveryFailed? ==> Exact()
    {
      hide TransactionState.SoundReserving, LastIndex, Keeps, Recalls, Names, SavepointNameKey, IndexOf, Without;
      ghost var e, before, server, work := SavepointEntry(savepoint), state.entries, connection.server, connection.work;
      state.UsableMeansRegistered(SavepointEntry(savepoint));
      state.TransactionOutlivesSavepoints(savepoint);
      if savepoint.transaction.closed || savepoint.released || savepoint.invalidated {
        return Unavailable;
      }
      ghost var k := IndexOf(before, e);
      EntryPops(true, server, before, k);
      var ok := Issue(Release(savepoint.name), {});
      DropNewer(SavepointEntry(savepoint));
      if !ok {
        AbandonSavepoint(savepoint);
        outcome := Recover();
        return;
      }
      savepoint.ReleaseNewest();
      assert state.entries == before[..k];
      PopRecalls(server, work, before, k, connection.server.savepoints);
      var aborted: bool := *;
      outcome := if aborted then Interrupted else Done;
    }

    /** Rolling back to a savepoint keeps it, and drops everything newer. */
    method RollBackToSavepoint(savepoint: Registry.Savepoint) returns (outcome: Outcome)
      requires Valid() && SavepointEntry(savepoint) in state.issued
      modifies connection, state, state.Footprint()
      ensures Valid() && state.issued == old(state.issued)
      ensures outcome.Unavailable? <==> SavepointEntry(savepoint) !in old(state.entries)
      ensures outcome.Unavailable? ==>
        state.entries == old(state.entries) && connection.server == old(connection.server)
      ensures outcome.Done? || outcome.Interrupted? ==>
        && state.entries == old(state.entries)[..IndexOf(old(state.entries), SavepointEntry(savepoint)) + 1]
        && connection.work.pending == savepoint.origin
      ensures connection.work.durable == old(connection.work.durable)
      ensures outcome.Failed? || outcome.RecoveryFailed? ==> state.entries == []
      ensures outcome.Failed? ==> !connection.server.inTransaction && connection.work.pending == []
      ensures outcome.Unavailable? ==> connection.work == old(connection.work)
      ensures !outcome.Refused? && !outcome.CleanupFailed?
      ensures old(Exact()) && !outcome.RecoveryFailed? ==> Exact()
    {
      hide TransactionState.SoundReserving, LastIndex, Keeps, Recalls, Names, SavepointNameKey, IndexOf, Without;
      ghost var e, before, server, work := SavepointEntry(savepoint), state.entries, connection.server, connection.work;
      state.UsableMeansRegistered(SavepointEntry(savepoint));
      state.TransactionOutlivesSavepoints(savepoint);
      if savepoint.transaction.closed || savepoint.released || savepoint.invalidated {
        return Unavailable;
      }
      ghost var k := IndexOf(before, e);
      EntryPops(true, server, before, k);
      StackSlices(server, savepoint.name);
      var ok := Issue(RollbackTo(savepoint.name), {});
      DropNewer(SavepointEntry(savepoint));
      if !ok {
        AbandonSavepoint(savepoint);
        outcome := Recover();
        return;
      }
      PopRecalls(server, work, before, k, connection.server.savepoints);
      var aborted: bool := *;
      outcome := if aborted then Interrupted else Done;
    }

    /** Drops every handle newer than `entry`, and says what a command on it will find. */
    method KeepThrough(entry: Entry) returns (ghost k: nat)
      requires Valid() && entry in state.entries
      modifies state, state.Footprint()
      ensures Valid() && state.issued == old(state.issued)
      ensures k == IndexOf(old(state.entries), entry) && k < |old(state.entries)|
      ensures state.entries == old(state.entries)[..k + 1] && state.Newest(entry)
      ensures entry.Named() <==> k != 0
      ensures connection.server == old(connection.server) && connection.work == old(connection.work)
      ensures entry.Named() ==>
        && PopsTo(true, connection.server, entry.Name(), Identities(SQLite, Names(old(state.entries)[..k])))
        && (old(Exact()) ==> PopsExactly(connection.server, old(state.entries), k))
    {
      hide TransactionState.SoundReserving, LastIndex, Keeps, Recalls, Names, SavepointNameKey, IndexOf, Without;
      ghost var before, stack := state.entries, connection.server.savepoints;
      k := IndexOf(state.entries, entry);
      assert connection !in state.Footprint();
      state.InvalidateAfter(entry);
      if entry.Named() {
        EntryPops(true, connection.server, before, k);
      } else {
        KeepsNothing(true, SQLite, before[..1], stack, connection.server.base);
      }
      RecallsPrefix(SQLite, before, stack, connection.work.marks, k + 1);
    }

    /** Invalidates every handle and issues one bare rollback. */
    method Recover() returns (outcome: Outcome)
      requires state.Sound() && connection.server.kind.SQLite?
      requires connection.server.Coherent()
      modifies connection, state, state.Footprint()
      ensures Valid() && state.entries == [] && state.issued == old(state.issued)
      ensures outcome.Failed? || outcome.RecoveryFailed?
      ensures outcome.Failed? ==> !connection.server.inTransaction && Exact() && connection.work.pending == []
      ensures outcome.RecoveryFailed? ==> connection.work == old(connection.work)
      ensures connection.work.durable == old(connection.work.durable)
    {
      hide TransactionState.SoundReserving, LastIndex, Keeps, Recalls, Names, SavepointNameKey, IndexOf, Without;
      assert connection !in state.Footprint();
      state.InvalidateAll();
      var ok := Issue(Rollback, {});
      KeepsNothing(true, SQLite, [], connection.server.savepoints, connection.server.base);
      var aborted: bool := *;
      outcome := if ok then Failed else RecoveryFailed;
    }
  }

  /** One call on the connection; handles are numbered in the order they were given out. */
  datatype Call =
    | CallBegin(via: Option<nat>, generated: string)
    | CallCommit(transaction: nat)
    | CallRollBack(transaction: nat)
    | CallSavepoint(transaction: nat, name: string)
    | CallRelease(savepoint: nat)
    | CallRollBackTo(savepoint: nat)
    | CallExecute(via: Option<nat>, statement: string)

  /**
   Any sequence of calls, on live and on dead handles, with any failures: each
   command meets its discipline (the preconditions of `Execute`), and the registry
   names exactly the server's stack unless a recovery or cleanup statement failed.  What is
   durable is never lost, and nothing becomes durable without a commit or a statement.
   */
  method Run(db: SQLiteDatabase, calls: seq<Call>) returns (outcomes: seq<Outcome>)
    requires db.Valid() && db.Exact() && db.state.entries == [] && db.state.issued == {}
    modifies db.connection, db.state
    ensures db.Valid()
    ensures RecoveryFailed !in outcomes && CleanupFailed !in outcomes ==> db.Exact()
    ensures old(db.connection.work.durable) <= db.connection.work.durable
    ensures (forall i :: 0 <= i < |calls| ==> !calls[i].CallCommit? && !calls[i].CallExecute?) ==>
      db.connection.work.durable == old(db.connection.work.durable)
  {
    hide TransactionState.SoundReserving, LastIndex, Keeps, Recalls, Names, SavepointNameKey, Rooted;
    outcomes := [];
    var transactions: seq<Transaction>, savepoints: seq<Registry.Savepoint> := [], [];
    for k := 0 to |calls|
      invariant db.Valid()
      invariant forall t | t in transactions :: TransactionEntry(t) in db.state.issued
      invariant forall s | s in savepoints :: SavepointEntry(s) in db.state.issued
      invariant forall e | e in db.state.issued :: fresh(e.Object())
      invariant RecoveryFailed !in outcomes && CleanupFailed !in outcomes ==> db.Exact()
      invariant old(db.connection.work.durable) <= db.connection.work.durable
      invariant (forall i :: 0 <= i < k ==> !calls[i].CallCommit? && !calls[i].CallExecute?) ==>
        db.connection.work.durable == old(db.connection.work.durable)
    {
      var outcome := Unavailable;
      db.state.FootprintIsIssued();
      forall t | t in transactions ensures fresh(t) {
        assert TransactionEntry(t).Object() == t;
      }
      match calls[k] {
        case CallBegin(via, generated) =>
          if via.None? || via.value < |transactions| {
            var transaction;
            outcome, transaction := db.Begin(if via.None? then None else Some(transactions[via.value]), generated);
            if transaction != null {
              transactions := transactions + [transaction];
            }
          }
        case CallCommit(t) =>
          if t < |transactions| {
            outcome := db.Commit(transactions[t]);
          }
        case CallRollBack(t) =>
          if t < |transactions| {
            outcome := db.RollBack(transactions[t]);
          }
        case CallSavepoint(t, name) =>
          if t < |transactions| {
            var savepoint;
            assert transactions[t] in transactions;
            outcome, savepoint := db.OpenSavepoint(transactions[t], name);
            if savepoint != null {
              savepoints := savepoints + [savepoint];
            }
          }
        case CallRelease(s) =>
          if s < |savepoints| {
            outcome := db.ReleaseSavepoint(savepoints[s]);
          }
        case CallRollBackTo(s) =>
          if s < |savepoints| {
            outcome := db.RollBackToSavepoint(savepoints[s]);
          }
        case CallExecute(via, statement) =>
          if via.None? || via.value < |transactions| {
            outcome := db.Perform(if via.None? then None else Some(transactions[via.value]), statement);
          }
      }
      outcomes := outcomes + [outcome];
    }
  }
}

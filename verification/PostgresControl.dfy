/**
 PostgreSQL transaction control on one connection: a nested handle is a savepoint,
 a failed control statement is recovered within the failing handle's boundary, and
 a connection borrowed from a pool is given back exactly once.
 */
module PostgresControl {
  import opened Options
  import opened Registry
  import opened Engine
  import opened Quoting
  import opened Sequences

  datatype Outcome =
    | Done
    | Unavailable      // the handle was closed or invalidated before
    | Refused          // the arguments were rejected
    | Failed           // a command raised, and what recovery there is succeeded
    | RecoveryFailed   // a command raised, and so did a recovery statement or its observer
    | Interrupted      // the observer aborted the call after the command took effect
    | CleanupFailed    // as above, and the savepoint it should have undone is left behind

  /** Only an outermost handle may be unnamed, and it is so when relq opened the transaction. */
  ghost predicate Rooted(entries: seq<Entry>, server: Server) {
    && (forall i :: 0 < i < |entries| ==> entries[i].Named())
    && (entries != [] ==> server.inTransaction && entries[0].TransactionEntry?)
    && (entries != [] && !entries[0].Named() ==> !server.callerOwned)
  }

  function Utf8Length(name: string): nat {
    if name == "" then 0
    else (var c := name[0] as int;
          if c < 0x80 then 1 else if c < 0x800 then 2 else if c < 0x1_0000 then 3 else 4) + Utf8Length(name[1..])
  }

  /** The bytes of a character (RFC 3629, section 3). */
  function Encoded(c: char): (r: seq<int>)
    ensures forall i :: 0 <= i < |r| ==> 0 <= r[i] < 256
  {
    var n := c as int;
    if n <= 0x7F then [n]
    else if n <= 0x7FF then [0xC0 + n / 0x40, 0x80 + n % 0x40]
    else if n <= 0xFFFF then [0xE0 + n / 0x1000, 0x80 + n / 0x40 % 0x40, 0x80 + n % 0x40]
    else [0xF0 + n / 0x4_0000, 0x80 + n / 0x1000 % 0x40, 0x80 + n / 0x40 % 0x40, 0x80 + n % 0x40]
  }

  function EncodedName(name: string): seq<int> {
    if name == "" then [] else Encoded(name[0]) + EncodedName(name[1..])
  }

  /** What a sequence of bytes carries: its lead byte tells how many follow, with six bits in each. */
  function Payload(bytes: seq<int>): int
    requires 1 <= |bytes| <= 4
  {
    if |bytes| == 1 then bytes[0]
    else if |bytes| == 2 then (bytes[0] - 0xC0) * 0x40 + (bytes[1] - 0x80)
    else if |bytes| == 3 then (bytes[0] - 0xE0) * 0x1000 + (bytes[1] - 0x80) * 0x40 + (bytes[2] - 0x80)
    else (bytes[0] - 0xF0) * 0x4_0000 + (bytes[1] - 0x80) * 0x1000 + (bytes[2] - 0x80) * 0x40 + (bytes[3] - 0x80)
  }

  /** The first byte tells how many follow, each follower is marked as one, and the payload is the character. */
  lemma EncodingIsReadable(c: char)
    ensures var bytes := Encoded(c);
      && 1 <= |bytes| <= 4
      && (|bytes| == 1 <==> bytes[0] < 0x80) && (|bytes| == 2 <==> 0xC0 <= bytes[0] < 0xE0)
      && (|bytes| == 3 <==> 0xE0 <= bytes[0] < 0xF0) && (|bytes| == 4 <==> 0xF0 <= bytes[0])
      && (forall i :: 0 < i < |bytes| ==> 0x80 <= bytes[i] < 0xC0)
      && Payload(bytes) == c as int
  {
    var n := c as int;
    assert n / 0x40 == n / 0x1000 * 0x40 + n / 0x40 % 0x40;
    assert n / 0x1000 == n / 0x4_0000 * 0x40 + n / 0x1000 % 0x40;
  }

  /** A name is as long as its encoding. */
  lemma {:induction false} LengthIsInBytes(name: string)
    ensures Utf8Length(name) == |EncodedName(name)|
  {
    if name != "" {
      LengthIsInBytes(name[1..]);
    }
  }

  const MAX_NAME_BYTES := 63

  class PostgresDatabase {
    const connection: Connection
    const state: TransactionState
    /** The handle that still owes the pool its connection. */
    var holder: Transaction?
    /** A connection acquired by a begin call that has not produced its handle yet. */
    var borrowing: bool
    var acquired: nat
    var released: nat
    /** Whether the registry's names still denote its own savepoints, not newer ones of the same name. */
    ghost var faithful: bool

    ghost function Tracked(): seq<string>
      reads state
    {
      Identities(Postgres, Names(state.entries))
    }

    /** A pooled connection is owed by the outermost handle and by nothing else. */
    ghost predicate PoolBalanced()
      reads this, state
    {
      && acquired == released + (if borrowing then 1 else 0) + (if holder != null then 1 else 0)
      && (holder != null ==>
            state.entries != [] && state.entries[0] == TransactionEntry(holder) && !state.entries[0].Named())
    }

    /** What holds even while a call is under way. */
    ghost predicate Steady()
      reads this, connection, state, state.Footprint(), (set e | e in state.issued :: e.Object())
    {
      && state.Sound()
      && connection.server.kind.Postgres?
      && connection.server.Coherent()
      && Rooted(state.entries, connection.server)
      && PoolBalanced()
    }

    ghost predicate Orderly()
      reads this, connection, state, state.Footprint(), (set e | e in state.issued :: e.Object())
    {
      && Steady()
      && !borrowing
      && Keeps(faithful, Tracked(), connection.server.savepoints, |connection.server.base|)
    }

    /** Between calls, each name that denotes its own savepoint finds the work its handle was opened on. */
    ghost predicate Valid()
      reads this, connection, state, state.Footprint(), (set e | e in state.issued :: e.Object())
    {
      Orderly() && (faithful ==> Recalls(Postgres, state.entries, connection.server.savepoints, connection.work.marks))
    }

    /** What a call that kept the first `k` handles, and left their savepoints in place, still recalls. */
    lemma StillRecalled(before: seq<Entry>, k: nat, stack: seq<string>, marks: map<int, seq<string>>)
      requires k <= |before| && state.entries == before[..k]
      requires faithful ==>
        && Recalls(Postgres, before, stack, marks) && SameMarks(marks, connection.work.marks, |stack|)
        && Stays(Tracked(), stack, connection.server.savepoints)
      ensures faithful ==> Recalls(Postgres, state.entries, connection.server.savepoints, connection.work.marks)
    {
      hide Recalls, SameMarks, Stays, Names, Identities, LastIndex;
      if faithful {
        RecallsPrefix(Postgres, before, stack, marks, k);
        RecallsStays(Postgres, state.entries, stack, connection.server.savepoints, marks, connection.work.marks);
      }
    }

    ghost predicate Exact()
      reads this, connection, state
    {
      faithful && StackIs(Tracked())
    }

    /** Above the foreign savepoints the server holds exactly these. */
    ghost predicate StackIs(names: seq<string>)
      reads connection
    {
      connection.server.savepoints == connection.server.base + names
    }

    constructor (connection: Connection)
      requires connection.server.kind.Postgres? && connection.server.Coherent()
      requires connection.server.base == connection.server.savepoints
      ensures this.connection == connection && fresh(state)
      ensures Valid() && Exact() && state.entries == [] && state.issued == {}
    {
      this.connection := connection;
      state := new TransactionState();
      holder, borrowing, acquired, released, faithful := null, false, 0, 0, true;
    }

    method Issue(command: Command, ghost reserved: set<string>) returns (ok: bool)
      requires state.SoundReserving(reserved) && Disciplined(connection.server, command)
      modifies connection
      ensures state.SoundReserving(reserved)
      ensures ok ==>
        old(connection.server).Accepts(command) && connection.server == old(connection.server).Apply(command)
      ensures !ok ==> connection.server == old(connection.server).Failed()
      ensures connection.work ==
        if ok then old(connection.work).After(old(connection.server), command) else old(connection.work)
      ensures connection.commands == old(connection.commands) + 1
    {
      ok := connection.Execute(command);
    }

    method Send(statement: string) returns (ok: bool)
      requires state.Sound()
      modifies connection
      ensures state.Sound()
      ensures ok ==> !old(connection.server).aborted && connection.server == old(connection.server)
      ensures !ok ==> connection.server == old(connection.server).Failed()
      ensures connection.work == if ok then old(connection.work).Did(old(connection.server), statement) else old(connection.work)
    {
      ok := connection.Perform(statement);
    }

    /** One statement, through a handle if there is any; a failed one is left to the caller. */
    method Perform(via: Option<Transaction>, statement: string) returns (outcome: Outcome)
      requires Valid() && (via.Some? ==> TransactionEntry(via.value) in state.issued)
      modifies connection
      ensures Valid() && (old(Exact()) ==> Exact())
      ensures outcome in {Done, Unavailable, Failed, Interrupted}
      ensures outcome.Unavailable? <==> via.Some? && TransactionEntry(via.value) !in state.entries
      ensures outcome.Done? || outcome.Interrupted? ==>
        && !old(connection.server.aborted) && connection.server == old(connection.server)
        && connection.work == old(connection.work).Did(connection.server, statement)
      ensures outcome.Failed? ==>
        connection.server == old(connection.server).Failed() && connection.work == old(connection.work)
      ensures outcome.Unavailable? ==> connection.server == old(connection.server) && connection.work == old(connection.work)
    {
      hide TransactionState.SoundReserving, LastIndex, Keeps, Recalls, Recalls, Names, SavepointNameKey;
      if via.Some? {
        state.UsableMeansRegistered(TransactionEntry(via.value));
        if via.value.closed {
          return Unavailable;
        }
      }
      var ok := Send(statement);
      var aborted: bool := *;
      return if !ok then Failed else if aborted then Interrupted else Done;
    }

    /** A release or rollback of a savepoint that can be popped. */
    method IssuePop(command: Command, ghost older: seq<string>) returns (ok: bool)
      requires state.Sound() && connection.server.kind.Postgres? && connection.server.Coherent()
      requires command.Release? || command.RollbackTo?
      requires PopsTo(faithful, connection.server, command.name, older)
      modifies connection
      ensures state.Sound() && connection.server.Coherent()
      ensures !ok ==> connection.server == old(connection.server).Failed()
      ensures connection.work ==
        if ok then old(connection.work).After(old(connection.server), command) else old(connection.work)
      ensures ok && command.Release? ==>
        && !connection.server.aborted
        && Keeps(faithful, older, connection.server.savepoints, |connection.server.base|)
        && connection.server == old(connection.server).(savepoints := Below(old(connection.server), command.name))
      ensures ok && command.RollbackTo? ==>
        connection.server ==
          old(connection.server).(savepoints := Top(old(connection.server), command.name), aborted := false)
    {
      hide TransactionState.SoundReserving, LastIndex, Keeps, Recalls, SavepointNameKey;
      StackSlices(connection.server, command.name);
      ok := Issue(command, {});
    }

    /** Gives the pooled connection back if `transaction` still owes it. */
    method ReleaseConnection(transaction: Transaction)
      requires state.Sound()
      modifies this
      ensures state.Sound()
      ensures if old(holder) == transaction
        then SamePool(null, old(borrowing), old(acquired), old(released) + 1, old(faithful))
        else SamePool(old(holder), old(borrowing), old(acquired), old(released), old(faithful))
    {
      if holder == transaction {
        holder := null;
        released := released + 1;
      }
    }

    /** Takes a connection out of the pool. */
    method Acquire()
      requires state.Sound() && !borrowing
      modifies this
      ensures state.Sound() && SamePool(old(holder), true, old(acquired) + 1, old(released), old(faithful))
    {
      borrowing, acquired := true, acquired + 1;
    }

    /** Puts a connection back that no handle ever owned. */
    method ReturnBorrowed()
      requires state.Sound() && borrowing
      modifies this
      ensures state.Sound() && SamePool(old(holder), false, old(acquired), old(released) + 1, old(faithful))
    {
      borrowing, released := false, released + 1;
    }

    /** The new outermost handle takes over the duty to return the connection. */
    method HandOver(transaction: Transaction)
      requires state.Sound() && borrowing
      modifies this
      ensures state.Sound() && SamePool(transaction, false, old(acquired), old(released), old(faithful))
    {
      holder, borrowing := transaction, false;
    }

    ghost predicate SamePool(holder: Transaction?, borrowing: bool, acquired: nat, released: nat, faithful: bool)
      reads this
    {
      this.faithful == faithful && this.holder == holder && this.borrowing == borrowing
      && this.acquired == acquired && this.released == released
    }

    method DropNewer(entry: Entry)
      requires state.Sound() && entry in state.entries && NoDuplicates(state.entries)
      modifies state, state.Footprint()
      ensures state.Sound() && state.issued == old(state.issued) && state.Newest(entry)
      ensures state.entries == old(state.entries)[..IndexOf(old(state.entries), entry) + 1]
      ensures connection.server == old(connection.server) && connection.work == old(connection.work)
      ensures SamePool(old(holder), old(borrowing), old(acquired), old(released), old(faithful))
    {
      hide TransactionState.SoundReserving;
      assert connection !in state.Footprint() && this !in state.Footprint();
      state.InvalidateAfter(entry);
    }

    method DropAll()
      requires state.Sound()
      modifies state, state.Footprint()
      ensures state.Sound() && state.issued == old(state.issued) && state.entries == []
      ensures connection.server == old(connection.server) && connection.work == old(connection.work)
      ensures SamePool(old(holder), old(borrowing), old(acquired), old(released), old(faithful))
    {
      hide TransactionState.SoundReserving;
      assert connection !in state.Footprint() && this !in state.Footprint();
      state.InvalidateAll();
    }

    /**
     Recovery after a failed control statement.  Within a savepoint-backed boundary
     it removes that handle and everything newer and leaves the stack below alone;
     otherwise it empties the registry and rolls the whole transaction back, but
     only when relq opened it.
     */
    method RecoverConnection(boundary: Transaction?, owns: bool, ghost k: nat)
      returns (recovered: bool)
      requires Steady()
      requires boundary != null ==> k < |state.entries| && state.entries[k] == TransactionEntry(boundary)
      requires boundary == null ==> state.entries == [] && (owns ==> !connection.server.callerOwned)
      requires boundary != null && boundary.generatedName.Some? ==>
        && connection.server.Lives(boundary.generatedName.value)
        && |connection.server.base| <= |Below(connection.server, boundary.generatedName.value)|
      modifies this, connection, state, state.Footprint()
      ensures Steady() && state.issued == old(state.issued) && borrowing == old(borrowing) && faithful == old(faithful)
      ensures state.entries == if boundary == null then [] else old(state.entries)[..k]
      ensures boundary == null && !owns ==>
        recovered && connection.server == old(connection.server) && connection.work == old(connection.work)
      ensures connection.work.durable == old(connection.work.durable) && connection.work.marks == old(connection.work.marks)
      ensures old(holder) == null ==> SamePool(null, old(borrowing), old(acquired), old(released), old(faithful))
      ensures boundary != null && boundary.generatedName.Some? ==>
        && connection.server.SameOwner(old(connection.server))
        && SamePool(old(holder), old(borrowing), old(acquired), old(released), old(faithful))
        && LeftBy(old(connection.server), old(connection.work), boundary.generatedName.value, recovered)
      ensures (boundary != null && boundary.generatedName.None?) || (boundary == null && owns) ==>
        && holder == null && acquired == released + (if borrowing then 1 else 0)
        && connection.server.base <= connection.server.savepoints
        && (recovered ==> connection.server == Closed() && connection.work.pending == [])
    {
      hide TransactionState.SoundReserving, LastIndex, Keeps, Recalls, Names, SavepointNameKey, IndexOf, Without, PopsTo;
      if boundary == null && !owns {
        return true;
      }
      if boundary != null && boundary.generatedName.Some? {
        ghost var before := state.entries;
        state.PositionIsIndex(k);
        DropNewer(TransactionEntry(boundary));
        boundary.CloseNewest();
        assert state.entries == before[..k];
        recovered := RollBackAndRelease(boundary.generatedName.value);
      } else {
        DropAll();
        recovered := Issue(Rollback, {});
        var aborted: bool := *;
        recovered := recovered && !aborted;
        if holder != null {
          ReleaseConnection(holder);
        }
      }
    }

    /** What rolling back to a savepoint and releasing it leaves, however far it got. */
    ghost predicate LeftBy(server: Server, work: Work, name: string, recovered: bool)
      reads connection
    {
      && connection.server.savepoints in {server.savepoints, Top(server, name), Below(server, name)}
      && (recovered ==> connection.server == server.(savepoints := Below(server, name), aborted := false))
      && (recovered ==> connection.work.pending == work.At(server, name))
    }

    /** Two statements, each watched by the observer. */
    method RollBackAndRelease(name: string) returns (ok: bool)
      requires state.Sound() && connection.server.kind.Postgres? && connection.server.Coherent()
      requires connection.server.Lives(name)
      requires |connection.server.base| <= |Below(connection.server, name)|
      modifies connection
      ensures state.Sound() && connection.server.Coherent()
      ensures connection.server.SameOwner(old(connection.server))
      ensures LeftBy(old(connection.server), old(connection.work), name, ok)
      ensures connection.work.durable == old(connection.work.durable) && connection.work.marks == old(connection.work.marks)
    {
      hide TransactionState.SoundReserving, LastIndex, SavepointNameKey;
      ghost var server := connection.server;
      PopTwice(server.savepoints, name);
      ok := Issue(RollbackTo(name), {});
      var aborted: bool := *;
      assert ok ==> connection.server.savepoints == Below(server, name) + [name];
      if ok && !aborted {
        ok := Issue(Release(name), {});
        aborted := *;
      }
      ok := ok && !aborted;
    }

    /**
     A savepoint of this name is left on top of `stack`, hiding a registered one of the same
     name: a later command on that one will find the wrong savepoint.
     */
    ghost predicate Misleads(name: string, stack: seq<string>)
      reads connection, state
    {
      connection.server.savepoints == stack + [Identity(Postgres, name)] && Identity(Postgres, name) in Tracked()
    }

    /**
     A call that registered nothing leaves every name that is still registered where it was,
     unless it misleads.
     */
    ghost predicate Settled(name: string, stack: seq<string>, was: bool)
      reads this, connection, state
    {
      && faithful == (was && !Misleads(name, stack))
      && (was ==> (Stays(Tracked(), stack, connection.server.savepoints) <==> !Misleads(name, stack)))
    }

    /**
     A call that registered nothing has undone nothing but its own savepoint, or has fallen back
     to a handle and to the work there was when its savepoint was created.
     */
    ghost predicate Fallen(before: seq<Entry>, server: Server, work: Work)
      reads connection, state
    {
      if state.entries == before then connection.work.pending == work.pending
      else
        && |state.entries| < |before|
        && var e := before[|state.entries|];
           connection.work.pending == if e.Named() then work.At(server, e.Name()) else []
    }

    /**
     Opens a transaction, or a savepoint when anybody already has one open, and
     registers a handle for it.  `fromPool` is the call that borrows the connection.
     The generated name is reserved only after the savepoint exists, so a name the
     user has taken is noticed late.  The registry's names stop denoting its own savepoints
     in exactly one case: the name is that of an older savepoint, and neither undoing the new
     one nor recovering the boundary rolled anything back.
     */
    method Begin(via: Option<Transaction>, fromPool: bool, generated: string)
      returns (outcome: Outcome, transaction: Transaction?)
      requires Valid() && (via.Some? ==> TransactionEntry(via.value) in state.issued)
      requires fromPool ==> via.None? && state.entries == [] && !connection.server.inTransaction
      modifies this, connection, state, state.Footprint()
      ensures Valid() && old(state.issued) <= state.issued
      ensures outcome.Unavailable? ==> faithful == old(faithful)
      ensures outcome.Done? ==> faithful == (old(faithful) || old(state.entries) == [])
      ensures !outcome.Done? && !outcome.Unavailable? ==>
        Settled(generated, old(connection.server.savepoints), old(faithful) || old(state.entries) == [])
      ensures !outcome.Done? && old(faithful) && Misleads(generated, old(connection.server.savepoints)) ==>
        outcome.RecoveryFailed? && SavepointNameKey(generated) in KeysOf(old(state.entries))
      ensures connection.work.durable == old(connection.work.durable)
      ensures outcome in {Failed, Refused, Interrupted} && old(connection.server.inTransaction) ==>
        Fallen(old(state.entries), old(connection.server), old(connection.work))
      ensures outcome.Done? <==> transaction != null
      ensures outcome.Done? ==>
        && connection.work.pending == (if old(connection.server.inTransaction) then old(connection.work.pending) else [])
        && transaction.origin == connection.work.pending
      ensures outcome.Unavailable? <==> via.Some? && TransactionEntry(via.value) !in old(state.entries)
      ensures outcome.Unavailable? ==>
        && state.entries == old(state.entries)
        && connection.server == old(connection.server) && connection.work == old(connection.work)
      ensures outcome.Done? ==>
        && fresh(transaction)
        && state.entries == old(state.entries) + [TransactionEntry(transaction)]
        && state.issued == old(state.issued) + {TransactionEntry(transaction)}
        && transaction.generatedName == (if old(connection.server.inTransaction) then Some(generated) else None)
        && SamePool(if fromPool then transaction else old(holder), false, old(acquired) + Count(fromPool), old(released), faithful)
      ensures outcome.Done? ==> Stays(old(Tracked()), old(connection.server.savepoints), connection.server.savepoints)
      ensures !outcome.Done? ==>
        && state.entries <= old(state.entries)
        && state.issued == old(state.issued)
        && (fromPool ==> SamePool(null, false, old(acquired) + 1, old(released) + 1, faithful))
      ensures old(connection.server.callerOwned) ==>
        connection.server.SameOwner(old(connection.server))
      ensures old(Exact()) && !outcome.RecoveryFailed? && !outcome.CleanupFailed? ==> Exact()
    {
      hide TransactionState.SoundReserving, LastIndex, Keeps, Recalls, Names, SavepointNameKey, KeysOf, IndexOf, Without;
      hide Below, PopsTo;
      transaction := null;
      if via.Some? {
        state.UsableMeansRegistered(TransactionEntry(via.value));
        if via.value.closed {
          return Unavailable, null;
        }
      }
      StartAfresh();
      if fromPool {
        Acquire();
      }
      ghost var before, server, work := state.entries, connection.server, connection.work;
      if connection.server.inTransaction {
        outcome, transaction := BeginNested(generated);
        if transaction == null {
          StillRecalled(before, |state.entries|, server.savepoints, work.marks);
        } else if faithful {
          NewRecalled(Postgres, before, TransactionEntry(transaction), server.savepoints, work.marks, work.pending);
        }
      } else {
        NothingRegistered(state.entries);
        outcome, transaction := BeginOutermost(fromPool);
        if transaction == null {
          NothingTracked(generated, old(connection.server.savepoints));
        }
        KeepsNothing(true, Postgres, state.entries, connection.server.savepoints, connection.server.base);
      }
      if fromPool {
        if transaction != null {
          HandOver(transaction);
        } else {
          ReturnBorrowed();
        }
      }
    }

    /** With nothing registered there is nothing to be misled about. */
    ghost method StartAfresh()
      requires Valid()
      modifies this`faithful
      ensures Valid() && faithful == (old(faithful) || state.entries == [])
      ensures old(Exact()) ==> Exact()
    {
      if state.entries == [] {
        NothingRegistered([]);
        faithful := true;
      }
    }

    static function Count(b: bool): nat {
      if b then 1 else 0
    }

    /** A borrowed connection that could not start a transaction is only given back. */
    method BeginOutermost(fromPool: bool) returns (outcome: Outcome, transaction: Transaction?)
      requires Steady() && state.entries == [] && !connection.server.inTransaction && faithful
      modifies this, connection, state, state.Footprint()
      ensures Steady() && Keeps(faithful, Tracked(), connection.server.savepoints, |connection.server.base|)
      ensures SamePool(old(holder), old(borrowing), old(acquired), old(released), old(faithful))
      ensures outcome in {Done, Failed, RecoveryFailed, Interrupted}
      ensures connection.work.durable == old(connection.work.durable) && connection.work.marks == old(connection.work.marks)
      ensures outcome.Done? <==> transaction != null
      ensures outcome.Done? ==> connection.work.pending == [] && transaction.origin == []
      ensures outcome.Done? ==>
        && fresh(transaction) && transaction.generatedName == None
        && state.entries == [TransactionEntry(transaction)]
        && state.issued == old(state.issued) + {TransactionEntry(transaction)}
      ensures !outcome.Done? ==> state.entries == [] && state.issued == old(state.issued)
      ensures outcome.Failed? && fromPool ==>
        connection.server == old(connection.server) && connection.commands == old(connection.commands) + 1
      ensures old(Exact()) && !outcome.RecoveryFailed? ==> Exact()
    {
      hide TransactionState.SoundReserving, LastIndex, Keeps, Recalls, Names, SavepointNameKey, IndexOf, Without;
      NothingRegistered([]);
      transaction := null;
      var ok := Issue(Command.Begin, {});
      if !ok && fromPool {
        return Failed, null;
      }
      var aborted: bool := *;
      if !ok || aborted {
        var recovered := RecoverConnection(null, true, 0);
        return if !recovered then RecoveryFailed else if !ok then Failed else Interrupted, null;
      }
      transaction := NewHandle(None);
      outcome := Done;
    }

    method BeginNested(generated: string) returns (outcome: Outcome, transaction: Transaction?)
      requires Steady() && connection.server.inTransaction
      requires Keeps(faithful, Tracked(), connection.server.savepoints, |connection.server.base|)
      modifies this, connection, state, state.Footprint()
      ensures Steady() && old(state.issued) <= state.issued && borrowing == old(borrowing)
      ensures Keeps(faithful, Tracked(), connection.server.savepoints, |connection.server.base|)
      ensures connection.work.durable == old(connection.work.durable)
      ensures SameMarks(old(connection.work.marks), connection.work.marks, |old(connection.server.savepoints)|)
      ensures outcome in {Failed, Refused, Interrupted} ==>
        Fallen(old(state.entries), old(connection.server), old(connection.work))
      ensures !outcome.Unavailable? && (outcome.Done? <==> transaction != null)
      ensures outcome.Done? ==>
        && connection.work == old(connection.work).After(old(connection.server), Command.Savepoint(generated))
        && connection.server.savepoints == old(connection.server.savepoints) + [Identity(Postgres, generated)]
        && transaction.origin == connection.work.pending
      ensures outcome.Done? ==>
        && fresh(transaction) && transaction.generatedName == Some(generated)
        && state.entries == old(state.entries) + [TransactionEntry(transaction)]
        && state.issued == old(state.issued) + {TransactionEntry(transaction)}
        && SamePool(old(holder), old(borrowing), old(acquired), old(released), old(faithful))
      ensures outcome.Done? ==> Stays(old(Tracked()), old(connection.server.savepoints), connection.server.savepoints)
      ensures !outcome.Done? ==>
        && state.entries <= old(state.entries) && state.issued == old(state.issued)
        && Settled(generated, old(connection.server.savepoints), old(faithful))
      ensures !outcome.Done? && old(faithful) && Misleads(generated, old(connection.server.savepoints)) ==>
        outcome.RecoveryFailed? && SavepointNameKey(generated) in KeysOf(old(state.entries))
      ensures old(connection.server.callerOwned) ==> connection.server.SameOwner(old(connection.server))
      ensures old(Exact()) && !outcome.RecoveryFailed? && !outcome.CleanupFailed? ==> Exact()
    {
      hide TransactionState.SoundReserving, LastIndex, Keeps, Recalls, Names, SavepointNameKey, KeysOf, IndexOf, Without;
      hide Below, PopsTo, PopsExactly, Top;
      hide PostgresDatabase.Settled, PostgresDatabase.Misleads;
      ghost var before, server, work, exact := state.entries, connection.server, connection.work, Exact();
      transaction := null;
      var boundary: Transaction?, kb := NewestBoundary();
      NothingRegistered(before);
      var ok := Issue(Command.Savepoint(generated), {});
      if !ok {
        outcome := RecoverStart(generated, boundary, kb, server, exact);
        return outcome, null;
      }
      var aborted: bool := *;
      if !aborted {
        transaction := RegisterNested(generated, server, exact);
      }
      if transaction == null {
        outcome := UndoSavepoint(generated, boundary, kb, if aborted then Interrupted else Refused, server, work, exact);
        return outcome, null;
      }
      outcome := Done;
    }

    /** Reserves the generated name and registers the handle, if the name is free. */
    method RegisterNested(generated: string, ghost server: Server, ghost exact: bool)
      returns (transaction: Transaction?)
      requires Steady() && server.Accepts(Command.Savepoint(generated)) && server.Coherent()
      requires server.kind.Postgres? && connection.server == server.Apply(Command.Savepoint(generated))
      requires Keeps(faithful, Tracked(), server.savepoints, |server.base|)
      requires exact ==> faithful && server.savepoints == server.base + Tracked()
      modifies state
      ensures Steady() && connection.server == old(connection.server)
      ensures SamePool(old(holder), old(borrowing), old(acquired), old(released), old(faithful))
      ensures transaction == null ==> state.entries == old(state.entries) && state.issued == old(state.issued)
      ensures transaction == null ==> state.stack == old(state.stack)
      ensures transaction != null ==>
        && fresh(transaction) && transaction.generatedName == Some(generated)
        && transaction.origin == connection.work.pending
        && state.entries == old(state.entries) + [TransactionEntry(transaction)]
        && state.issued == old(state.issued) + {TransactionEntry(transaction)}
        && Keeps(faithful, Tracked(), connection.server.savepoints, |connection.server.base|)
        && Stays(old(Tracked()), server.savepoints, connection.server.savepoints)
        && (exact ==> Exact())
    {
      hide TransactionState.SoundReserving, LastIndex, Keeps, Recalls, Names, SavepointNameKey, KeysOf, IndexOf, Without;
      ghost var before := state.entries;
      transaction := null;
      var reserved := state.ReserveSavepointName(generated);
      if reserved {
        KeepsNew(faithful, Postgres, before, server.savepoints, server.base, generated);
        FreeKeyIsUntracked(Postgres, before, generated);
        PushHides(Identities(Postgres, Names(before)), server.savepoints, generated);
        transaction := NewHandle(Some(generated));
      }
    }

    /** What the server knows about the handle that a failing begin would roll back to. */
    ghost predicate Bounds(boundary: Transaction?, k: nat, server: Server, exact: bool)
      reads this, state
    {
      && (boundary == null <==> state.entries == [])
      && (boundary != null ==> k < |state.entries| && state.entries[k] == TransactionEntry(boundary))
      && (boundary != null && boundary.generatedName.None? ==> k == 0 && !server.callerOwned)
      && (boundary != null && boundary.generatedName.Some? ==>
            && PopsTo(faithful, server, boundary.generatedName.value, Identities(Postgres, Names(state.entries[..k])))
            && Keeps(faithful, Identities(Postgres, Names(state.entries[..k + 1])), server.savepoints, |server.base|)
            && (exact ==> PopsExactly(server, state.entries, k)))
    }

    /** The savepoint that should have backed a handle could not be created. */
    method RecoverStart(generated: string, boundary: Transaction?, ghost k: nat, ghost server: Server, ghost exact: bool)
      returns (outcome: Outcome)
      requires Steady() && connection.server == server.Failed() && server.inTransaction && server.Coherent()
      requires server.kind.Postgres? && Bounds(boundary, k, server, exact)
      requires exact ==> faithful && server.savepoints == server.base + Tracked()
      modifies this, connection, state, state.Footprint()
      ensures Steady() && state.issued == old(state.issued) && borrowing == old(borrowing)
      ensures state.entries <= old(state.entries)
      ensures connection.work.durable == old(connection.work.durable) && connection.work.marks == old(connection.work.marks)
      ensures outcome in {Failed, RecoveryFailed}
      ensures outcome.Failed? ==> Fallen(old(state.entries), server, old(connection.work))
      ensures Keeps(faithful, Tracked(), connection.server.savepoints, |connection.server.base|)
      ensures Settled(generated, server.savepoints, old(faithful)) && !Misleads(generated, server.savepoints)
      ensures server.callerOwned ==> connection.server.SameOwner(server)
      ensures exact && outcome == Failed ==> Exact()
    {
      hide TransactionState.SoundReserving, LastIndex, Keeps, Recalls, Names, SavepointNameKey, KeysOf, IndexOf, Without;
      hide Below, Top, PopsTo;
      ghost var before := state.entries;
      NothingRegistered(before);
      if boundary != null && boundary.generatedName.Some? {
        BoundaryPops(boundary, k, server, exact);
        FailedStack(server, boundary.generatedName.value);
      }
      var recovered := RecoverConnection(boundary, false, k);
      outcome := if recovered then Failed else RecoveryFailed;
      if boundary != null && boundary.generatedName.Some? {
        assert state.entries == before[..k];
        assert |connection.server.savepoints| <= |server.savepoints|;
      } else {
        NothingTracked(generated, server.savepoints);
      }
    }

    /** Popping to the boundary keeps what is older in place. */
    lemma BoundaryPops(boundary: Transaction, k: nat, server: Server, exact: bool)
      requires server.kind.Postgres? && Bounds(boundary, k, server, exact) && boundary.generatedName.Some?
      ensures var name, older := boundary.generatedName.value, Identities(Postgres, Names(state.entries[..k]));
        && server.Lives(name) && |server.base| <= |Below(server, name)|
        && Undisturbed(faithful, older, server, name)
        && (faithful ==> Tracks(older + [Identity(Postgres, name)], server.savepoints, |server.base|))
        && (exact ==> Below(server, name) == server.base + older)
        && |Below(server, name)| < |Top(server, name)| <= |server.savepoints|
      ensures k < |state.entries| && state.entries[k] == TransactionEntry(boundary)
    {
      hide LastIndex, Names, SavepointNameKey, Tracks, Embeds;
      var name, older := boundary.generatedName.value, Identities(Postgres, Names(state.entries[..k]));
      NamesAt(Postgres, state.entries, k);
      assert Identities(Postgres, Names(state.entries[..k + 1])) == older + [Identity(Postgres, name)];
      StackSlices(server, name);
      Popped(faithful, server, name, older, server.savepoints);
      Popped(faithful, server, name, older, Top(server, name));
      Popped(faithful, server, name, older, Below(server, name));
    }

    /** The handle a failure here would roll back to, and what the server knows about it. */
    method NewestBoundary() returns (boundary: Transaction?, ghost k: nat)
      requires Steady() && connection.server.inTransaction
      requires Keeps(faithful, Tracked(), connection.server.savepoints, |connection.server.base|)
      ensures Steady() && Bounds(boundary, k, connection.server, Exact())
    {
      hide LastIndex, Keeps, Names, SavepointNameKey, PopsTo, PopsExactly, KeysOf;
      state.StackEmptyIffNoEntries();
      boundary, k := null, 0;
      if state.stack != [] {
        boundary := state.stack[|state.stack| - 1];
        k := state.NewestTransaction();
        if boundary.generatedName.Some? {
          EntryPops(faithful, connection.server, state.entries, k);
        }
      }
    }

    /**
     Undoes a savepoint that was created but will not be handed out.  When that fails,
     the boundary is recovered; without one there is nothing relq may roll back.
     */
    method UndoSavepoint(name: string, boundary: Transaction?, ghost k: nat, onSuccess: Outcome,
                         ghost server: Server, ghost work: Work, ghost exact: bool) returns (outcome: Outcome)
      requires Steady() && server.Accepts(Command.Savepoint(name)) && server.Coherent()
      requires server.kind.Postgres? && connection.server == server.Apply(Command.Savepoint(name))
      requires connection.work == work.After(server, Command.Savepoint(name))
      requires Keeps(faithful, Tracked(), server.savepoints, |server.base|)
      requires exact ==> faithful && server.savepoints == server.base + Tracked()
      requires onSuccess in {Interrupted, Refused} && Bounds(boundary, k, server, exact)
      modifies this, connection, state, state.Footprint()
      ensures Steady() && state.issued == old(state.issued) && borrowing == old(borrowing)
      ensures state.entries <= old(state.entries)
      ensures connection.work.durable == old(connection.work.durable) && connection.work.marks == old(connection.work.marks)
      ensures outcome in {onSuccess, RecoveryFailed, CleanupFailed}
      ensures outcome == onSuccess ==> Fallen(old(state.entries), server, work)
      ensures Keeps(faithful, Tracked(), connection.server.savepoints, |connection.server.base|)
      ensures Settled(name, server.savepoints, old(faithful))
      ensures old(faithful) && Misleads(name, server.savepoints) ==>
        outcome.RecoveryFailed? && SavepointNameKey(name) in KeysOf(old(state.entries))
        && boundary != null && boundary.generatedName.Some? && boundary.generatedName.value != name
      ensures server.callerOwned ==> connection.server.SameOwner(server)
      ensures exact && outcome == onSuccess ==> Exact()
    {
      hide TransactionState.SoundReserving, LastIndex, Keeps, Recalls, Names, SavepointNameKey, KeysOf, IndexOf, Without;
      hide Below, Top, PopsTo;
      hide PostgresDatabase.Bounds;
      ghost var before := state.entries;
      var ok := RollBackPushed(name, server, work);
      if ok {
        NothingMoved(name, server.savepoints);
        return onSuccess;
      }
      if boundary == null || boundary.generatedName.None? {
        outcome := RecoverOutermost(name, boundary, k, onSuccess, server, work, exact);
      } else {
        outcome := RecoverPushed(name, boundary, k, onSuccess, server, work, exact);
      }
    }

    lemma OlderHaveKeys(before: seq<Entry>, k: nat, name: string)
      requires k <= |before|
      ensures name in Identities(Postgres, Names(before[..k])) ==> SavepointNameKey(name) in KeysOf(before)
    {
      NamesSplit(before, k);
      NamesHaveKeys(before);
      hide SavepointNameKey;
      if name in Identities(Postgres, Names(before[..k])) {
        var i :| 0 <= i < |Names(before[..k])| && Names(before[..k])[i] == name;
        assert Names(before)[i] == name;
      }
    }

    lemma NothingTracked(name: string, stack: seq<string>)
      requires state.entries == []
      ensures Settled(name, stack, faithful) && !Misleads(name, stack)
    {
      NothingRegistered([]);
      assert Tracked() == [];
    }

    lemma NothingMoved(name: string, stack: seq<string>)
      requires connection.server.savepoints == stack
      ensures Settled(name, stack, faithful) && !Misleads(name, stack)
    {
      assert |stack + [Identity(Postgres, name)]| == |stack| + 1;
    }

    /** Recovery without a savepoint of its own leaves nothing registered. */
    method RecoverOutermost(name: string, boundary: Transaction?, ghost k: nat, onSuccess: Outcome,
                            ghost server: Server, ghost work: Work, ghost exact: bool) returns (outcome: Outcome)
      requires Steady() && server.kind.Postgres? && onSuccess in {Interrupted, Refused}
      requires connection.server.SameOwner(server) && Bounds(boundary, k, server, exact)
      requires boundary == null || boundary.generatedName.None?
      modifies this, connection, state, state.Footprint()
      ensures Steady() && state.issued == old(state.issued) && borrowing == old(borrowing) && state.entries == []
      ensures connection.work.durable == old(connection.work.durable) && connection.work.marks == old(connection.work.marks)
      ensures outcome in {onSuccess, RecoveryFailed, CleanupFailed}
      ensures outcome == onSuccess ==> Fallen(old(state.entries), server, work)
      ensures Keeps(faithful, Tracked(), connection.server.savepoints, |connection.server.base|)
      ensures Settled(name, server.savepoints, old(faithful)) && !Misleads(name, server.savepoints)
      ensures server.callerOwned ==> connection.server.SameOwner(server)
      ensures exact && faithful && outcome == onSuccess ==> Exact()
    {
      hide TransactionState.SoundReserving, LastIndex, Keeps, Recalls, Names, SavepointNameKey, KeysOf, IndexOf, Without;
      hide Below, Top, PopsTo;
      NothingRegistered(state.entries);
      var recovered := RecoverConnection(boundary, false, k);
      outcome := if boundary == null then CleanupFailed else if recovered then onSuccess else RecoveryFailed;
      NothingTracked(name, server.savepoints);
    }

    /** Recovery rolls back to the boundary's savepoint, which the one left behind may hide. */
    method RecoverPushed(name: string, boundary: Transaction, ghost k: nat, onSuccess: Outcome,
                         ghost server: Server, ghost work: Work, ghost exact: bool) returns (outcome: Outcome)
      requires Steady() && server.kind.Postgres? && onSuccess in {Interrupted, Refused}
      requires connection.server.SameOwner(server) && Bounds(boundary, k, server, exact)
      requires connection.server.savepoints == server.savepoints + [Identity(Postgres, name)]
      requires boundary.generatedName.Some? && server.inTransaction && (exact ==> faithful)
      requires connection.work.marks == work.After(server, Command.Savepoint(name)).marks
      modifies this, connection, state, state.Footprint()
      ensures Steady() && state.issued == old(state.issued) && borrowing == old(borrowing)
      ensures state.entries <= old(state.entries)
      ensures connection.work.durable == old(connection.work.durable) && connection.work.marks == old(connection.work.marks)
      ensures outcome in {onSuccess, RecoveryFailed, CleanupFailed}
      ensures outcome == onSuccess ==> Fallen(old(state.entries), server, work)
      ensures Keeps(faithful, Tracked(), connection.server.savepoints, |connection.server.base|)
      ensures Settled(name, server.savepoints, old(faithful))
      ensures old(faithful) && Misleads(name, server.savepoints) ==>
        outcome.RecoveryFailed? && SavepointNameKey(name) in KeysOf(old(state.entries)) && boundary.generatedName.value != name
      ensures connection.server.SameOwner(server)
      ensures exact && outcome == onSuccess ==> Exact()
    {
      hide TransactionState.SoundReserving, LastIndex, Keeps, Recalls, Names, SavepointNameKey, KeysOf, IndexOf, Without;
      hide Below, Top, PopsTo, Stays;
      hide PostgresDatabase.Fallen, PostgresDatabase.Bounds;
      ghost var before, pushed := state.entries, connection.server;
      var own := boundary.generatedName.value;
      BoundaryPops(boundary, k, server, exact);
      ghost var older := Identities(Postgres, Names(before[..k]));
      PushKeepsBelow(server, pushed, own, name);
      PushedCases(faithful, server, pushed, own, name, older);
      OlderHaveKeys(before, k, name);
      if own != name {
        PlaceUnderPush(server, pushed, work, connection.work, own, name);
      }
      var recovered := RecoverConnection(boundary, false, k);
      assert state.entries == before[..k] && Tracked() == older;
      outcome := if own == name then CleanupFailed else if recovered then onSuccess else RecoveryFailed;
      if outcome == onSuccess {
        FellBack(before, boundary, k, server, work);
      }
      SurvivesKeeps(faithful, older, server.savepoints, connection.server.savepoints, name, |server.base|);
      Judge(name, server.savepoints);
    }

    lemma FellBack(before: seq<Entry>, boundary: Transaction, k: nat, server: Server, work: Work)
      requires k < |before| && before[k] == TransactionEntry(boundary) && state.entries == before[..k]
      requires boundary.generatedName.Some? && connection.work.pending == work.At(server, boundary.generatedName.value)
      ensures Fallen(before, server, work)
    {
    }

    /** Notes whether a registered name has been hidden. */
    ghost method Judge(name: string, stack: seq<string>)
      requires Steady()
      modifies this`faithful
      ensures Steady() && faithful == (old(faithful) && !Misleads(name, stack))
    {
      faithful := faithful && !Misleads(name, stack);
    }

    method RollBackPushed(name: string, ghost server: Server, ghost work: Work) returns (ok: bool)
      requires state.Sound() && server.Accepts(Command.Savepoint(name)) && server.Coherent()
      requires server.kind.Postgres? && connection.server == server.Apply(Command.Savepoint(name))
      requires connection.work == work.After(server, Command.Savepoint(name))
      modifies connection
      ensures state.Sound() && connection.server.Coherent() && connection.server.SameOwner(server)
      ensures connection.work.durable == old(connection.work.durable) && connection.work.marks == old(connection.work.marks)
      ensures ok ==> connection.server == server && connection.work.pending == work.pending
      ensures !ok ==> connection.server.savepoints == server.savepoints + [Identity(Postgres, name)]
    {
      hide TransactionState.SoundReserving, LastIndex, SavepointNameKey;
      PushedIsTop(server, connection.server, name);
      ok := Issue(RollbackTo(name), {});
      if ok {
        PushedIsTop(server, connection.server, name);
        ok := Issue(Release(name), {});
      }
    }

    method NewHandle(generatedName: Option<string>) returns (transaction: Transaction)
      requires state.SoundReserving(Reservation(generatedName))
      modifies state
      ensures state.Sound() && fresh(transaction) && transaction.generatedName == generatedName
      ensures transaction.origin == connection.work.pending
      ensures state.entries == old(state.entries) + [TransactionEntry(transaction)]
      ensures state.issued == old(state.issued) + {TransactionEntry(transaction)}
      ensures Names(state.entries) ==
        Names(old(state.entries)) + if generatedName.Some? then [generatedName.value] else []
    {
      ghost var before := state.entries;
      transaction := new Transaction(state, generatedName, connection.work.pending);
      Appended(before, TransactionEntry(transaction));
    }

    /** Opens a user savepoint; a failed command leaves recovery to the caller. */
    method OpenSavepoint(transaction: Transaction, name: string)
      returns (outcome: Outcome, savepoint: Registry.Savepoint?)
      requires Valid() && TransactionEntry(transaction) in state.issued
      modifies connection, transaction, state
      ensures Valid() && old(state.issued) <= state.issued
      ensures SamePool(old(holder), old(borrowing), old(acquired), old(released), old(faithful))
      ensures forall e | e in state.issued - old(state.issued) :: fresh(e.Object())
      ensures outcome.Done? <==> savepoint != null
      ensures outcome.Unavailable? <==> TransactionEntry(transaction) !in old(state.entries)
      ensures outcome.Refused? <==>
        (!outcome.Unavailable? &&
         (name == "" || |EncodedName(name)| > 63 ||
          SavepointNameKey(QuoteIdentifier(name)) in KeysOf(old(state.entries))))
      ensures outcome.Done? ==>
        && fresh(savepoint) && savepoint.transaction == transaction && savepoint.name == QuoteIdentifier(name)
        && state.entries == old(state.entries) + [SavepointEntry(savepoint)]
        && SavepointEntry(savepoint) in state.issued
      ensures !outcome.Done? ==> state.entries == old(state.entries)
      ensures outcome.Failed? ==> connection.server == old(connection.server).Failed()
      ensures outcome.Unavailable? || outcome.Refused? || outcome.Interrupted? ==>
        connection.server == old(connection.server)
      ensures old(connection.server.callerOwned) ==> connection.server.SameOwner(old(connection.server))
      ensures connection.work.durable == old(connection.work.durable)
      ensures connection.work.pending == old(connection.work.pending)
      ensures outcome.Done? ==> savepoint.origin == connection.work.pending
      ensures !outcome.RecoveryFailed?
      ensures faithful ==> Stays(old(Tracked()), old(connection.server.savepoints), connection.server.savepoints)
      ensures old(Exact()) && !outcome.CleanupFailed? ==> Exact()
    {
      hide TransactionState.SoundReserving, LastIndex, Keeps, Recalls, Names, SavepointNameKey, KeysOf, QuoteIdentifier;
      hide Utf8Length, EncodedName, Stays;
      LengthIsInBytes(name);
      ghost var before, server, work := state.entries, connection.server, connection.work;
      savepoint := null;
      StaysPut(Identities(Postgres, Names(before)), server.savepoints);
      state.UsableMeansRegistered(TransactionEntry(transaction));
      if transaction.closed {
        return Unavailable, null;
      }
      if name == "" || Utf8Length(name) > MAX_NAME_BYTES {
        return Refused, null;
      }
      var quoted := QuoteIdentifier(name);
      var reserved := state.ReserveSavepointName(quoted);
      if !reserved {
        return Refused, null;
      }
      ghost var key := {SavepointNameKey(quoted)};
      Opening(before, server, work, quoted);
      var ok := Issue(Command.Savepoint(quoted), key);
      if !ok {
        state.ReleaseSavepointName(quoted);
        return Failed, null;
      }
      savepoint := RegisterSavepoint(transaction, quoted);
      if faithful {
        RecallsNew(Postgres, before, SavepointEntry(savepoint), connection.server.savepoints, connection.work.marks);
      }
      var aborted: bool := *;
      if aborted {
        AbandonSavepoint(savepoint);
        assert state.entries == before;
        ok := ReleasePushed(quoted, server);
        return if ok then Interrupted else CleanupFailed, null;
      }
      outcome := Done;
    }

    /** What a savepoint under a free name leaves of the names, and of what they recall. */
    lemma Opening(before: seq<Entry>, server: Server, work: Work, quoted: string)
      requires server.kind.Postgres? && SavepointNameKey(quoted) !in KeysOf(before)
      requires Keeps(faithful, Identities(Postgres, Names(before)), server.savepoints, |server.base|)
      requires faithful ==> Recalls(Postgres, before, server.savepoints, work.marks)
      ensures var x := Identity(Postgres, quoted);
        var wider, marks := server.savepoints + [x], work.marks[|server.savepoints| := work.pending];
        && Keeps(faithful, Identities(Postgres, Names(before)), wider, |server.base|)
        && Keeps(faithful, Identities(Postgres, Names(before) + [quoted]), wider, |server.base|)
        && Identities(Postgres, Names(before) + [quoted]) == Identities(Postgres, Names(before)) + [x]
        && Stays(Identities(Postgres, Names(before)), server.savepoints, wider)
        && Stays(Identities(Postgres, Names(before)), server.savepoints, server.savepoints)
        && (faithful ==>
              && Recalls(Postgres, before, wider, marks) && Recalls(Postgres, before, server.savepoints, marks)
              && LastIndex(wider, x) in marks && marks[LastIndex(wider, x)] == work.pending)
    {
      hide LastIndex, Keeps, Recalls, Names, SavepointNameKey, KeysOf, Stays, Identities;
      KeepsNew(faithful, Postgres, before, server.savepoints, server.base, quoted);
      FreeKeyIsUntracked(Postgres, before, quoted);
      PushHides(Identities(Postgres, Names(before)), server.savepoints, quoted);
      StaysPut(Identities(Postgres, Names(before)), server.savepoints);
      if faithful {
        RecallsPushed(Postgres, before, server.savepoints, work.marks, quoted, work.pending);
      }
    }

    method RegisterSavepoint(transaction: Transaction, quoted: string) returns (savepoint: Registry.Savepoint)
      requires transaction.state == state
      requires state.SoundReserving({SavepointNameKey(quoted)}) && TransactionEntry(transaction) in state.entries
      modifies transaction, state
      ensures state.Sound() && fresh(savepoint)
      ensures savepoint.transaction == transaction && savepoint.name == quoted
      ensures savepoint.origin == connection.work.pending
      ensures state.entries == old(state.entries) + [SavepointEntry(savepoint)]
      ensures state.issued == old(state.issued) + {SavepointEntry(savepoint)}
      ensures Names(state.entries) == Names(old(state.entries)) + [quoted]
      ensures connection.server == old(connection.server) && connection.work == old(connection.work)
      ensures SamePool(old(holder), old(borrowing), old(acquired), old(released), old(faithful))
    {
      hide TransactionState.SoundReserving, SavepointNameKey;
      ghost var before := state.entries;
      savepoint := transaction.AddSavepoint(quoted, connection.work.pending);
      Appended(before, SavepointEntry(savepoint));
    }

    method ReleasePushed(name: string, ghost server: Server) returns (ok: bool)
      requires state.Sound() && server.Accepts(Command.Savepoint(name)) && server.Coherent()
      requires server.kind.Postgres? && connection.server == server.Apply(Command.Savepoint(name))
      modifies connection
      ensures state.Sound() && connection.server.Coherent() && connection.server.SameOwner(server)
      ensures connection.work == old(connection.work)
      ensures ok ==> connection.server == server
      ensures !ok ==> connection.server.savepoints == server.savepoints + [Identity(Postgres, name)]
    {
      hide TransactionState.SoundReserving, LastIndex, SavepointNameKey;
      PushedIsTop(server, connection.server, name);
      ok := Issue(Release(name), {});
    }

    /** Releasing, or rolling back to, a savepoint; a failure recovers its transaction's boundary. */
    method ReleaseSavepoint(savepoint: Registry.Savepoint) returns (outcome: Outcome)
      requires Valid() && SavepointEntry(savepoint) in state.issued
      modifies this, connection, state, state.Footprint()
      ensures Valid() && state.issued == old(state.issued) && faithful == old(faithful)
      ensures outcome in {Done, Interrupted, Failed, RecoveryFailed, Unavailable}
      ensures outcome.Unavailable? <==> SavepointEntry(savepoint) !in old(state.entries)
      ensures outcome.Unavailable? ==>
        && state.entries == old(state.entries)
        && connection.server == old(connection.server) && connection.work == old(connection.work)
      ensures outcome.Done? || outcome.Interrupted? ==>
        && state.entries == old(state.entries)[..IndexOf(old(state.entries), SavepointEntry(savepoint))]
        && connection.server.SameOwner(old(connection.server))
        && connection.server.savepoints == Below(old(connection.server), savepoint.name)
        && (faithful ==> Stays(Tracked(), old(connection.server.savepoints), connection.server.savepoints))
      ensures outcome.Done? || outcome.Interrupted? ==> connection.work == old(connection.work)
      ensures connection.work.durable == old(connection.work.durable) && connection.work.marks == old(connection.work.marks)
      ensures outcome.Failed? || outcome.RecoveryFailed? ==>
        && TransactionEntry(savepoint.transaction) in old(state.entries)
        && Ended(savepoint.transaction, old(state.entries), old(connection.server), old(connection.work), outcome)
      ensures old(Exact()) && !outcome.RecoveryFailed? ==> Exact()
    {
      hide TransactionState.SoundReserving, LastIndex, Keeps, Recalls, Names, SavepointNameKey, IndexOf, Without, Below;
      hide Top, PopsTo, Stays;
      hide PostgresDatabase.Ended, PostgresDatabase.Steady, Rooted;
      ghost var e, before, server := SavepointEntry(savepoint), state.entries, connection.server;
      ghost var work, exact := connection.work, Exact();
      OrderlyMeans();
      state.UsableMeansRegistered(SavepointEntry(savepoint));
      state.TransactionOutlivesSavepoints(savepoint);
      if savepoint.transaction.closed || savepoint.released || savepoint.invalidated {
        return Unavailable;
      }
      ghost var k := IndexOf(before, e);
      var ok := Pop(savepoint, Release(savepoint.name), k);
      if ok {
        CloseSavepoint(savepoint, before, k, server, work);
        var aborted: bool := *;
        outcome := if aborted then Interrupted else Done;
      } else {
        outcome := RecoverTransaction(savepoint, server, work, before, k, exact);
        EndedStays(savepoint.transaction, before, server, work, outcome);
        StillRecalled(before, |state.entries|, server.savepoints, work.marks);
      }
    }

    lemma OrderlyMeans()
      requires Orderly()
      ensures state.Sound() && !borrowing && connection.server.kind.Postgres? && connection.server.Coherent()
      ensures Rooted(state.entries, connection.server) && (state.entries != [] ==> connection.server.inTransaction)
      ensures Keeps(faithful, Tracked(), connection.server.savepoints, |connection.server.base|)
    {
      hide TransactionState.SoundReserving, Keeps;
    }

    /** Sends the command on a live savepoint, then drops every newer handle. */
    method Pop(savepoint: Registry.Savepoint, command: Command, ghost k: nat) returns (ok: bool)
      requires Orderly() && SavepointEntry(savepoint) in state.issued && savepoint.transaction.state == state
      requires k < |state.entries| && state.entries[k] == SavepointEntry(savepoint)
      requires command in {Release(savepoint.name), RollbackTo(savepoint.name)}
      modifies connection, state, state.Footprint()
      ensures Steady() && state.issued == old(state.issued) && state.entries == old(state.entries)[..k + 1]
      ensures state.Newest(SavepointEntry(savepoint)) && 0 < k && NoDuplicates(old(state.entries))
      ensures SamePool(old(holder), old(borrowing), old(acquired), old(released), old(faithful))
      ensures !ok ==> connection.server == old(connection.server).Failed()
      ensures connection.work ==
        if ok then old(connection.work).After(old(connection.server), command) else old(connection.work)
      ensures ok ==> !connection.server.aborted && connection.server.SameOwner(old(connection.server))
      ensures ok && command.Release? ==>
        && connection.server.savepoints == Below(old(connection.server), savepoint.name)
        && Keeps(faithful, Identities(Postgres, Names(old(state.entries)[..k])), connection.server.savepoints,
                 |connection.server.base|)
        && (faithful ==> Stays(Identities(Postgres, Names(old(state.entries)[..k])), old(connection.server.savepoints),
                               connection.server.savepoints))
        && (old(Exact()) ==> StackIs(Identities(Postgres, Names(old(state.entries)[..k]))))
      ensures ok && command.RollbackTo? ==>
        && connection.server.savepoints == Top(old(connection.server), savepoint.name)
        && Keeps(faithful, Identities(Postgres, Names(old(state.entries)[..k + 1])), connection.server.savepoints,
                 |connection.server.base|)
        && (faithful ==> Stays(Identities(Postgres, Names(old(state.entries)[..k + 1])), old(connection.server.savepoints),
                               connection.server.savepoints))
        && (old(Exact()) ==> StackIs(Identities(Postgres, Names(old(state.entries)[..k + 1]))))
    {
      hide TransactionState.SoundReserving, LastIndex, Keeps, Recalls, Names, SavepointNameKey, IndexOf, Without, Below;
      hide Top, PopsTo, Stays;
      ghost var before, server := state.entries, connection.server;
      state.PositionIsIndex(k);
      EntryPops(faithful, server, before, k);
      EntryStays(server, before, k);
      ok := IssuePop(command, Identities(Postgres, Names(before[..k])));
      DropNewer(SavepointEntry(savepoint));
    }

    /** What popping to an entry leaves in place. */
    lemma EntryStays(server: Server, before: seq<Entry>, k: nat)
      requires server.kind.Postgres? && k < |before| && before[k].Named()
      requires PopsTo(faithful, server, before[k].Name(), Identities(Postgres, Names(before[..k])))
      ensures faithful ==>
        && Stays(Identities(Postgres, Names(before[..k])), server.savepoints, Below(server, before[k].Name()))
        && Stays(Identities(Postgres, Names(before[..k])), server.savepoints, Top(server, before[k].Name()))
        && Stays(Identities(Postgres, Names(before[..k + 1])), server.savepoints, Top(server, before[k].Name()))
    {
      hide LastIndex, Keeps, Names, SavepointNameKey, Below, Top, Stays;
      NamesAt(Postgres, before, k);
      assert Identities(Postgres, Names(before[..k + 1])) == Identities(Postgres, Names(before[..k])) + [before[k].Name()];
      if faithful {
        TopStays(server, before[k].Name(), Identities(Postgres, Names(before[..k])));
      }
    }

    /** The registry's part of a release the server has already carried out. */
    method CloseSavepoint(savepoint: Registry.Savepoint, ghost before: seq<Entry>, ghost k: nat,
                          ghost server: Server, ghost work: Work)
      requires Steady() && !borrowing && savepoint.transaction.state == state
      requires 0 < k < |before| && before[k] == SavepointEntry(savepoint) && state.entries == before[..k + 1]
      requires Keeps(faithful, Identities(Postgres, Names(before[..k])), connection.server.savepoints, |connection.server.base|)
      requires faithful ==>
        && Recalls(Postgres, before, server.savepoints, work.marks) && connection.work.marks == work.marks
        && Stays(Identities(Postgres, Names(before[..k])), server.savepoints, connection.server.savepoints)
      requires SavepointEntry(savepoint) in state.issued
      modifies state, state.Footprint()
      ensures Valid() && state.issued == old(state.issued) && state.entries == before[..k]
      ensures connection.server == old(connection.server) && connection.work == old(connection.work)
    {
      hide TransactionState.SoundReserving, LastIndex, Keeps, Recalls, Names, SavepointNameKey, Stays;
      state.InFootprint(SavepointEntry(savepoint));
      assert connection !in state.Footprint() && this !in state.Footprint();
      savepoint.ReleaseNewest();
      assert state.entries == before[..k];
      StillRecalled(before, k, server.savepoints, work.marks);
    }

    method RollBackToSavepoint(savepoint: Registry.Savepoint) returns (outcome: Outcome)
      requires Valid() && SavepointEntry(savepoint) in state.issued
      modifies this, connection, state, state.Footprint()
      ensures Valid() && state.issued == old(state.issued) && faithful == old(faithful)
      ensures outcome in {Done, Interrupted, Failed, RecoveryFailed, Unavailable}
      ensures outcome.Unavailable? <==> SavepointEntry(savepoint) !in old(state.entries)
      ensures outcome.Unavailable? ==>
        && state.entries == old(state.entries)
        && connection.server == old(connection.server) && connection.work == old(connection.work)
      ensures outcome.Done? || outcome.Interrupted? ==>
        && state.entries == old(state.entries)[..IndexOf(old(state.entries), SavepointEntry(savepoint)) + 1]
        && connection.server.SameOwner(old(connection.server)) && !connection.server.aborted
        && connection.server.savepoints == Top(old(connection.server), savepoint.name)
        && (faithful ==> Stays(Tracked(), old(connection.server.savepoints), connection.server.savepoints))
      ensures outcome.Done? || outcome.Interrupted? ==>
        && connection.work.pending == old(connection.work).At(old(connection.server), savepoint.name)
        && (faithful ==> connection.work.pending == savepoint.origin)
      ensures connection.work.durable == old(connection.work.durable) && connection.work.marks == old(connection.work.marks)
      ensures outcome.Failed? || outcome.RecoveryFailed? ==>
        && TransactionEntry(savepoint.transaction) in old(state.entries)
        && Ended(savepoint.transaction, old(state.entries), old(connection.server), old(connection.work), outcome)
      ensures old(Exact()) && !outcome.RecoveryFailed? ==> Exact()
    {
      hide TransactionState.SoundReserving, LastIndex, Keeps, Recalls, Names, SavepointNameKey, IndexOf, Without, Below;
      hide Top, PopsTo, Stays;
      hide PostgresDatabase.Ended;
      ghost var e, before, server := SavepointEntry(savepoint), state.entries, connection.server;
      ghost var work, exact := connection.work, Exact();
      state.UsableMeansRegistered(SavepointEntry(savepoint));
      state.TransactionOutlivesSavepoints(savepoint);
      if savepoint.transaction.closed || savepoint.released || savepoint.invalidated {
        return Unavailable;
      }
      ghost var k := IndexOf(before, e);
      var ok := Pop(savepoint, RollbackTo(savepoint.name), k);
      if ok {
        var aborted: bool := *;
        outcome := if aborted then Interrupted else Done;
      } else {
        outcome := RecoverTransaction(savepoint, server, work, before, k, exact);
        EndedStays(savepoint.transaction, before, server, work, outcome);
      }
      StillRecalled(before, |state.entries|, server.savepoints, work.marks);
      if faithful {
        Recalled(server, work, before, k);
      }
    }

    /** The failed savepoint is dropped, and then its whole transaction is recovered. */
    method RecoverTransaction(savepoint: Registry.Savepoint, ghost server: Server, ghost work: Work, ghost before: seq<Entry>,
                              ghost k: nat, ghost exact: bool) returns (outcome: Outcome)
      requires Steady() && !borrowing && connection.server == server.Failed() && connection.work == work && server.inTransaction
      requires k < |before| && before[k] == SavepointEntry(savepoint) && NoDuplicates(before)
      requires SavepointEntry(savepoint) in state.issued && savepoint.transaction.state == state
      requires state.entries == before[..k + 1]
      requires Rooted(before, server) && server.Coherent() && server.kind.Postgres?
      requires Keeps(faithful, Identities(Postgres, Names(before)), server.savepoints, |server.base|)
      requires exact ==> faithful && server.savepoints == server.base + Identities(Postgres, Names(before))
      modifies this, connection, state, state.Footprint()
      ensures Orderly() && state.issued == old(state.issued) && faithful == old(faithful)
      ensures outcome in {Failed, RecoveryFailed}
      ensures TransactionEntry(savepoint.transaction) in before
      ensures connection.work.durable == old(connection.work.durable) && connection.work.marks == old(connection.work.marks)
      ensures Ended(savepoint.transaction, before, server, work, outcome)
      ensures exact && outcome.Failed? ==> Exact()
    {
      hide TransactionState.SoundReserving, LastIndex, Keeps, Recalls, Names, SavepointNameKey, IndexOf, Without, Below;
      hide PopsTo, Top;
      var transaction := savepoint.transaction;
      ghost var j := OwnerPosition(savepoint, before, k);
      state.InFootprint(SavepointEntry(savepoint));
      AbandonSavepoint(savepoint);
      assert state.entries == before[..k] && state.entries[j] == before[j] && state.entries[..j] == before[..j];
      NothingRegistered(before);
      if transaction.generatedName.Some? {
        EntryPops(faithful, server, before, j);
        FailedPops(faithful, server, transaction.generatedName.value, Identities(Postgres, Names(before[..j])));
      }
      outcome := RecoverAfterFailure(transaction, server, j);
    }

    /** The owner of the newest savepoint sits below it. */
    lemma OwnerPosition(savepoint: Registry.Savepoint, before: seq<Entry>, k: nat) returns (j: nat)
      requires k < |before| && before[k] == SavepointEntry(savepoint) && NoDuplicates(before)
      requires state.Sound() && state.entries == before[..k + 1]
      ensures j < k && before[j] == TransactionEntry(savepoint.transaction)
      ensures TransactionEntry(savepoint.transaction) in before
      ensures j == IndexOf(before, TransactionEntry(savepoint.transaction))
    {
      assert state.entries[k] == SavepointEntry(savepoint);
      state.OwnerIsEntry(SavepointEntry(savepoint));
      j :| 0 <= j < |state.entries| && state.entries[j] == TransactionEntry(savepoint.transaction);
      assert before[j] == state.entries[j];
    }

    method AbandonSavepoint(savepoint: Registry.Savepoint)
      requires savepoint.transaction.state == state
      requires Steady() && state.Newest(SavepointEntry(savepoint))
      modifies state, savepoint, savepoint.transaction
      ensures Steady() && state.issued == old(state.issued)
      ensures state.entries == old(state.entries)[..|old(state.entries)| - 1]
      ensures connection.server == old(connection.server) && connection.work == old(connection.work)
      ensures SamePool(old(holder), old(borrowing), old(acquired), old(released), old(faithful))
    {
      hide TransactionState.SoundReserving;
      savepoint.InvalidateNewest();
    }

    /** Drops every handle newer than `entry`, and says what a command on it will find. */
    method KeepThrough(entry: Entry) returns (ghost k: nat)
      requires Orderly() && entry in state.entries
      modifies state, state.Footprint()
      ensures Orderly() && state.issued == old(state.issued) && faithful == old(faithful)
      ensures connection.server == old(connection.server) && connection.work == old(connection.work)
      ensures SamePool(old(holder), old(borrowing), old(acquired), old(released), old(faithful))
      ensures k == IndexOf(old(state.entries), entry) && k < |old(state.entries)|
      ensures state.entries == old(state.entries)[..k + 1] && state.Newest(entry)
      ensures !entry.Named() ==> k == 0
      ensures entry.Named() ==>
        && PopsTo(faithful, connection.server, entry.Name(), Identities(Postgres, Names(old(state.entries)[..k])))
        && (old(Exact()) ==> PopsExactly(connection.server, old(state.entries), k))
    {
      hide TransactionState.SoundReserving, LastIndex, Keeps, Recalls, Names, SavepointNameKey, IndexOf, Without;
      ghost var before := state.entries;
      state.EntriesDistinct();
      k := IndexOf(state.entries, entry);
      DropNewer(entry);
      if entry.Named() {
        EntryPops(faithful, connection.server, before, k);
      } else {
        KeepsNothing(faithful, Postgres, before[..1], connection.server.savepoints, connection.server.base);
      }
    }

    /**
     Ends a handle.  Whatever happens, it and everything newer leave the registry, and
     an outermost handle has returned its pooled connection when the call returns.
     */
    method Commit(transaction: Transaction) returns (outcome: Outcome)
      requires Valid() && TransactionEntry(transaction) in state.issued
      modifies this, connection, state, state.Footprint()
      ensures Valid() && state.issued == old(state.issued) && faithful == old(faithful)
      ensures outcome.Unavailable? <==> TransactionEntry(transaction) !in old(state.entries)
      ensures outcome.Unavailable? ==>
        && state.entries == old(state.entries)
        && connection.server == old(connection.server) && connection.work == old(connection.work)
      ensures outcome in {Done, Interrupted, Failed, RecoveryFailed, Unavailable}
      ensures connection.work.durable == old(connection.work.durable) +
        if (outcome.Done? || outcome.Interrupted?) && transaction.generatedName.None? && !old(connection.server.aborted)
        then old(connection.work.pending) else []
      ensures outcome.Done? || outcome.Interrupted? ==>
        connection.work.pending == if transaction.generatedName.None? then [] else old(connection.work.pending)
      ensures !outcome.Unavailable? ==>
        Ended(transaction, old(state.entries), old(connection.server), old(connection.work), outcome)
      ensures old(Exact()) && !outcome.RecoveryFailed? ==> Exact()
    {
      hide TransactionState.SoundReserving, LastIndex, Keeps, Recalls, Names, SavepointNameKey, IndexOf, Without;
      state.UsableMeansRegistered(TransactionEntry(transaction));
      if transaction.closed {
        return Unavailable;
      }
      ghost var before, server, work, exact := state.entries, connection.server, connection.work, Exact();
      ghost var k := KeepThrough(TransactionEntry(transaction));
      assert state.entries[k] == TransactionEntry(transaction) && state.entries[..k] == before[..k];
      var ok := Issue(if transaction.generatedName.None? then Command.Commit
                      else Release(transaction.generatedName.value), {});
      outcome := Finish(transaction, ok, false, server, work, before, k, exact);
      EndedStays(transaction, before, server, work, outcome);
      StillRecalled(before, |state.entries|, server.savepoints, work.marks);
    }

    method RollBack(transaction: Transaction) returns (outcome: Outcome)
      requires Valid() && TransactionEntry(transaction) in state.issued
      modifies this, connection, state, state.Footprint()
      ensures Valid() && state.issued == old(state.issued) && faithful == old(faithful)
      ensures outcome.Unavailable? <==> TransactionEntry(transaction) !in old(state.entries)
      ensures outcome.Unavailable? ==>
        && state.entries == old(state.entries)
        && connection.server == old(connection.server) && connection.work == old(connection.work)
      ensures outcome in {Done, Interrupted, Failed, RecoveryFailed, Unavailable}
      ensures connection.work.durable == old(connection.work.durable)
      ensures outcome.Done? || outcome.Interrupted? ==>
        if transaction.generatedName.None? then connection.work.pending == []
        else
          && connection.work.pending == old(connection.work).At(old(connection.server), transaction.generatedName.value)
          && (faithful ==> connection.work.pending == transaction.origin)
      ensures !outcome.Unavailable? ==>
        Ended(transaction, old(state.entries), old(connection.server), old(connection.work), outcome)
      ensures old(Exact()) && !outcome.RecoveryFailed? ==> Exact()
    {
      hide TransactionState.SoundReserving, LastIndex, Keeps, Recalls, Names, SavepointNameKey, IndexOf, Without, PopsTo;
      state.UsableMeansRegistered(TransactionEntry(transaction));
      if transaction.closed {
        return Unavailable;
      }
      ghost var before, server, work, exact := state.entries, connection.server, connection.work, Exact();
      ghost var k := KeepThrough(TransactionEntry(transaction));
      assert state.entries[k] == TransactionEntry(transaction) && state.entries[..k] == before[..k];
      var ok, observerRaised;
      if transaction.generatedName.None? {
        ok := Issue(Rollback, {});
        observerRaised := false;
      } else {
        ok, observerRaised := RollBackNested(transaction.generatedName.value,
                                             Identities(Postgres, Names(before[..k])));
      }
      outcome := Finish(transaction, ok, observerRaised, server, work, before, k, exact);
      EndedStays(transaction, before, server, work, outcome);
      StillRecalled(before, |state.entries|, server.savepoints, work.marks);
      if faithful && transaction.generatedName.Some? {
        Recalled(server, work, before, k);
      }
    }

    /** Closes or recovers a handle whose last command has run, then settles with the pool. */
    method Finish(transaction: Transaction, ok: bool, observerRaised: bool,
                  ghost server: Server, ghost work: Work, ghost before: seq<Entry>, ghost k: nat, ghost exact: bool)
      returns (outcome: Outcome)
      requires state.Sound() && PoolBalanced() && !borrowing
      requires connection.server.kind.Postgres? && connection.server.Coherent()
      requires server.kind.Postgres? && server.inTransaction
      requires k < |before| && before[k] == TransactionEntry(transaction)
      requires k == IndexOf(before, TransactionEntry(transaction)) && state.entries == before[..k + 1]
      requires Rooted(state.entries, server)
      requires transaction.generatedName.None? ==> k == 0
      requires transaction.generatedName.Some? ==>
        && connection.server.SameOwner(server)
        && PopsTo(faithful, server, transaction.generatedName.value, Identities(Postgres, Names(before[..k])))
        && (exact ==> PopsExactly(server, before, k))
      requires exact ==> faithful
      requires !ok && transaction.generatedName.Some? && faithful ==>
        Stays(Identities(Postgres, Names(before[..k])), server.savepoints, connection.server.savepoints)
      requires ok && transaction.generatedName.None? ==> connection.server == Closed()
      requires (ok && transaction.generatedName.Some?) ==>
        connection.server ==
          server.(savepoints := Below(server, transaction.generatedName.value), aborted := false)
      requires !ok ==> connection.server.SameOwner(server)
      requires !ok && transaction.generatedName.Some? ==>
        connection.work.At(connection.server, transaction.generatedName.value) == work.At(server, transaction.generatedName.value)
      requires connection.work.marks == work.marks
      requires (!ok && transaction.generatedName.Some?) ==>
        && PopsTo(faithful, connection.server, transaction.generatedName.value, Identities(Postgres, Names(before[..k])))
        && Below(connection.server, transaction.generatedName.value) == Below(server, transaction.generatedName.value)
      modifies this, connection, state, state.Footprint()
      ensures Orderly() && state.issued == old(state.issued) && faithful == old(faithful)
      ensures outcome in {Done, Interrupted, Failed, RecoveryFailed}
      ensures connection.work.durable == old(connection.work.durable) && connection.work.marks == old(connection.work.marks)
      ensures outcome.Done? || outcome.Interrupted? ==> connection.work == old(connection.work)
      ensures (outcome.Done? || outcome.Interrupted?) <==> ok
      ensures Ended(transaction, before, server, work, outcome)
      ensures exact && !outcome.RecoveryFailed? ==> Exact()
    {
      hide TransactionState.SoundReserving, LastIndex, Keeps, Recalls, Names, SavepointNameKey, IndexOf, Without, Below, Top;
      NothingRegistered(before);
      assert state.entries[k] == before[k] && state.entries[..k] == before[..k];
      state.PositionIsIndex(k);
      if ok {
        transaction.CloseNewest();
        assert state.entries == before[..k];
        var aborted: bool := *;
        outcome := if observerRaised || aborted then Interrupted else Done;
      } else {
        outcome := RecoverAfterFailure(transaction, server, k);
      }
      ReleaseConnection(transaction);
    }

    /** The two commands of a nested rollback; on failure the savepoint can still be popped. */
    method RollBackNested(name: string, ghost older: seq<string>) returns (ok: bool, observerRaised: bool)
      requires state.Sound() && connection.server.kind.Postgres? && connection.server.Coherent()
      requires PopsTo(faithful, connection.server, name, older)
      modifies connection
      ensures state.Sound() && connection.server.Coherent()
      ensures connection.server.SameOwner(old(connection.server))
      ensures connection.work.durable == old(connection.work.durable) && connection.work.marks == old(connection.work.marks)
      ensures ok ==>
        && connection.server == old(connection.server).(savepoints := Below(old(connection.server), name), aborted := false)
        && connection.work.pending == old(connection.work).At(old(connection.server), name)
      ensures !ok ==>
        connection.work.At(connection.server, name) == old(connection.work).At(old(connection.server), name)
      ensures !ok ==>
        && PopsTo(faithful, connection.server, name, older) && Below(connection.server, name) == Below(old(connection.server), name)
        && (faithful ==> Stays(older, old(connection.server.savepoints), connection.server.savepoints))
    {
      hide TransactionState.SoundReserving, LastIndex, Keeps, Recalls, SavepointNameKey;
      ghost var server, work := connection.server, connection.work;
      StackSlices(server, name);
      observerRaised := false;
      ok := Issue(RollbackTo(name), {});
      if ok {
        TopPops(faithful, server, connection.server, name, older);
        SamePlace(server, connection.server, work, connection.work, name);
        observerRaised := *;
        ok := Issue(Release(name), {});
      }
    }

    lemma ValidIsSound()
      requires Valid()
      ensures state.Sound() && (state.entries == [] ==> acquired == released)
      ensures connection.server.callerOwned ==> connection.server.inTransaction
    {
      hide TransactionState.SoundReserving, Keeps, Recalls;
    }

    lemma OwnedByCallerMeansNamed()
      requires Valid()
      ensures connection.server.callerOwned ==> forall e | e in state.entries :: e.Named()
    {
    }

    /** What ending the k-th handle leaves of the registry, the server and the pool. */
    ghost predicate Ended(transaction: Transaction, before: seq<Entry>, server: Server, work: Work, outcome: Outcome)
      requires TransactionEntry(transaction) in before
      reads this, connection, state
    {
      && state.entries == before[..IndexOf(before, TransactionEntry(transaction))]
      && (transaction.generatedName.Some? ==>
            && connection.server.SameOwner(server)
            && (outcome.RecoveryFailed? || connection.server.savepoints == Below(server, transaction.generatedName.value)))
      && (transaction.generatedName.None? ==>
            && holder == null && acquired == released
            && (outcome.RecoveryFailed? || !connection.server.inTransaction))
      && (outcome.Failed? ==> !connection.server.aborted)
      && connection.work.marks == work.marks
      && (outcome.Failed? ==>
            connection.work.pending ==
            if transaction.generatedName.Some? then work.At(server, transaction.generatedName.value) else [])
      && (faithful ==> Stays(Tracked(), server.savepoints, connection.server.savepoints))
    }

    lemma EndedStays(transaction: Transaction, before: seq<Entry>, server: Server, work: Work, outcome: Outcome)
      requires TransactionEntry(transaction) in before && Ended(transaction, before, server, work, outcome)
      ensures state.entries == before[..|state.entries|] && |state.entries| <= |before|
      ensures connection.work.marks == work.marks
      ensures faithful ==> Stays(Tracked(), server.savepoints, connection.server.savepoints)
    {
    }

    /** Nothing is tracked once nothing is registered. */
    lemma NothingRegistered(before: seq<Entry>)
      ensures Names([]) == []
      ensures before[..0] == []
      ensures forall f, stack: seq<string>, base: seq<string> | base <= stack ::
        Keeps(f, Identities(Postgres, Names([])), stack, |base|)
      ensures forall stack: seq<string> :: stack == stack + Identities(Postgres, Names([]))
    {
    }

    /** The handle is newest and a command on it has failed: recover within its boundary. */
    method RecoverAfterFailure(transaction: Transaction, ghost server: Server, ghost k: nat) returns (outcome: Outcome)
      requires Steady() && !borrowing
      requires k < |state.entries| && state.entries[k] == TransactionEntry(transaction)
      requires !TransactionEntry(transaction).Named() ==> k == 0
      requires connection.server.SameOwner(server)
      requires transaction.generatedName.Some? ==>
        && PopsTo(faithful, connection.server, transaction.generatedName.value, Identities(Postgres, Names(state.entries[..k])))
        && Below(connection.server, transaction.generatedName.value) == Below(server, transaction.generatedName.value)
      modifies this, connection, state, state.Footprint()
      ensures Orderly() && state.issued == old(state.issued) && faithful == old(faithful)
      ensures outcome.Failed? || outcome.RecoveryFailed?
      ensures connection.work.durable == old(connection.work.durable) && connection.work.marks == old(connection.work.marks)
      ensures state.entries == old(state.entries)[..k]
      ensures outcome.Failed? ==>
        connection.work.pending ==
        if transaction.generatedName.None? then []
        else old(connection.work).At(old(connection.server), transaction.generatedName.value)
      ensures transaction.generatedName.Some? ==>
        && connection.server.SameOwner(server)
        && SamePool(old(holder), false, old(acquired), old(released), old(faithful))
      ensures transaction.generatedName.None? ==> holder == null
      ensures transaction.generatedName.Some? && faithful ==>
        Stays(Tracked(), old(connection.server.savepoints), connection.server.savepoints)
      ensures outcome.Failed? ==>
        && !connection.server.aborted
        && (if transaction.generatedName.None? then connection.server == Closed()
            else connection.server.savepoints == Below(server, transaction.generatedName.value))
    {
      hide TransactionState.SoundReserving, LastIndex, Keeps, Recalls, Names, SavepointNameKey, IndexOf, Without, Identities;
      ghost var before := state.entries;
      NothingRegistered(before);
      var recovered := RecoverConnection(transaction, false, k);
      outcome := if recovered then Failed else RecoveryFailed;
    }

    static function Closed(): Server {
      Server(Postgres, false, false, false, [], [])
    }
  }

  /**
   How tracking is lost.  The caller has named a savepoint as the second nested begin will name
   its own.  That one is created, refused, and left behind, because the statements that undo
   it and that recover the first nested handle fail.  A rollback to the caller's savepoint
   then goes to the wrong one and undoes nothing.
   */
  lemma TrackingCanBeLost(user: string, nested: string)
    requires user != nested
    ensures var before := Server(Postgres, true, false, false, [user, nested], []);
      && before.Accepts(RollbackTo(user)) && before.Apply(RollbackTo(user)).savepoints == [user]
      && before.Accepts(Command.Savepoint(user))
      && var after := before.Apply(Command.Savepoint(user)).Failed().Failed();
      && after.Accepts(RollbackTo(user)) && after.Apply(RollbackTo(user)).savepoints == [user, nested, user]
      && Keeps(true, [user], before.savepoints, 0) && Keeps(true, [user], after.savepoints, 0)
      && !Stays([user], before.savepoints, after.savepoints)
  {
    var two, three := [user, nested], [user, nested, user];
    assert two + [user] == three;
    NewestPositions(user, nested);
    PushHides([user], two, user);
    hide LastIndex, Embeds, Stays, Tracks, Keeps;
    var before := Server(Postgres, true, false, false, two, []);
    assert before.Apply(Command.Savepoint(user)).Failed().Failed() == Server(Postgres, true, false, true, three, []);
  }

  lemma NewestPositions(user: string, nested: string)
    requires user != nested
    ensures LastIndex([user, nested], user) == 0 && LastIndex([user, nested, user], user) == 2
    ensures Keeps(true, [user], [user, nested], 0) && Keeps(true, [user], [user, nested, user], 0)
  {
    assert [user] + [nested] == [user, nested] && [user, nested] + [user] == [user, nested, user] && [] + [user] == [user];
    LastIndexPush([], user, user);
    LastIndexPush([user], nested, user);
    LastIndexPush([user, nested], user, user);
    hide LastIndex;
    FoundIsKept(user, [user, nested]);
    FoundIsKept(user, [user, nested, user]);
  }

  lemma FoundIsKept(name: string, stack: seq<string>)
    requires LastIndex(stack, name) >= 0
    ensures Keeps(true, [name], stack, 0)
  {
    hide LastIndex;
    assert [name][..0] == [];
    assert Embeds([], stack[..LastIndex(stack, name)], 0);
  }

  /** One call on the connection; handles are numbered in the order they were given out. */
  datatype Call =
    | CallBegin(via: Option<nat>, fromPool: bool, generated: string)
    | CallCommit(transaction: nat)
    | CallRollBack(transaction: nat)
    | CallSavepoint(transaction: nat, name: string)
    | CallRelease(savepoint: nat)
    | CallRollBackTo(savepoint: nat)
    | CallExecute(via: Option<nat>, statement: string)

  /**
   Any sequence of calls with any failures.  Every command names a savepoint that relq opened
   and that is still live, so a caller's own transaction is never committed or rolled back and
   keeps its savepoints; the pool is owed nothing once no handle is left; and the registry
   names exactly the server's stack unless a recovery or cleanup statement failed.  Only a
   failed recovery can make its names denote other savepoints than its own, and even then all
   of this goes on to hold.
   */
  method Run(db: PostgresDatabase, calls: seq<Call>) returns (outcomes: seq<Outcome>)
    requires db.Valid() && db.Exact() && db.state.entries == [] && db.state.issued == {}
    modifies db, db.connection, db.state
    ensures db.Valid() && |outcomes| == |calls|
    ensures RecoveryFailed !in outcomes ==> db.faithful
    ensures RecoveryFailed !in outcomes && CleanupFailed !in outcomes ==> db.Exact()
    ensures old(db.connection.server.callerOwned) ==> db.connection.server.SameOwner(old(db.connection.server))
    ensures db.state.entries == [] ==> db.acquired == db.released
    ensures old(db.connection.work.durable) <= db.connection.work.durable
    ensures (forall i :: 0 <= i < |calls| ==> !calls[i].CallCommit? && !calls[i].CallExecute?) ==>
      db.connection.work.durable == old(db.connection.work.durable)
  {
    hide TransactionState.SoundReserving, LastIndex, Keeps, Recalls, Names, SavepointNameKey, KeysOf, Rooted, IndexOf;
    hide Below, Top;
    hide PostgresDatabase.Orderly;
    outcomes := [];
    db.ValidIsSound();
    var transactions: seq<Transaction>, savepoints: seq<Registry.Savepoint> := [], [];
    for i := 0 to |calls|
      invariant db.Valid() && |outcomes| == i
      invariant RecoveryFailed !in outcomes ==> db.faithful
      invariant Issued(db, transactions, savepoints)
      invariant forall e | e in db.state.issued :: fresh(e.Object())
      invariant RecoveryFailed !in outcomes && CleanupFailed !in outcomes ==> db.Exact()
      invariant old(db.connection.server.callerOwned) ==> db.connection.server.SameOwner(old(db.connection.server))
      invariant old(db.connection.work.durable) <= db.connection.work.durable
      invariant (forall k :: 0 <= k < i ==> !calls[k].CallCommit? && !calls[k].CallExecute?) ==>
        db.connection.work.durable == old(db.connection.work.durable)
    {
      db.ValidIsSound();
      db.state.FootprintIsIssued();
      forall j | 0 <= j < |transactions| ensures fresh(transactions[j]) {
        assert transactions[j] in transactions;
        assert TransactionEntry(transactions[j]).Object() == transactions[j];
      }
      var outcome, transaction, savepoint := Dispatch(db, calls[i], transactions, savepoints);
      if transaction != null {
        transactions := transactions + [transaction];
      }
      if savepoint != null {
        savepoints := savepoints + [savepoint];
      }
      outcomes := outcomes + [outcome];
    }
    db.ValidIsSound();
  }

  ghost predicate Issued(db: PostgresDatabase, transactions: seq<Transaction>, savepoints: seq<Registry.Savepoint>)
    reads db.state
  {
    && (forall t | t in transactions :: TransactionEntry(t) in db.state.issued)
    && forall s | s in savepoints :: SavepointEntry(s) in db.state.issued
  }

  /** One call, and the handle it may have opened. */
  method Dispatch(db: PostgresDatabase, call: Call, transactions: seq<Transaction>, savepoints: seq<Registry.Savepoint>)
    returns (outcome: Outcome, transaction: Transaction?, savepoint: Registry.Savepoint?)
    requires db.Valid() && Issued(db, transactions, savepoints)
    modifies db, db.connection, db.state, db.state.Footprint(), transactions
    ensures db.Valid() && old(db.state.issued) <= db.state.issued
    ensures forall e | e in db.state.issued - old(db.state.issued) :: fresh(e.Object())
    ensures transaction != null ==> TransactionEntry(transaction) in db.state.issued
    ensures savepoint != null ==> SavepointEntry(savepoint) in db.state.issued
    ensures !outcome.RecoveryFailed? && old(db.faithful) ==> db.faithful
    ensures !outcome.RecoveryFailed? && !outcome.CleanupFailed? && old(db.Exact()) ==> db.Exact()
    ensures old(db.connection.server.callerOwned) ==> db.connection.server.SameOwner(old(db.connection.server))
    ensures old(db.connection.work.durable) <= db.connection.work.durable
    ensures !call.CallCommit? && !call.CallExecute? ==> db.connection.work.durable == old(db.connection.work.durable)
  {
    hide TransactionState.SoundReserving, LastIndex, Keeps, Recalls, Names, SavepointNameKey, KeysOf, Rooted, IndexOf;
    hide Below, Top;
    outcome, transaction, savepoint := Unavailable, null, null;
    db.OwnedByCallerMeansNamed();
    db.ValidIsSound();
    match call {
      case CallBegin(via, fromPool, generated) =>
        if via.None? || via.value < |transactions| {
          var borrow := fromPool && via.None? && db.state.entries == [] && !db.connection.server.inTransaction;
          outcome, transaction := db.Begin(if via.None? then None else Some(transactions[via.value]), borrow, generated);
        }
      case CallCommit(t) =>
        if t < |transactions| {
          outcome := db.Commit(transactions[t]);
        }
      case CallRollBack(t) =>
        if t < |transactions| {
          outcome := db.RollBack(transactions[t]);
        }
      case CallSavepoint(t, name) =>
        if t < |transactions| {
          assert transactions[t] in transactions;
          outcome, savepoint := db.OpenSavepoint(transactions[t], name);
        }
      case CallRelease(s) =>
        if s < |savepoints| {
          outcome := db.ReleaseSavepoint(savepoints[s]);
        }
      case CallRollBackTo(s) =>
        if s < |savepoints| {
          outcome := db.RollBackToSavepoint(savepoints[s]);
        }
      case CallExecute(via, statement) =>
        if via.None? || via.value < |transactions| {
          outcome := db.Perform(if via.None? then None else Some(transactions[via.value]), statement);
        }
    }
  }
}

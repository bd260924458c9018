/**
 The database's side of a transaction: an abstract stack of savepoint names, the
 commands that change it, and the connection through which relq issues them.
 */
module Engine {
  import opened Options
  import opened Registry

  datatype Kind = SQLite | Postgres

  datatype Command =
    | Begin
    | Commit
    | Rollback
    | Savepoint(name: string)
    | Release(name: string)
    | RollbackTo(name: string)

  /** SQLite compares savepoint names without ASCII case, PostgreSQL compares quoted names exactly. */
  function Identity(kind: Kind, name: string): string {
    if kind.SQLite? then SavepointNameKey(name) else name
  }

  function Identities(kind: Kind, names: seq<string>): (r: seq<string>) {
    seq(|names|, i requires 0 <= i < |names| => Identity(kind, names[i]))
  }

  /** Where the innermost savepoint called `x` sits, or -1. */
  function LastIndex(stack: seq<string>, x: string): (i: int)
    ensures -1 <= i < |stack|
    ensures i >= 0 ==> stack[i] == x
    ensures forall j :: i < j < |stack| ==> stack[j] != x
  {
    if stack == [] then -1
    else if stack[|stack| - 1] == x then |stack| - 1
    else LastIndex(stack[..|stack| - 1], x)
  }

  /**
   `callerOwned` says that the open transaction was not opened by relq, and
   `aborted` is PostgreSQL's state after a failed statement in a transaction.
   `base` holds the savepoints that were open before relq's first command.
   */
  datatype Server = Server(
    kind: Kind, inTransaction: bool, callerOwned: bool, aborted: bool,
    savepoints: seq<string>, base: seq<string>)
  {
    /** Outside a transaction there is nothing to remember. */
    predicate Coherent() {
      && base <= savepoints
      && (!inTransaction ==> savepoints == [] && !callerOwned && !aborted)
      && (aborted ==> kind.Postgres?)
    }

    /** The same transaction is open, above the same foreign savepoints. */
    predicate SameOwner(before: Server) {
      kind == before.kind && inTransaction && callerOwned == before.callerOwned && base == before.base
    }

    predicate Lives(name: string) {
      inTransaction && LastIndex(savepoints, Identity(kind, name)) >= 0
    }

    predicate Accepts(command: Command) {
      match command
      case Begin => !inTransaction
      case Commit | Rollback => inTransaction || kind.Postgres?
      case Savepoint(_) => inTransaction && !aborted
      case Release(name) => Lives(name) && !aborted
      case RollbackTo(name) => Lives(name)
    }

    function Apply(command: Command): Server
      requires Accepts(command)
    {
      match command
      case Begin => Server(kind, true, false, false, [], [])
      case Commit | Rollback => Server(kind, false, false, false, [], [])
      case Savepoint(name) => this.(savepoints := savepoints + [Identity(kind, name)])
      case Release(name) => this.(savepoints := savepoints[..LastIndex(savepoints, Identity(kind, name))])
      case RollbackTo(name) =>
        this.(savepoints := savepoints[..LastIndex(savepoints, Identity(kind, name)) + 1], aborted := false)
    }

    /** A command that raised has no effect, except that PostgreSQL aborts the transaction. */
    function Failed(): Server {
      if kind.Postgres? && inTransaction then this.(aborted := true) else this
    }
  }

  /**
   The work a server holds: what is durable, what the open transaction has done since, and how
   much of that was there when the savepoint at each depth was created.
   */
  datatype Work = Work(durable: seq<string>, pending: seq<string>, marks: map<int, seq<string>>)
  {
    /** What was pending when the innermost savepoint called `name` was created. */
    function At(server: Server, name: string): seq<string> {
      var i := LastIndex(server.savepoints, Identity(server.kind, name));
      if i in marks then marks[i] else []
    }

    /**
     COMMIT makes the pending work durable, except that PostgreSQL rolls an aborted transaction
     back instead, ROLLBACK drops it, and ROLLBACK TO cuts it back.  RELEASE keeps it.
     */
    function After(server: Server, command: Command): Work {
      match command
      case Begin => this.(pending := [])
      case Commit => Work(durable + if server.inTransaction && !server.aborted then pending else [], [], marks)
      case Rollback => this.(pending := [])
      case Savepoint(_) => this.(marks := marks[|server.savepoints| := pending])
      case Release(_) => this
      case RollbackTo(name) => this.(pending := At(server, name))
    }

    /** One statement, outside any transaction a transaction of its own. */
    function Did(server: Server, statement: string): Work {
      if server.inTransaction then this.(pending := pending + [statement]) else this.(durable := durable + [statement])
    }
  }

  /**
   What relq must respect when it issues a command: a savepoint command names a
   live savepoint, and on PostgreSQL a bare COMMIT or ROLLBACK never meets a
   transaction that somebody else opened.
   */
  predicate Disciplined(server: Server, command: Command) {
    match command
    case Begin | Savepoint(_) => true
    case Commit | Rollback => server.kind.SQLite? || !(server.inTransaction && server.callerOwned)
    case Release(name) => server.Lives(name)
    case RollbackTo(name) => server.Lives(name)
  }

  class Connection {
    var server: Server
    var work: Work
    /** How many control commands were sent. */
    ghost var commands: nat

    constructor (server: Server, work: Work)
      ensures this.server == server && this.work == work
    {
      this.server, this.work, this.commands := server, work, 0;
    }

    /** Any command may fail, whether or not the database would have accepted it. */
    method Execute(command: Command) returns (ok: bool)
      requires Disciplined(server, command)
      modifies this
      ensures ok ==> old(server).Accepts(command) && server == old(server).Apply(command)
      ensures !ok ==> server == old(server).Failed()
      ensures work == if ok then old(work).After(old(server), command) else old(work)
      ensures commands == old(commands) + 1
    {
      ok := *;
      commands := commands + 1;
      ok := ok && server.Accepts(command);
      if ok {
        server, work := server.Apply(command), work.After(server, command);
      } else {
        server := server.Failed();
      }
    }

    /** A statement that does work; PostgreSQL takes none once the transaction is aborted. */
    method Perform(statement: string) returns (ok: bool)
      modifies this
      ensures ok ==> !old(server).aborted && server == old(server)
      ensures !ok ==> server == old(server).Failed()
      ensures work == if ok then old(work).Did(old(server), statement) else old(work)
    {
      ok := *;
      ok := ok && !server.aborted;
      if ok {
        work := work.Did(server, statement);
      } else {
        server := server.Failed();
      }
    }
  }

  /**
   The registry's names, oldest first, each denote a live savepoint at or above
   `floor`, and their innermost occurrences appear on the server's stack in the
   same order.  Savepoints nobody tracks any more may sit anywhere between.
   */
  ghost predicate Tracks(names: seq<string>, stack: seq<string>, floor: nat) {
    && floor <= |stack|
    && (forall i :: 0 <= i < |names| ==> floor <= LastIndex(stack, names[i]))
    && (forall i, j :: 0 <= i < j < |names| ==> LastIndex(stack, names[i]) < LastIndex(stack, names[j]))
  }

  /**
   The names appear above `floor` on the stack in their order, newest innermost, though other
   savepoints of the same names may sit anywhere between.  No push can undo this.
   */
  ghost predicate Embeds(names: seq<string>, stack: seq<string>, floor: nat)
    decreases |names|
  {
    && floor <= |stack|
    && (names == [] ||
        var i := LastIndex(stack, names[|names| - 1]);
        floor <= i && Embeds(names[..|names| - 1], stack[..i], floor))
  }

  /** Every name can be popped, and a faithful registry's names denote its own savepoints. */
  ghost predicate Keeps(faithful: bool, names: seq<string>, stack: seq<string>, floor: nat) {
    Embeds(names, stack, floor) && (faithful ==> Tracks(names, stack, floor))
  }

  lemma LastIndexPush(stack: seq<string>, x: string, y: string)
    ensures LastIndex(stack + [x], y) == if x == y then |stack| else LastIndex(stack, y)
  {
    assert (stack + [x])[..|stack|] == stack;
  }

  lemma LastIndexPrefix(stack: seq<string>, k: nat, y: string)
    requires k <= |stack| && LastIndex(stack, y) < k
    ensures LastIndex(stack[..k], y) == LastIndex(stack, y)
  {
    var i := LastIndex(stack, y);
    assert i >= 0 ==> stack[..k][i] == y;
  }

  /** Each name is found where it was before. */
  ghost predicate Stays(names: seq<string>, before: seq<string>, after: seq<string>) {
    forall n :: n in names ==> LastIndex(after, n) == LastIndex(before, n)
  }

  lemma StaysPrefix(names: seq<string>, stack: seq<string>, m: nat)
    requires m <= |stack| && forall n :: n in names ==> LastIndex(stack, n) < m
    ensures Stays(names, stack, stack[..m])
  {
    forall n | n in names ensures LastIndex(stack[..m], n) == LastIndex(stack, n) {
      LastIndexPrefix(stack, m, n);
    }
  }

  /** Each registered name finds a savepoint that was created when the work its handle knows was pending. */
  ghost predicate Recalls(kind: Kind, entries: seq<Entry>, stack: seq<string>, marks: map<int, seq<string>>) {
    forall e :: e in entries && e.Named() ==>
      var i := LastIndex(stack, Identity(kind, e.Name())); i in marks && marks[i] == e.Origin()
  }

  /** The marks below `n` are the same. */
  ghost predicate SameMarks(before: map<int, seq<string>>, after: map<int, seq<string>>, n: nat) {
    forall i :: i < n && i in before ==> i in after && after[i] == before[i]
  }

  lemma IsNamed(kind: Kind, entries: seq<Entry>, e: Entry)
    requires e in entries && e.Named()
    ensures Identity(kind, e.Name()) in Identities(kind, Names(entries))
  {
    hide Identity;
    var k :| 0 <= k < |entries| && entries[k] == e;
    NamesAt(kind, entries, k);
  }

  lemma RecallsPrefix(kind: Kind, entries: seq<Entry>, stack: seq<string>, marks: map<int, seq<string>>, k: nat)
    requires Recalls(kind, entries, stack, marks) && k <= |entries|
    ensures Recalls(kind, entries[..k], stack, marks)
  {
  }

  /** Where names stay, and marks below stay, what they recall stays. */
  lemma RecallsStays(kind: Kind, entries: seq<Entry>, before: seq<string>, stack: seq<string>,
                     marks: map<int, seq<string>>, after: map<int, seq<string>>)
    requires Recalls(kind, entries, before, marks) && SameMarks(marks, after, |before|)
    requires Stays(Identities(kind, Names(entries)), before, stack)
    ensures Recalls(kind, entries, stack, after)
  {
    hide LastIndex, Identity, Identities, Names;
    forall e | e in entries && e.Named()
      ensures var i := LastIndex(stack, Identity(kind, e.Name())); i in after && after[i] == e.Origin()
    {
      IsNamed(kind, entries, e);
    }
  }

  /** A new handle recalls what was pending when its savepoint was pushed. */
  lemma RecallsNew(kind: Kind, entries: seq<Entry>, e: Entry, stack: seq<string>, marks: map<int, seq<string>>)
    requires Recalls(kind, entries, stack, marks)
    requires e.Named() ==> var i := LastIndex(stack, Identity(kind, e.Name())); i in marks && marks[i] == e.Origin()
    ensures Recalls(kind, entries + [e], stack, marks)
  {
  }

  lemma Recalled(server: Server, work: Work, entries: seq<Entry>, k: nat)
    requires Recalls(server.kind, entries, server.savepoints, work.marks) && k < |entries| && entries[k].Named()
    ensures work.At(server, entries[k].Name()) == entries[k].Origin()
  {
    assert entries[k] in entries;
  }

  /** A new savepoint may be pushed before, or without, ever being registered. */
  lemma TracksPush(names: seq<string>, stack: seq<string>, floor: nat, x: string)
    requires Tracks(names, stack, floor) && x !in names
    ensures Tracks(names, stack + [x], floor)
    ensures Tracks(names + [x], stack + [x], floor)
  {
    forall y {
      LastIndexPush(stack, x, y);
    }
    hide LastIndex;
  }

  lemma {:induction false} EmbedsMore(names: seq<string>, stack: seq<string>, wider: seq<string>, floor: nat)
    requires Embeds(names, stack, floor) && stack <= wider
    ensures Embeds(names, wider, floor)
    decreases |names|
  {
    if names != [] {
      var init, last := names[..|names| - 1], names[|names| - 1];
      var i, j := LastIndex(stack, last), LastIndex(wider, last);
      assert wider[i] == last;
      assert stack[..i] <= wider[..j];
      EmbedsMore(init, stack[..i], wider[..j], floor);
    }
  }

  lemma EmbedsPush(names: seq<string>, stack: seq<string>, floor: nat, x: string)
    requires Embeds(names, stack, floor)
    ensures Embeds(names, stack + [x], floor)
    ensures Embeds(names + [x], stack + [x], floor)
  {
    EmbedsMore(names, stack, stack + [x], floor);
    LastIndexPush(stack, x, x);
    assert (stack + [x])[..|stack|] == stack && (names + [x])[..|names|] == names;
  }

  /** Popping at the k-th name, wherever it is found, leaves the older names embedded. */
  lemma {:induction false} EmbedsPop(names: seq<string>, stack: seq<string>, floor: nat, k: nat)
    requires Embeds(names, stack, floor) && k < |names|
    ensures floor <= LastIndex(stack, names[k])
    ensures Embeds(names[..k], stack[..LastIndex(stack, names[k])], floor)
    decreases |names|
  {
    hide LastIndex;
    var init, last := names[..|names| - 1], names[|names| - 1];
    var i := LastIndex(stack, names[k]);
    if k < |init| {
      var j := LastIndex(stack, last);
      EmbedsPop(init, stack[..j], floor, k);
      var inner := LastIndex(stack[..j], init[k]);
      assert stack[inner] == names[k];
      assert init[..k] == names[..k] && stack[..j][..inner] == stack[..inner];
      EmbedsMore(names[..k], stack[..inner], stack[..i], floor);
    } else {
      assert init == names[..k];
    }
  }

  lemma EmbedsTop(names: seq<string>, stack: seq<string>, floor: nat, k: nat)
    requires k < |names|
    requires var i := LastIndex(stack, names[k]); floor <= i && Embeds(names[..k], stack[..i], floor)
    ensures Embeds(names[..k + 1], stack[..LastIndex(stack, names[k]) + 1], floor)
    ensures Embeds(names[..k], stack[..LastIndex(stack, names[k]) + 1], floor)
    ensures Embeds(names[..k], stack, floor) && Embeds(names[..k + 1], stack, floor)
  {
    var i := LastIndex(stack, names[k]);
    LastIndexPrefix(stack, i + 1, names[k]);
    assert stack[..i + 1][..i] == stack[..i] && names[..k + 1][..k] == names[..k];
    hide LastIndex;
    EmbedsMore(names[..k], stack[..i], stack[..i + 1], floor);
    EmbedsMore(names[..k], stack[..i], stack, floor);
    EmbedsMore(names[..k + 1], stack[..i + 1], stack, floor);
  }

  lemma TracksPrefix(names: seq<string>, stack: seq<string>, floor: nat, k: nat)
    requires Tracks(names, stack, floor) && k <= |names|
    ensures Tracks(names[..k], stack, floor)
  {
  }

  /** Releasing or rolling back to the k-th tracked savepoint keeps the older ones tracked. */
  lemma TracksPop(names: seq<string>, stack: seq<string>, floor: nat, k: nat)
    requires Tracks(names, stack, floor) && k < |names|
    ensures Tracks(names[..k], stack[..LastIndex(stack, names[k])], floor)
    ensures Tracks(names[..k + 1], stack[..LastIndex(stack, names[k]) + 1], floor)
  {
    hide LastIndex;
    var i := LastIndex(stack, names[k]);
    forall j | 0 <= j < k
      ensures LastIndex(stack[..i], names[j]) == LastIndex(stack, names[j])
    {
      LastIndexPrefix(stack, i, names[j]);
    }
    forall j | 0 <= j <= k
      ensures LastIndex(stack[..i + 1], names[j]) == LastIndex(stack, names[j])
    {
      LastIndexPrefix(stack, i + 1, names[j]);
    }
  }

  /** And leaves them in place. */
  lemma PopStays(names: seq<string>, stack: seq<string>, floor: nat, k: nat)
    requires Tracks(names, stack, floor) && k < |names|
    ensures Stays(names[..k], stack, stack[..LastIndex(stack, names[k])])
    ensures Stays(names[..k], stack, stack[..LastIndex(stack, names[k]) + 1])
  {
    hide LastIndex;
    var i := LastIndex(stack, names[k]);
    forall n | n in names[..k] ensures LastIndex(stack, n) < i {
      var j :| 0 <= j < k && names[..k][j] == n;
      assert names[j] == n;
    }
    hide Tracks;
    StaysPrefix(names[..k], stack, i);
    StaysPrefix(names[..k], stack, i + 1);
  }

  /** Without untracked savepoints the k-th name sits exactly at depth `floor + k`. */
  lemma ExactDepth(names: seq<string>, base: seq<string>, k: nat)
    requires Tracks(names, base + names, |base|) && k < |names|
    ensures LastIndex(base + names, names[k]) == |base| + k
  {
    var stack := base + names;
    assert stack[|base| + k] == names[k];
    forall j | k < j < |names| ensures names[j] != names[k] {
      assert LastIndex(stack, names[k]) < LastIndex(stack, names[j]);
    }
    assert forall m :: |base| + k < m < |stack| ==> stack[m] == names[m - |base|];
  }

  /** How the tracked names split at an entry. */
  lemma NamesAt(kind: Kind, entries: seq<Entry>, k: nat)
    requires k < |entries|
    ensures |Names(entries[..k])| <= |Names(entries)|
    ensures Identities(kind, Names(entries[..k])) == Identities(kind, Names(entries))[..|Names(entries[..k])|]
    ensures entries[k].Named() ==>
      && |Names(entries[..k])| < |Names(entries)|
      && Names(entries[..k + 1]) == Names(entries[..k]) + [entries[k].Name()]
      && Identities(kind, Names(entries))[|Names(entries[..k])|] == Identity(kind, entries[k].Name())
  {
    NamesSplit(entries, k);
    assert entries[..k + 1][..k] == entries[..k];
    if entries[k].Named() {
      NamesSplit(entries, k + 1);
    }
  }

  lemma NamesSplit(entries: seq<Entry>, k: nat)
    requires k <= |entries|
    ensures Names(entries[..k]) <= Names(entries)
  {
    if k == |entries| {
      assert entries[..k] == entries;
    } else {
      assert entries[..|entries| - 1][..k] == entries[..k];
      NamesSplit(entries[..|entries| - 1], k);
    }
  }

  /** A name whose key is free names no tracked savepoint. */
  lemma FreeKeyIsUntracked(kind: Kind, entries: seq<Entry>, name: string)
    requires SavepointNameKey(name) !in KeysOf(entries)
    ensures Identity(kind, name) !in Identities(kind, Names(entries))
  {
    NamesHaveKeys(entries);
  }

  lemma NamesHaveKeys(entries: seq<Entry>)
    ensures forall n :: n in Names(entries) ==> SavepointNameKey(n) in KeysOf(entries)
  {
    if entries != [] {
      var init, last := entries[..|entries| - 1], entries[|entries| - 1];
      NamesHaveKeys(init);
      assert entries == init + [last];
      Appended(init, last);
    }
  }

  /** What a control statement on the k-th entry leaves tracked. */
  lemma KeepsEntry(faithful: bool, kind: Kind, entries: seq<Entry>, stack: seq<string>, base: seq<string>, k: nat)
    requires Keeps(faithful, Identities(kind, Names(entries)), stack, |base|)
    requires k < |entries| && entries[k].Named()
    ensures |base| <= LastIndex(stack, Identity(kind, entries[k].Name()))
    ensures var i := LastIndex(stack, Identity(kind, entries[k].Name()));
      && Keeps(faithful, Identities(kind, Names(entries[..k])), stack[..i], |base|)
      && Keeps(faithful, Identities(kind, Names(entries[..k + 1])), stack[..i + 1], |base|)
      && Keeps(faithful, Identities(kind, Names(entries[..k])), stack[..i + 1], |base|)
      && Keeps(faithful, Identities(kind, Names(entries[..k])), stack, |base|)
      && Keeps(faithful, Identities(kind, Names(entries[..k + 1])), stack, |base|)
      && (faithful ==> Stays(Identities(kind, Names(entries[..k])), stack, stack[..i])
                       && Stays(Identities(kind, Names(entries[..k])), stack, stack[..i + 1]))
  {
    hide LastIndex, Tracks, Embeds, Stays, Names, SavepointNameKey;
    var names, at := Identities(kind, Names(entries)), |Names(entries[..k])|;
    NamesAt(kind, entries, k);
    assert Identities(kind, Names(entries[..k + 1])) == names[..at + 1];
    assert names[..at + 1][..at] == names[..at];
    EmbedsPop(names, stack, |base|, at);
    EmbedsTop(names, stack, |base|, at);
    var i := LastIndex(stack, names[at]);
    if faithful {
      TracksPop(names, stack, |base|, at);
      PopStays(names, stack, |base|, at);
      TracksPrefix(names, stack, |base|, at);
      TracksPrefix(names[..at + 1], stack[..i + 1], |base|, at);
      TracksPrefix(names, stack, |base|, at + 1);
    }
  }

  /** Popping at the k-th entry of an exactly tracked stack leaves an exactly tracked stack. */
  lemma ExactEntry(kind: Kind, entries: seq<Entry>, stack: seq<string>, base: seq<string>, k: nat)
    requires Tracks(Identities(kind, Names(entries)), stack, |base|)
    requires stack == base + Identities(kind, Names(entries))
    requires k < |entries| && entries[k].Named()
    ensures var i := LastIndex(stack, Identity(kind, entries[k].Name()));
      && 0 <= i
      && stack[..i] == base + Identities(kind, Names(entries[..k]))
      && stack[..i + 1] == base + Identities(kind, Names(entries[..k + 1]))
  {
    hide LastIndex, Tracks, Names, SavepointNameKey;
    var names, at := Identities(kind, Names(entries)), |Names(entries[..k])|;
    NamesAt(kind, entries, k);
    assert Identities(kind, Names(entries[..k + 1])) == names[..at + 1];
    ExactDepth(names, base, at);
  }

  /** A named handle newly registered on top of the stack, or a savepoint left there untracked. */
  lemma KeepsNew(faithful: bool, kind: Kind, entries: seq<Entry>, stack: seq<string>, base: seq<string>, name: string)
    requires Keeps(faithful, Identities(kind, Names(entries)), stack, |base|)
    requires SavepointNameKey(name) !in KeysOf(entries)
    ensures var stack' := stack + [Identity(kind, name)];
      && Keeps(faithful, Identities(kind, Names(entries)), stack', |base|)
      && Keeps(faithful, Identities(kind, Names(entries) + [name]), stack', |base|)
      && LastIndex(stack', Identity(kind, name)) == |stack|
      && stack'[..|stack|] == stack
    ensures Identities(kind, Names(entries) + [name]) == Identities(kind, Names(entries)) + [Identity(kind, name)]
  {
    var names := Identities(kind, Names(entries));
    FreeKeyIsUntracked(kind, entries, name);
    EmbedsPush(names, stack, |base|, Identity(kind, name));
    if faithful {
      TracksPush(names, stack, |base|, Identity(kind, name));
    }
    LastIndexPush(stack, Identity(kind, name), Identity(kind, name));
    assert Identities(kind, Names(entries) + [name]) == names + [Identity(kind, name)];
  }

  /** A registry without names tracks nothing, whatever the stack holds above `base`. */
  lemma KeepsNothing(faithful: bool, kind: Kind, entries: seq<Entry>, stack: seq<string>, base: seq<string>)
    requires forall e | e in entries :: !e.Named()
    requires base <= stack
    ensures Names(entries) == []
    ensures Keeps(faithful, Identities(kind, Names(entries)), stack, |base|)
    ensures stack == base ==> stack == base + Identities(kind, Names(entries))
    ensures forall marks :: Recalls(kind, entries, stack, marks)
  {
    NamesOfUnnamed(entries);
  }

  lemma NamesOfUnnamed(entries: seq<Entry>)
    requires forall e | e in entries :: !e.Named()
    ensures Names(entries) == []
  {
    if entries != [] {
      NamesOfUnnamed(entries[..|entries| - 1]);
    }
  }

  /** After rolling back to a savepoint it is the newest one on the stack. */
  lemma PopTwice(stack: seq<string>, x: string)
    requires LastIndex(stack, x) >= 0
    ensures var i := LastIndex(stack, x);
      LastIndex(stack[..i + 1], x) == i && stack[..i + 1][..i] == stack[..i]
  {
    LastIndexPrefix(stack, LastIndex(stack, x) + 1, x);
  }

  /** The savepoints under the innermost one called `name`. */
  function Below(server: Server, name: string): seq<string> {
    var i := LastIndex(server.savepoints, Identity(server.kind, name));
    if i < 0 then server.savepoints else server.savepoints[..i]
  }

  /** `name` is live above relq's base, and the older names stay where they were found with or without it. */
  ghost predicate PopsTo(faithful: bool, server: Server, name: string, older: seq<string>) {
    && server.Lives(name)
    && |server.base| <= |Below(server, name)|
    && Keeps(faithful, older, server.savepoints, |server.base|)
    && Keeps(faithful, older, Below(server, name), |server.base|)
    && Keeps(faithful, older, Top(server, name), |server.base|)
    && (faithful ==> Stays(older, server.savepoints, Below(server, name)) && Stays(older, server.savepoints, Top(server, name)))
  }

  /** A pushed savepoint hides exactly the one that had its name. */
  lemma PushHides(names: seq<string>, stack: seq<string>, x: string)
    ensures Stays(names, stack, stack + [x]) <==> x !in names
  {
    forall n ensures LastIndex(stack + [x], n) == if x == n then |stack| else LastIndex(stack, n) {
      LastIndexPush(stack, x, n);
    }
  }

  /** A command that pops to `name`, or fails to, leaves the older names findable, and a faithful registry's in place. */
  lemma Popped(faithful: bool, server: Server, name: string, older: seq<string>, stack: seq<string>)
    requires PopsTo(faithful, server, name, older)
    requires stack == server.savepoints || stack == Top(server, name) || stack == Below(server, name)
    ensures Keeps(faithful, older, stack, |server.base|)
    ensures faithful ==> Stays(older, server.savepoints, stack)
  {
    hide LastIndex, Keeps;
  }

  lemma StackSlices(server: Server, name: string)
    requires LastIndex(server.savepoints, Identity(server.kind, name)) >= 0
    ensures var i := LastIndex(server.savepoints, Identity(server.kind, name));
      Below(server, name) == server.savepoints[..i] && Top(server, name) == server.savepoints[..i + 1]
  {
  }

  /** Every tracked named entry can be popped. */
  lemma EntryPops(faithful: bool, server: Server, entries: seq<Entry>, k: nat)
    requires server.inTransaction
    requires Keeps(faithful, Identities(server.kind, Names(entries)), server.savepoints, |server.base|)
    requires k < |entries| && entries[k].Named()
    ensures PopsTo(faithful, server, entries[k].Name(), Identities(server.kind, Names(entries[..k])))
    ensures Keeps(faithful, Identities(server.kind, Names(entries[..k + 1])), server.savepoints, |server.base|)
    ensures Keeps(faithful, Identities(server.kind, Names(entries[..k + 1])), Top(server, entries[k].Name()), |server.base|)
    ensures faithful && server.savepoints == server.base + Identities(server.kind, Names(entries)) ==>
      PopsExactly(server, entries, k)
  {
    EntryPopsTo(faithful, server, entries, k);
    if faithful && server.savepoints == server.base + Identities(server.kind, Names(entries)) {
      EntryPopsExactly(server, entries, k);
    }
    hide PopsTo, PopsExactly, Keeps, Top;
  }

  lemma EntryPopsTo(faithful: bool, server: Server, entries: seq<Entry>, k: nat)
    requires server.inTransaction
    requires Keeps(faithful, Identities(server.kind, Names(entries)), server.savepoints, |server.base|)
    requires k < |entries| && entries[k].Named()
    ensures PopsTo(faithful, server, entries[k].Name(), Identities(server.kind, Names(entries[..k])))
    ensures Keeps(faithful, Identities(server.kind, Names(entries[..k + 1])), server.savepoints, |server.base|)
    ensures Keeps(faithful, Identities(server.kind, Names(entries[..k + 1])), Top(server, entries[k].Name()), |server.base|)
  {
    hide LastIndex, Keeps, Stays, Names, SavepointNameKey, Identity, Identities, Below, Top;
    KeepsEntry(faithful, server.kind, entries, server.savepoints, server.base, k);
    StackSlices(server, entries[k].Name());
  }

  lemma EntryPopsExactly(server: Server, entries: seq<Entry>, k: nat)
    requires Keeps(true, Identities(server.kind, Names(entries)), server.savepoints, |server.base|)
    requires server.savepoints == server.base + Identities(server.kind, Names(entries))
    requires k < |entries| && entries[k].Named()
    ensures PopsExactly(server, entries, k)
  {
    hide LastIndex, Keeps, Tracks, Names, SavepointNameKey, Identity, Identities, Below, Top;
    KeepsTracks(server.kind, entries, server.savepoints, server.base);
    ExactEntry(server.kind, entries, server.savepoints, server.base, k);
    StackSlices(server, entries[k].Name());
  }

  lemma KeepsTracks(kind: Kind, entries: seq<Entry>, stack: seq<string>, base: seq<string>)
    requires Keeps(true, Identities(kind, Names(entries)), stack, |base|)
    ensures Tracks(Identities(kind, Names(entries)), stack, |base|)
  {
  }

  /** Popping the k-th entry leaves exactly the older names, with or without its own. */
  ghost predicate PopsExactly(server: Server, entries: seq<Entry>, k: nat)
    requires k < |entries| && entries[k].Named()
  {
    && Below(server, entries[k].Name()) == server.base + Identities(server.kind, Names(entries[..k]))
    && Top(server, entries[k].Name()) == server.base + Identities(server.kind, Names(entries[..k + 1]))
  }

  /** The stack once everything above the innermost savepoint called `name` is gone. */
  function Top(server: Server, name: string): seq<string> {
    Below(server, name) + [Identity(server.kind, name)]
  }

  /** A savepoint that was just rolled back to can still be popped, to the same place. */
  lemma TopPops(faithful: bool, server: Server, top: Server, name: string, older: seq<string>)
    requires PopsTo(faithful, server, name, older)
    requires top.kind == server.kind && top.inTransaction && top.base == server.base
    requires top.savepoints == Top(server, name)
    ensures PopsTo(faithful, top, name, older) && Below(top, name) == Below(server, name)
  {
    hide Tracks, Embeds;
    StackSlices(server, name);
    PopTwice(server.savepoints, Identity(server.kind, name));
  }

  /** Rolling back to a savepoint leaves it where it was, too. */
  lemma TopStays(server: Server, name: string, older: seq<string>)
    requires server.Lives(name) && Stays(older, server.savepoints, Top(server, name))
    ensures Stays(older + [Identity(server.kind, name)], server.savepoints, Top(server, name))
  {
    StackSlices(server, name);
    PopTwice(server.savepoints, Identity(server.kind, name));
  }

  /** A savepoint pushed under another name does not change where `name` pops to. */
  lemma PushKeepsBelow(server: Server, pushed: Server, name: string, x: string)
    requires server.Lives(name) && pushed.inTransaction && pushed.kind == server.kind
    requires pushed.savepoints == server.savepoints + [Identity(server.kind, x)]
    ensures pushed.Lives(name) && |Below(server, name)| <= |Below(pushed, name)|
    ensures Identity(server.kind, x) != Identity(server.kind, name) ==> Below(pushed, name) == Below(server, name)
  {
    LastIndexPush(server.savepoints, Identity(server.kind, x), Identity(server.kind, name));
  }

  /** The older names once a savepoint called `x` has been left behind: hidden by it, or where they were. */
  ghost predicate Survives(faithful: bool, older: seq<string>, before: seq<string>, after: seq<string>, x: string, floor: nat) {
    && Embeds(older, after, floor)
    && (faithful ==>
          if after == before + [x] && x in older then !Stays(older, before, after)
          else Tracks(older, after, floor) && Stays(older, before, after))
  }

  lemma SurvivesKeeps(faithful: bool, older: seq<string>, before: seq<string>, after: seq<string>, x: string, floor: nat)
    requires Survives(faithful, older, before, after, x, floor)
    ensures Keeps(faithful && !(after == before + [x] && x in older), older, after, floor)
  {
  }

  /** However far a pop to `own` gets, the older names are found where they were. */
  ghost predicate Undisturbed(faithful: bool, older: seq<string>, server: Server, own: string) {
    && Keeps(faithful, older, server.savepoints, |server.base|)
    && Keeps(faithful, older, Top(server, own), |server.base|)
    && Keeps(faithful, older, Below(server, own), |server.base|)
    && (faithful ==> Stays(older, server.savepoints, Top(server, own)) && Stays(older, server.savepoints, Below(server, own)))
  }

  /** What popping to `own` can leave once a savepoint called `name` was pushed. */
  lemma PushedCases(faithful: bool, server: Server, pushed: Server, own: string, name: string, older: seq<string>)
    requires pushed.inTransaction && pushed.kind == server.kind
    requires pushed.savepoints == server.savepoints + [Identity(server.kind, name)] && server.Lives(own)
    requires faithful ==> Tracks(older + [Identity(server.kind, own)], server.savepoints, |server.base|)
    requires Undisturbed(faithful, older, server, own)
    ensures var x := Identity(server.kind, name);
      && Survives(faithful, older, server.savepoints, pushed.savepoints, x, |server.base|)
      && Survives(faithful, older, server.savepoints, Top(pushed, own), x, |server.base|)
      && Survives(faithful, older, server.savepoints, Below(pushed, own), x, |server.base|)
    ensures Identity(server.kind, own) != Identity(server.kind, name) ==>
      Below(pushed, own) == Below(server, own) && Top(pushed, own) == Top(server, own)
    ensures |Below(pushed, own)| < |pushed.savepoints|
    ensures faithful ==> Identity(server.kind, own) !in older
  {
    var x, y, stack := Identity(server.kind, name), Identity(server.kind, own), server.savepoints;
    PushKeepsBelow(server, pushed, own, name);
    hide LastIndex, Identity;
    StackSlices(server, own);
    StackSlices(pushed, own);
    PushHides(older, stack, x);
    EmbedsPush(older, stack, |server.base|, x);
    if faithful {
      assert Tracks(older, stack, |server.base|);
      if x !in older {
        TracksPush(older, stack, |server.base|, x);
      }
      forall j | 0 <= j < |older| ensures older[j] != y {
        assert (older + [y])[j] == older[j] && (older + [y])[|older|] == y;
      }
    }
    if x == y {
      PushedIsTop(server, pushed, name);
    }
  }

  /** A name just pushed is the innermost one. */
  lemma PushedIsTop(server: Server, pushed: Server, name: string)
    requires pushed.inTransaction && pushed.kind == server.kind
    requires pushed.savepoints == server.savepoints + [Identity(server.kind, name)]
    ensures pushed.Lives(name) && Below(pushed, name) == server.savepoints
    ensures Top(pushed, name) == pushed.savepoints
  {
    LastIndexPush(server.savepoints, Identity(server.kind, name), Identity(server.kind, name));
  }

  lemma FailedStack(server: Server, name: string)
    ensures server.Failed().savepoints == server.savepoints && server.Failed().Lives(name) == server.Lives(name)
    ensures Below(server.Failed(), name) == Below(server, name) && Top(server.Failed(), name) == Top(server, name)
  {
    hide LastIndex;
  }

  /** A failed command changes nothing about what can be popped. */
  lemma FailedPops(faithful: bool, server: Server, name: string, older: seq<string>)
    requires PopsTo(faithful, server, name, older)
    ensures PopsTo(faithful, server.Failed(), name, older) && Below(server.Failed(), name) == Below(server, name)
  {
    hide Tracks, Embeds, LastIndex;
  }

  /** A new savepoint disturbs nobody whose name it has not. */
  lemma RecallsPushed(kind: Kind, entries: seq<Entry>, stack: seq<string>, marks: map<int, seq<string>>, name: string,
                      pending: seq<string>)
    requires Recalls(kind, entries, stack, marks) && SavepointNameKey(name) !in KeysOf(entries)
    ensures var wider := marks[|stack| := pending];
      && Recalls(kind, entries, stack + [Identity(kind, name)], wider) && Recalls(kind, entries, stack, wider)
      && var i := LastIndex(stack + [Identity(kind, name)], Identity(kind, name)); i in wider && wider[i] == pending
  {
    hide LastIndex, Identity, Identities, Names, SavepointNameKey, KeysOf, Recalls;
    var names := Identities(kind, Names(entries));
    FreeKeyIsUntracked(kind, entries, name);
    PushHides(names, stack, Identity(kind, name));
    LastIndexPush(stack, Identity(kind, name), Identity(kind, name));
    StaysPut(names, stack);
    RecallsStays(kind, entries, stack, stack + [Identity(kind, name)], marks, marks[|stack| := pending]);
    RecallsStays(kind, entries, stack, stack, marks, marks[|stack| := pending]);
  }

  lemma StaysPut(names: seq<string>, stack: seq<string>)
    ensures Stays(names, stack, stack)
  {
  }

  /** Popping to an entry leaves what the older ones recall, and finds what the entry itself recalls. */
  lemma PopRecalls(server: Server, work: Work, entries: seq<Entry>, k: nat, stack: seq<string>)
    requires k < |entries| && entries[k].Named()
    requires Recalls(server.kind, entries, server.savepoints, work.marks)
    requires PopsTo(true, server, entries[k].Name(), Identities(server.kind, Names(entries[..k])))
    requires stack in {server.savepoints, Top(server, entries[k].Name()), Below(server, entries[k].Name())}
    ensures work.At(server, entries[k].Name()) == entries[k].Origin()
    ensures Recalls(server.kind, entries[..k], stack, work.marks)
    ensures stack != Below(server, entries[k].Name()) ==> Recalls(server.kind, entries[..k + 1], stack, work.marks)
  {
    hide LastIndex, Identity, Names, Recalls, Below, Top, Keeps, Stays;
    var name, older := entries[k].Name(), Identities(server.kind, Names(entries[..k]));
    Recalled(server, work, entries, k);
    Popped(true, server, name, older, stack);
    RecallsPrefix(server.kind, entries, server.savepoints, work.marks, k);
    RecallsPrefix(server.kind, entries, server.savepoints, work.marks, k + 1);
    RecallsStays(server.kind, entries[..k], server.savepoints, stack, work.marks, work.marks);
    if stack == Top(server, name) {
      Popped(true, server, name, older, Top(server, name));
      TopStays(server, name, older);
      NamesAt(server.kind, entries, k);
      assert Identities(server.kind, Names(entries[..k + 1])) == older + [Identity(server.kind, name)];
      RecallsStays(server.kind, entries[..k + 1], server.savepoints, stack, work.marks, work.marks);
    }
  }

  /** A name found at the same place finds the same work. */
  lemma SamePlace(server: Server, other: Server, work: Work, later: Work, name: string)
    requires server.Lives(name) && other.Lives(name) && server.kind == other.kind
    requires |Below(server, name)| == |Below(other, name)| && work.marks == later.marks
    ensures work.At(server, name) == later.At(other, name)
  {
    hide LastIndex, Identity;
    StackSlices(server, name);
    StackSlices(other, name);
  }

  /** Nor does a savepoint pushed under another name change what a name finds. */
  lemma PlaceUnderPush(server: Server, pushed: Server, work: Work, later: Work, name: string, x: string)
    requires server.Lives(name) && pushed.kind == server.kind && Identity(server.kind, x) != Identity(server.kind, name)
    requires pushed.savepoints == server.savepoints + [Identity(server.kind, x)]
    requires later.marks == work.After(server, Command.Savepoint(x)).marks
    ensures later.At(pushed, name) == work.At(server, name)
  {
    LastIndexPush(server.savepoints, Identity(server.kind, x), Identity(server.kind, name));
    hide Identity;
  }

  /** A handle newly registered on a savepoint just pushed finds what was pending, and the others what they found. */
  lemma NewRecalled(kind: Kind, entries: seq<Entry>, e: Entry, stack: seq<string>, marks: map<int, seq<string>>,
                    pending: seq<string>)
    requires Recalls(kind, entries, stack, marks) && e.Named() && e.Origin() == pending
    requires Stays(Identities(kind, Names(entries)), stack, stack + [Identity(kind, e.Name())])
    ensures Recalls(kind, entries + [e], stack + [Identity(kind, e.Name())], marks[|stack| := pending])
  {
    hide LastIndex, Identity, Identities, Names, Stays;
    var wider := stack + [Identity(kind, e.Name())];
    LastIndexPush(stack, Identity(kind, e.Name()), Identity(kind, e.Name()));
    RecallsStays(kind, entries, stack, wider, marks, marks[|stack| := pending]);
    RecallsNew(kind, entries, e, wider, marks[|stack| := pending]);
  }
}

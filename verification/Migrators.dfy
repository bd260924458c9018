/**
 Any number of SQLite migrators over one database.  Each write transaction is one atomic
 step, any step may fail, and between its steps a migrator's snapshot may go stale.
 */
module Migrators {
  import opened Options
  import opened Migration

  /** What is committed: the history table, and every statement executed so far. */
  datatype Contents = Contents(history: History, log: seq<string>)

  /** How one write transaction ends, as far as the database decides it. */
  datatype Outcome = Completes | Fails(problem: Problem) | CompletesUnrestored

  datatype Attempted = Executed | Skipped | Raised(problem: Problem)

  function Record(contents: Contents, m: Migration): Contents {
    Contents(contents.history[m.name := m.digest], contents.log + m.statements)
  }

  /** Enforcement is only switched, and so only left off, for a file that asks for it. */
  predicate Unrestored(m: Migration, outcome: Outcome) {
    outcome.CompletesUnrestored? && !m.foreignKeys
  }

  /** One migration in its own transaction: the history is read again before anything runs. */
  function Attempt(contents: Contents, m: Migration, migrations: seq<Migration>, outcome: Outcome): (Contents,
                   Attempted) {
    if outcome.Fails? then (contents, Raised(outcome.problem))
    else
      match PendingMigrations(migrations, contents.history)
      case Rejected(problem) => (contents, Raised(problem))
      case Suffix(rest) =>
        if m.name in contents.history then
          (contents, if Unrestored(m, outcome) then Raised(Problem.Unrestored) else Skipped)
        else if rest == [] || rest[0].name != m.name then (contents, Raised(NotNext))
        else (Record(contents, m), if Unrestored(m, outcome) then Raised(Problem.Unrestored) else Executed)
  }

  datatype Status = Success | Error | NotExecuted

  datatype Report = Report(problem: Option<Problem>, statuses: seq<Status>)

  /** A run: not started, working through its snapshot, or done. */
  datatype Run =
    | Idle
    | Working(pending: seq<Migration>, statuses: seq<Status>)
    | Finished(report: Report)

  /** `misreported` counts commits whose run reported an error instead of a success. */
  datatype World = World(contents: Contents, runs: seq<Run>, misreported: nat)

  datatype Event = Begin(run: nat, failure: Option<Problem>) | Step(run: nat, outcome: Outcome)

  /** A run that has handled its whole snapshot reports. */
  function Advance(pending: seq<Migration>, statuses: seq<Status>): Run {
    if |statuses| >= |pending| then Finished(Report(None, statuses)) else Working(pending, statuses)
  }

  function Unexecuted(count: nat): (r: seq<Status>)
    ensures |r| == count && Success !in r
  {
    seq(count, _ => NotExecuted)
  }

  function Stop(pending: seq<Migration>, statuses: seq<Status>, problem: Problem): Run
    requires |statuses| < |pending|
  {
    Finished(Report(Some(problem), statuses + [Error] + Unexecuted(|pending| - |statuses| - 1)))
  }

  function Started(contents: Contents, migrations: seq<Migration>, failure: Option<Problem>): Run {
    if failure.Some? then Finished(Report(failure, []))
    else
      match PendingMigrations(migrations, contents.history)
      case Rejected(problem) => Finished(Report(Some(problem), []))
      case Suffix(pending) => Advance(pending, [])
  }

  function After(pending: seq<Migration>, statuses: seq<Status>, attempted: Attempted): Run
    requires |statuses| < |pending|
  {
    match attempted
    case Executed => Advance(pending, statuses + [Success])
    case Skipped => Advance(pending, statuses + [NotExecuted])
    case Raised(problem) => Stop(pending, statuses, problem)
  }

  predicate Active(run: Run) {
    run.Working? && |run.statuses| < |run.pending|
  }

  /** Events that do not apply to their run's state change nothing. */
  function Next(world: World, migrations: seq<Migration>, event: Event): World {
    if event.run >= |world.runs| then world
    else
      var run := world.runs[event.run];
      match event
      case Begin(r, failure) =>
        if run.Idle? then world.(runs := world.runs[r := Started(world.contents, migrations, failure)]) else world
      case Step(r, outcome) =>
        if Active(run) then
          var (contents, attempted) := Attempt(world.contents, run.pending[|run.statuses|], migrations, outcome);
          World(contents, world.runs[r := After(run.pending, run.statuses, attempted)],
                world.misreported + if attempted.Raised? && contents != world.contents then 1 else 0)
        else world
  }

  function Reached(world: World, migrations: seq<Migration>, events: seq<Event>): World
    decreases |events|
  {
    if events == [] then world else Reached(Next(world, migrations, events[0]), migrations, events[1..])
  }

  /** The database when the first `k` migrations are applied, `from` of them to begin with. */
  function Applied(start: Contents, migrations: seq<Migration>, from: nat, k: nat): Contents
    requires from <= k <= |migrations|
  {
    if k == from then start else Record(Applied(start, migrations, from, k - 1), migrations[k - 1])
  }

  function Successes(statuses: seq<Status>): nat {
    multiset(statuses)[Success]
  }

  function RunSuccesses(run: Run): nat {
    match run
    case Idle => 0
    case Working(_, statuses) => Successes(statuses)
    case Finished(report) => Successes(report.statuses)
  }

  function AllSuccesses(runs: seq<Run>): nat {
    if runs == [] then 0 else RunSuccesses(runs[0]) + AllSuccesses(runs[1..])
  }

  /** A working run's snapshot is a suffix, and everything it has handled is applied. */
  predicate InStep(run: Run, migrations: seq<Migration>, k: nat) {
    match run
    case Idle => true
    case Working(pending, statuses) =>
      |pending| <= |migrations| && pending == migrations[|migrations| - |pending|..]
      && |statuses| < |pending| && |migrations| - |pending| + |statuses| <= k
    case Finished(report) =>
      && (report.problem.None? ==> k == |migrations|)
      && report.problem != Some(NotNext) && report.problem != Some(Unknown)
      && report.problem != Some(Modified) && report.problem != Some(OutOfOrder)
  }

  predicate Invariant(world: World, start: Contents, migrations: seq<Migration>, from: nat, k: nat)
    requires from <= |migrations|
  {
    && from <= k <= |migrations|
    && world.contents == Applied(start, migrations, from, k)
    && world.contents.history == Recorded(migrations, k)
    && (forall run :: run in world.runs ==> InStep(run, migrations, k))
    && AllSuccesses(world.runs) + world.misreported == k - from
  }

  /** The database can fail; it cannot invent an integrity problem. */
  predicate Honest(event: Event) {
    match event
    case Begin(_, failure) => failure.Some? ==> failure.value in {Failed, Refused, Unread, Problem.Unrestored}
    case Step(_, outcome) => outcome.Fails? ==> outcome.problem in {Failed, Refused, Unread, Problem.Unrestored}
  }

  lemma {:induction false} SuccessesUpdate(runs: seq<Run>, i: nat, run: Run)
    requires i < |runs|
    ensures AllSuccesses(runs[i := run]) == AllSuccesses(runs) - RunSuccesses(runs[i]) + RunSuccesses(run)
  {
    if i == 0 {
      assert runs[i := run][1..] == runs[1..];
    } else {
      assert runs[i := run][1..] == runs[1..][i - 1 := run];
      SuccessesUpdate(runs[1..], i - 1, run);
    }
  }

  lemma StatusCounts(statuses: seq<Status>, count: nat)
    ensures Successes(statuses + [Success]) == Successes(statuses) + 1
    ensures Successes(statuses + [NotExecuted]) == Successes(statuses)
    ensures Successes(statuses + [Error] + Unexecuted(count)) == Successes(statuses)
  {
    assert multiset(statuses + [Error] + Unexecuted(count)) ==
           multiset(statuses) + multiset([Error]) + multiset(Unexecuted(count));
  }

  lemma {:induction false} RecordedGrows(migrations: seq<Migration>, k: nat)
    requires k < |migrations|
    ensures Recorded(migrations, k + 1) == Recorded(migrations, k)[migrations[k].name := migrations[k].digest]
  {
  }

  function Settled(m: Migration, outcome: Outcome, applied: bool): Attempted {
    if Unrestored(m, outcome) then Raised(Problem.Unrestored) else if applied then Skipped else Executed
  }

  /** On a prefix, an attempt at or before the frontier skips, or applies exactly the next migration. */
  lemma AttemptOnPrefix(contents: Contents, migrations: seq<Migration>, k: nat, i: nat, outcome: Outcome)
    requires DistinctNames(migrations) && k <= |migrations| && i <= k && i < |migrations|
    requires contents.history == Recorded(migrations, k)
    ensures var (after, attempted) := Attempt(contents, migrations[i], migrations, outcome);
      && (outcome.Fails? ==> after == contents && attempted == Raised(outcome.problem))
      && (!outcome.Fails? && i < k ==> after == contents)
      && (!outcome.Fails? && i == k ==> after == Record(contents, migrations[k]))
      && (!outcome.Fails? ==> attempted == Settled(migrations[i], outcome, i < k))
  {
    PrefixIsPending(migrations, k);
    RecordedHas(migrations, k, i);
    hide PendingMigrations, Recorded;
    if k < |migrations| {
      assert migrations[k..][0] == migrations[k];
    }
  }

  lemma RecordChanges(contents: Contents, migrations: seq<Migration>, k: nat)
    requires DistinctNames(migrations) && k < |migrations| && contents.history == Recorded(migrations, k)
    ensures Record(contents, migrations[k]) != contents
  {
    RecordedHas(migrations, k, k);
  }

  lemma BeginKeeps(world: World, start: Contents, migrations: seq<Migration>, from: nat, k: nat, event: Event)
    requires DistinctNames(migrations) && from <= |migrations| && Invariant(world, start, migrations, from, k)
    requires Honest(event) && event.Begin? && event.run < |world.runs| && world.runs[event.run].Idle?
    ensures Invariant(Next(world, migrations, event), start, migrations, from, k)
  {
    hide Applied, Recorded, PendingMigrations, AllSuccesses;
    PrefixIsPending(migrations, k);
    var run := Started(world.contents, migrations, event.failure);
    assert Successes([]) == 0;
    SuccessesUpdate(world.runs, event.run, run);
    assert InStep(run, migrations, k);
  }

  lemma LaterInStep(runs: seq<Run>, migrations: seq<Migration>, k: nat)
    requires k < |migrations| && forall run :: run in runs ==> InStep(run, migrations, k)
    ensures forall run :: run in runs ==> InStep(run, migrations, k + 1)
  {
  }

  lemma AfterInStep(run: Run, attempted: Attempted, migrations: seq<Migration>, k: nat)
    requires k <= |migrations| && Active(run) && InStep(run, migrations, k)
    requires attempted.Raised? || |migrations| - |run.pending| + |run.statuses| < k
    requires attempted.Raised? ==> attempted.problem in {Failed, Refused, Unread, Problem.Unrestored}
    ensures InStep(After(run.pending, run.statuses, attempted), migrations, k)
    ensures RunSuccesses(After(run.pending, run.statuses, attempted)) ==
              RunSuccesses(run) + if attempted.Executed? then 1 else 0
  {
    StatusCounts(run.statuses, |run.pending| - |run.statuses| - 1);
    hide Successes;
  }

  lemma StepKeeps(world: World, start: Contents, migrations: seq<Migration>, from: nat, k: nat,
                  event: Event) returns (after: nat)
    requires DistinctNames(migrations) && from <= |migrations| && Invariant(world, start, migrations, from, k)
    requires Honest(event) && event.Step? && event.run < |world.runs| && Active(world.runs[event.run])
    ensures k <= after <= |migrations| && Invariant(Next(world, migrations, event), start, migrations, from, after)
  {
    hide Recorded, PendingMigrations, AllSuccesses, RunSuccesses, InStep, Attempt, Record;
    var run := world.runs[event.run];
    assert run in world.runs;
    SnapshotPosition(run, migrations, k);
    var i := |migrations| - |run.pending| + |run.statuses|;
    var (contents, attempted) := Attempt(world.contents, run.pending[|run.statuses|], migrations, event.outcome);
    AttemptOnPrefix(world.contents, migrations, k, i, event.outcome);
    if !event.outcome.Fails? && i == k {
      after := k + 1;
      RecordChanges(world.contents, migrations, k);
      RecordedGrows(migrations, k);
      RecordHistory(world.contents, migrations[k]);
      LaterInStep(world.runs, migrations, k);
    } else {
      after := k;
    }
    AfterInStep(run, attempted, migrations, after);
    SuccessesUpdate(world.runs, event.run, After(run.pending, run.statuses, attempted));
    var next := Next(world, migrations, event);
    assert next.contents == contents && next.runs ==
      world.runs[event.run := After(run.pending, run.statuses, attempted)];
    assert next.contents == Applied(start, migrations, from, after);
    assert next.contents.history == Recorded(migrations, after);
    forall r | r in next.runs ensures InStep(r, migrations, after) {
      var n :| 0 <= n < |next.runs| && next.runs[n] == r;
      assert n != event.run ==> world.runs[n] in world.runs;
    }
    assert AllSuccesses(next.runs) + next.misreported == after - from;
  }

  lemma RecordHistory(contents: Contents, m: Migration)
    ensures Record(contents, m).history == contents.history[m.name := m.digest]
  {
  }

  lemma SnapshotPosition(run: Run, migrations: seq<Migration>, k: nat)
    requires Active(run) && InStep(run, migrations, k)
    ensures |run.pending| <= |migrations| && |migrations| - |run.pending| + |run.statuses| <= k
    ensures |migrations| - |run.pending| + |run.statuses| < |migrations|
    ensures run.pending[|run.statuses|] == migrations[|migrations| - |run.pending| + |run.statuses|]
  {
  }

  /** Every event keeps the invariant, with a frontier that never moves back. */
  lemma EventKeeps(world: World, start: Contents, migrations: seq<Migration>, from: nat, k: nat,
                   event: Event) returns (after: nat)
    requires DistinctNames(migrations) && from <= k <= |migrations| && Invariant(world, start, migrations, from, k) && Honest(event)
    ensures k <= after <= |migrations| && Invariant(Next(world, migrations, event), start, migrations, from, after)
  {
    hide Invariant, Attempt, Started;
    after := k;
    if event.run < |world.runs| {
      if event.Begin? && world.runs[event.run].Idle? {
        BeginKeeps(world, start, migrations, from, k, event);
      } else if event.Step? && Active(world.runs[event.run]) {
        after := StepKeeps(world, start, migrations, from, k, event);
      }
    }
  }

  lemma {:induction false} RunsKeep(world: World, start: Contents, migrations: seq<Migration>, from: nat, k: nat,
                                    events: seq<Event>) returns (after: nat)
    requires DistinctNames(migrations) && from <= k <= |migrations| && Invariant(world, start, migrations, from, k)
    requires forall e :: e in events ==> Honest(e)
    ensures k <= after <= |migrations|
    ensures Invariant(Reached(world, migrations, events), start, migrations, from, after)
    decreases |events|
  {
    hide Invariant, Next, Honest;
    if events == [] {
      after := k;
    } else {
      var middle := EventKeeps(world, start, migrations, from, k, events[0]);
      after := RunsKeep(Next(world, migrations, events[0]), start, migrations, from, middle, events[1..]);
    }
  }

  /** The statements of `migrations[from..k]`, in order. */
  function Statements(migrations: seq<Migration>, from: nat, k: nat): seq<string>
    requires from <= k <= |migrations|
  {
    if k == from then [] else Statements(migrations, from, k - 1) + migrations[k - 1].statements
  }

  lemma {:induction false} AppliedLog(start: Contents, migrations: seq<Migration>, from: nat, k: nat)
    requires from <= k <= |migrations|
    ensures Applied(start, migrations, from, k).log == start.log + Statements(migrations, from, k)
  {
    if k > from {
      AppliedLog(start, migrations, from, k - 1);
    }
  }

  predicate AllIdle(runs: seq<Run>) {
    forall run :: run in runs ==> run.Idle?
  }

  lemma {:induction false} IdleSuccesses(runs: seq<Run>)
    requires AllIdle(runs)
    ensures AllSuccesses(runs) == 0
  {
    if runs != [] {
      assert runs[0] in runs && forall run :: run in runs[1..] ==> run in runs;
      IdleSuccesses(runs[1..]);
    }
  }

  /**
   Whatever the interleaving and whatever fails: the history stays a checksum-matching
   prefix, the statements of each migration ran exactly once and in order, successes add up
   to what was applied, and no run meets an integrity error or "not the next pending".
   */
  lemma MigratorsAreSafe(start: Contents, migrations: seq<Migration>, from: nat, runs: seq<Run>, events: seq<Event>)
    returns (k: nat)
    requires DistinctNames(migrations) && from <= |migrations| && start.history == Recorded(migrations, from)
    requires AllIdle(runs) && forall e :: e in events ==> Honest(e)
    ensures var world := Reached(World(start, runs, 0), migrations, events);
      && from <= k <= |migrations|
      && world.contents == Contents(Recorded(migrations, k), start.log + Statements(migrations, from, k))
      && AllSuccesses(world.runs) + world.misreported == k - from
      && forall run :: run in world.runs && run.Finished? ==>
           && (run.report.problem.None? ==> k == |migrations|)
           && (run.report.problem.Some? ==> run.report.problem.value !in {NotNext, Unknown, Modified, OutOfOrder})
  {
    IdleSuccesses(runs);
    k := RunsKeep(World(start, runs, 0), start, migrations, from, from, events);
    AppliedLog(start, migrations, from, k);
  }

  /** Every outcome leaves enforcement as it was found. */
  predicate Restores(event: Event) {
    event.Step? ==> !event.outcome.CompletesUnrestored?
  }

  lemma {:induction false} MisreportsOnlyUnrestored(world: World, migrations: seq<Migration>, events: seq<Event>)
    requires forall e :: e in events ==> Restores(e)
    ensures Reached(world, migrations, events).misreported == world.misreported
    decreases |events|
  {
    if events != [] {
      assert events[0] in events && forall e :: e in events[1..] ==> e in events;
      AttemptReports(world, migrations, events[0]);
      hide Next;
      MisreportsOnlyUnrestored(Next(world, migrations, events[0]), migrations, events[1..]);
    }
  }

  lemma AttemptReports(world: World, migrations: seq<Migration>, event: Event)
    requires Restores(event)
    ensures Next(world, migrations, event).misreported == world.misreported
  {
    hide PendingMigrations;
  }

  /** SUCCESS reports across all runs equal the history's growth, if enforcement is always restored. */
  lemma SuccessesAreGrowth(start: Contents, migrations: seq<Migration>, from: nat, runs: seq<Run>, events: seq<Event>)
    requires DistinctNames(migrations) && from <= |migrations| && start.history == Recorded(migrations, from)
    requires AllIdle(runs) && forall e :: e in events ==> Honest(e) && Restores(e)
    ensures var world := Reached(World(start, runs, 0), migrations, events);
      |world.contents.history| == |start.history| + AllSuccesses(world.runs)
  {
    hide Honest, Restores;
    var k := MigratorsAreSafe(start, migrations, from, runs, events);
    MisreportsOnlyUnrestored(World(start, runs, 0), migrations, events);
    RecordedSize(migrations, from);
    RecordedSize(migrations, k);
  }

  lemma {:induction false} RecordedSize(migrations: seq<Migration>, k: nat)
    requires DistinctNames(migrations) && k <= |migrations|
    ensures |Recorded(migrations, k)| == k
  {
    if k > 0 {
      RecordedSize(migrations, k - 1);
      RecordedHas(migrations, k - 1, k - 1);
      var before := Recorded(migrations, k - 1);
      assert before[migrations[k - 1].name := migrations[k - 1].digest].Keys == before.Keys + {migrations[k - 1].name};
    }
  }

  /** A commit whose enforcement is not restored is reported as an error, so successes undercount. */
  lemma UnrestoredUndercounts()
    ensures var m := Migration("0001", "digest", ["create table t (id)"], false);
      var world := Reached(World(Contents(map[], []), [Idle], 0), [m], [Begin(0, None), Step(0, CompletesUnrestored)]);
      |world.contents.history| == 1 && AllSuccesses(world.runs) == 0
  {
    var m := Migration("0001", "digest", ["create table t (id)"], false);
    var w0 := World(Contents(map[], []), [Idle], 0);
    var e0, e1 := Begin(0, None), Step(0, CompletesUnrestored);
    var events := [e0, e1];
    PrefixIsPending([m], 0);
    assert [m][0..] == [m];
    var w1 := Next(w0, [m], e0);
    assert w1 == World(Contents(map[], []), [Working([m], [])], 0);
    var w2 := Next(w1, [m], e1);
    assert events[1..] == [e1] && events[1..][1..] == [];
    assert Reached(w1, [m], [e1]) == Reached(w2, [m], []);
    assert Reached(w0, [m], events) == w2;
    assert w2.contents.history == map["0001" := "digest"];
    StatusCounts([], 0);
    assert w2.runs[1..] == [];
  }

  /** A history the check rejects is never changed, and no run that starts on it succeeds. */
  lemma {:induction false} RejectedStays(world: World, migrations: seq<Migration>, events: seq<Event>)
    requires PendingMigrations(migrations, world.contents.history).Rejected?
    requires forall run :: run in world.runs ==> run.Idle? || (run.Finished? && run.report.problem.Some?)
    ensures var after := Reached(world, migrations, events);
      && after.contents == world.contents
      && forall run :: run in after.runs ==> run.Idle? || (run.Finished? && run.report.problem.Some?)
    decreases |events|
  {
    if events != [] {
      RejectedStep(world, migrations, events[0]);
      RejectedStays(Next(world, migrations, events[0]), migrations, events[1..]);
    }
  }

  lemma RejectedStep(world: World, migrations: seq<Migration>, event: Event)
    requires PendingMigrations(migrations, world.contents.history).Rejected?
    requires forall run :: run in world.runs ==> run.Idle? || (run.Finished? && run.report.problem.Some?)
    ensures var after := Next(world, migrations, event);
      && after.contents == world.contents
      && forall run :: run in after.runs ==> run.Idle? || (run.Finished? && run.report.problem.Some?)
  {
    hide PendingMigrations;
    if event.run < |world.runs| {
      assert world.runs[event.run] in world.runs;
    }
  }
}

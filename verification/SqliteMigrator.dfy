/**
 The SQLite migrator as it runs on its connection.  Any call may fail; other migrators may
 commit whenever this connection holds no transaction.
 */
module SqliteMigrator {
  import opened Options
  import opened Migration
  import opened Migrators

  /** What a migration makes a connection do: a statement, with foreign keys enforced or not, or a clean check of them. */
  datatype Sent = Ran(statement: string, enforced: bool) | Checked

  /** Every statement run since `before` had enforcement as given, and none controlled the transaction. */
  predicate RanWith(before: seq<Sent>, after: seq<Sent>, enforced: bool, controls: string -> bool) {
    && before <= after
    && forall i :: |before| <= i < |after| && after[i].Ran? ==>
         after[i].enforced == enforced && !controls(after[i].statement)
  }

  /** A connection: what is committed, and what its own open transaction would commit. */
  class Connection {
    var committed: Contents
    var working: Contents
    var inTransaction: bool
    var foreignKeys: bool
    ghost var sent: seq<Sent>
    /** What SQLite compiles to the opcodes of transaction control. */
    const controls: string -> bool

    constructor (committed: Contents, foreignKeys: bool, controls: string -> bool)
      ensures this.committed == committed && this.foreignKeys == foreignKeys && !inTransaction
    {
      this.committed, this.working := committed, committed;
      this.inTransaction, this.foreignKeys := false, foreignKeys;
      this.sent, this.controls := [], controls;
    }

    /** BEGIN IMMEDIATE: the write lock, or nothing. */
    method BeginImmediate() returns (ok: bool)
      requires !inTransaction
      modifies this`working, this`inTransaction
      ensures inTransaction == ok && (ok ==> working == committed)
    {
      ok := *;
      if ok {
        working, inTransaction := committed, true;
      }
    }

    /** One statement.  It may fail, and it may take the whole transaction with it. */
    method Execute(statement: string) returns (ok: bool)
      requires inTransaction
      modifies this`working, this`inTransaction, this`sent
      ensures sent == old(sent) + [Ran(statement, foreignKeys)]
      ensures ok && inTransaction ==> working == old(working).(log := old(working.log) + [statement])
      ensures !ok && inTransaction ==> working == old(working)
    {
      ok, inTransaction := *, *;
      sent := sent + [Ran(statement, foreignKeys)];
      if ok {
        working := working.(log := working.log + [statement]);
      }
    }

    /** The history row. */
    method Insert(m: Migration) returns (ok: bool)
      requires inTransaction
      modifies this`working
      ensures working == if ok then old(working).(history := old(working.history)[m.name := m.digest]) else old(working)
    {
      ok := *;
      if ok {
        working := working.(history := working.history[m.name := m.digest]);
      }
    }

    method Commit() returns (ok: bool)
      requires inTransaction
      modifies this`committed, this`inTransaction
      ensures committed == if ok then working else old(committed)
      ensures inTransaction == !ok
    {
      ok := *;
      if ok {
        committed, inTransaction := working, false;
      }
    }

    /** ROLLBACK, if there is anything to roll back; a failed one leaves the transaction open. */
    method RollBack() returns (ok: bool)
      modifies this`inTransaction
      ensures inTransaction == (old(inTransaction) && !ok)
      ensures !old(inTransaction) ==> ok
    {
      ok := *;
      if ok || !inTransaction {
        ok, inTransaction := true, false;
      }
    }

    /** PRAGMA foreign_keys has no effect inside a transaction. */
    method SwitchForeignKeys(on: bool) returns (ok: bool)
      modifies this`foreignKeys
      ensures foreignKeys == if ok && !inTransaction then on else old(foreignKeys)
    {
      ok := *;
      if ok && !inTransaction {
        foreignKeys := on;
      }
    }

    /** Turn enforcement off; `None` when that raised. */
    method DisableForeignKeys() returns (wasOn: Option<bool>, problem: Problem)
      requires !inTransaction
      modifies this`foreignKeys
      ensures wasOn.Some? ==> wasOn.value == old(foreignKeys) && !foreignKeys
      ensures wasOn.None? ==> problem == Failed || problem == Unread
      ensures wasOn.None? && problem == Failed ==> foreignKeys == old(foreignKeys)
    {
      problem := Failed;
      var read: bool := *;
      if !read {
        return None, Failed;
      }
      if !foreignKeys {
        return Some(false), Failed;
      }
      var switched := SwitchForeignKeys(false);
      if !switched {
        return None, Failed;
      }
      read := *;
      if !read {
        return None, Unread;
      }
      return Some(true), Failed;
    }

    /** EXPLAIN compiles a statement without running it; `None` when that raised. */
    method IsTransactionControl(statement: string) returns (control: Option<bool>)
      ensures control.Some? ==> control.value == controls(statement)
    {
      var compiled: bool := *;
      return if compiled then Some(controls(statement)) else None;
    }

    /** PRAGMA foreign_key_check: whether no row violates a foreign key. */
    method CheckForeignKeys() returns (clean: bool)
      modifies this`sent
      ensures sent == old(sent) + if clean then [Checked] else []
    {
      clean := *;
      if clean {
        sent := sent + [Checked];
      }
    }

    /** Everything between BEGIN and COMMIT, after the history check passed. */
    method ExecuteAll(m: Migration) returns (problem: Option<Problem>)
      requires inTransaction
      modifies this`working, this`inTransaction, this`sent
      ensures RanWith(old(sent), sent, foreignKeys, controls)
      ensures problem.None? && !m.foreignKeys ==> old(sent) < sent && sent[|sent| - 1] == Checked
      ensures problem.None? ==> inTransaction && working == Record(old(working), m)
      ensures problem.Some? ==> problem.value == Failed || problem.value == Refused
    {
      ghost var before := working;
      var i := 0;
      while i < |m.statements|
        invariant i <= |m.statements| && inTransaction && RanWith(old(sent), sent, foreignKeys, controls)
        invariant working == before.(log := before.log + m.statements[..i])
      {
        var control := IsTransactionControl(m.statements[i]);
        if control != Some(false) {
          return Some(if control.None? then Failed else Refused);
        }
        var ok := Execute(m.statements[i]);
        if !ok {
          return Some(Failed);
        }
        if !inTransaction {
          return Some(Refused);
        }
        assert m.statements[..i + 1] == m.statements[..i] + [m.statements[i]];
        assert before.log + m.statements[..i + 1] == (before.log + m.statements[..i]) + [m.statements[i]];
        i := i + 1;
      }
      assert m.statements[..i] == m.statements;
      var inserted := Insert(m);
      if !inserted {
        return Some(Failed);
      }
      if !m.foreignKeys {
        var clean := CheckForeignKeys();
        if !clean {
          return Some(Failed);
        }
      }
      return None;
    }

    /** Give up: what failed is reported, unless the rollback fails as well. */
    method Abandon(problem: Problem, ghost outcome: Outcome) returns (attempted: Attempted, ghost actual: Outcome)
      modifies this`inTransaction
      ensures !inTransaction ==> attempted == Raised(problem) && actual == outcome
      ensures inTransaction ==> attempted == Raised(Failed) && actual == Fails(Failed)
    {
      var undone := RollBack();
      if undone {
        return Raised(problem), outcome;
      }
      return Raised(Failed), Fails(Failed);
    }

    /** The transaction itself, with enforcement as `Apply` has left it. */
    method ApplyInTransaction(m: Migration, migrations: seq<Migration>) returns (attempted: Attempted,
                              ghost outcome: Outcome)
      requires !inTransaction
      modifies this`committed, this`working, this`inTransaction, this`sent
      ensures RanWith(old(sent), sent, foreignKeys, controls)
      ensures attempted == Executed && !m.foreignKeys ==> old(sent) < sent && sent[|sent| - 1] == Checked
      ensures inTransaction ==> attempted == Raised(Failed)
      ensures (committed, attempted) == Attempt(old(committed), m, migrations, outcome)
      ensures !outcome.CompletesUnrestored?
      ensures outcome.Fails? ==> outcome.problem == Failed || outcome.problem == Refused
    {
      var begun := BeginImmediate();
      var read: bool := *;
      if !begun || !read {
        attempted, outcome := Abandon(Failed, Fails(Failed));
        return;
      }
      var pending := FindPending(migrations, working.history);
      if pending.Rejected? {
        attempted, outcome := Abandon(pending.problem, Completes);
        return;
      }
      if m.name in working.history {
        var ended := Commit();
        if !ended {
          attempted, outcome := Abandon(Failed, Fails(Failed));
          return;
        }
        return Skipped, Completes;
      }
      if pending.migrations == [] || pending.migrations[0].name != m.name {
        attempted, outcome := Abandon(NotNext, Completes);
        return;
      }
      var problem := ExecuteAll(m);
      if problem.Some? {
        attempted, outcome := Abandon(problem.value, Fails(problem.value));
        return;
      }
      var ok := Commit();
      if !ok {
        attempted, outcome := Abandon(Failed, Fails(Failed));
        return;
      }
      return Executed, Completes;
    }

    /**
     One migration: exactly one of the protocol's atomic steps.  Enforcement is as before
     unless switching it back, or reading it back, is what failed; a transaction is left open
     only by a rollback that failed.  The statements of a migration that asks for it run with
     enforcement off, and it succeeds only when the foreign keys are found intact.
     */
    method Apply(m: Migration, migrations: seq<Migration>) returns (attempted: Attempted, ghost outcome: Outcome)
      requires !inTransaction
      modifies this
      ensures inTransaction ==> attempted.Raised?
      ensures RanWith(old(sent), sent, m.foreignKeys && old(foreignKeys), controls)
      ensures attempted == Executed && !m.foreignKeys ==> old(sent) < sent && sent[|sent| - 1] == Checked
      ensures (committed, attempted) == Attempt(old(committed), m, migrations, outcome)
      ensures outcome.Fails? ==> outcome.problem in {Failed, Refused, Unread, Problem.Unrestored}
      ensures foreignKeys == old(foreignKeys) || attempted == Raised(Problem.Unrestored) || attempted == Raised(Unread)
    {
      var wasOn := false;
      if !m.foreignKeys {
        var disabled, problem := DisableForeignKeys();
        if disabled.None? {
          return Raised(problem), Fails(problem);
        }
        wasOn := disabled.value;
      }
      attempted, outcome := ApplyInTransaction(m, migrations);
      if wasOn {
        var restored := SwitchForeignKeys(true);
        var read: bool := *;
        if !restored || !read || !foreignKeys {
          outcome := if attempted.Raised? then Fails(Problem.Unrestored) else CompletesUnrestored;
          attempted := Raised(Problem.Unrestored);
        }
      }
    }

    /** Other migrators at work, on the same migrations, while no transaction is open here. */
    method Others(migrations: seq<Migration>, ghost start: Contents, ghost from: nat,
                  ghost k: nat) returns (ghost after: nat)
      requires DistinctNames(migrations) && from <= k <= |migrations| && !inTransaction
      requires committed == Applied(start, migrations, from, k) && committed.history == Recorded(migrations, k)
      modifies this`committed
      ensures k <= after <= |migrations|
      ensures committed == Applied(start, migrations, from, after) && committed.history == Recorded(migrations, after)
    {
      hide Recorded, Applied, PendingMigrations, Attempt, Record;
      after := k;
      var rounds: int := *;
      while rounds > 0
        invariant k <= after <= |migrations|
        invariant committed == Applied(start, migrations, from, after) && committed.history ==
          Recorded(migrations, after)
      {
        var i: int := *;
        var outcome: Outcome := *;
        RecordedSize(migrations, after);
        if 0 <= i < |migrations| && i <= |committed.history| {
          var before, m := committed, migrations[i];
          AttemptOnPrefix(committed, migrations, after, i, outcome);
          committed := Attempt(committed, m, migrations, outcome).0;
          if !outcome.Fails? && i == after {
            RecordedGrows(migrations, after);
            RecordHistory(before, migrations[after]);
            AppliedGrows(start, migrations, from, after);
            after := after + 1;
          }
        }
        rounds := rounds - 1;
      }
    }

    /** The first transaction: create the history table and take the snapshot; `None` is an exception. */
    method Snapshot(migrations: seq<Migration>) returns (pending: Option<Pending>)
      requires !inTransaction
      modifies this`committed, this`working, this`inTransaction
      ensures committed == old(committed) && inTransaction == pending.None?
      ensures pending.None? || pending.value == PendingMigrations(migrations, committed.history) ||
              pending.value == Rejected(Failed)
    {
      var begun := BeginImmediate();
      var read: bool := *;
      var found := Rejected(Failed);
      if begun && read {
        found := FindPending(migrations, working.history);
        if found.Suffix? {
          var ended := Commit();
          if ended {
            return Some(found);
          }
          found := Rejected(Failed);
        }
      }
      var undone := RollBack();
      return if undone then Some(found) else None;
    }

    /**
     One run, with other migrators committing in between: it reports no error only when
     everything is applied, and never an integrity error.  It raises, instead of reporting,
     only when the first transaction can be neither completed nor rolled back.
     */
    method Migrate(migrations: seq<Migration>, ghost start: Contents, ghost from: nat, ghost k: nat)
      returns (reported: Option<Report>, ghost after: nat)
      requires DistinctNames(migrations) && from <= k <= |migrations| && !inTransaction
      requires committed == Applied(start, migrations, from, k) && committed.history == Recorded(migrations, k)
      modifies this
      ensures k <= after <= |migrations| && (reported.None? ==> inTransaction)
      ensures committed == Applied(start, migrations, from, after) && committed.history == Recorded(migrations, after)
      ensures reported.Some? && reported.value.problem.None? ==> after == |migrations| && !inTransaction
      ensures reported.Some? && reported.value.problem.Some? ==>
                reported.value.problem.value !in {NotNext, Unknown, Modified, OutOfOrder}
      ensures foreignKeys == old(foreignKeys) ||
              (reported.Some? && reported.value.problem in {Some(Problem.Unrestored), Some(Unread)})
    {
      hide Applied, Recorded, PendingMigrations;
      after := Others(migrations, start, from, k);
      var snapshot := Snapshot(migrations);
      PrefixIsPending(migrations, after);
      if snapshot.None? {
        return None, after;
      }
      if snapshot.value.Rejected? {
        return Some(Report(Some(snapshot.value.problem), [])), after;
      }
      var pending := snapshot.value.migrations;
      ghost var first := after;
      var statuses: seq<Status> := [];
      while |statuses| < |pending|
        invariant |statuses| <= |pending| && pending == migrations[first..] && first <= |migrations|
        invariant k <= after <= |migrations| && first + |statuses| <= after && !inTransaction
        invariant committed == Applied(start, migrations, from, after) && committed.history ==
          Recorded(migrations, after)
        invariant foreignKeys == old(foreignKeys)
      {
        after := Others(migrations, start, from, after);
        ghost var before := committed;
        ghost var i := first + |statuses|;
        var attempted, outcome := Apply(pending[|statuses|], migrations);
        AttemptOnPrefix(before, migrations, after, i, outcome);
        if !outcome.Fails? && i == after {
          RecordedGrows(migrations, after);
          RecordHistory(before, migrations[after]);
          AppliedGrows(start, migrations, from, after);
          after := after + 1;
        }
        match attempted {
          case Executed => statuses := statuses + [Success];
          case Skipped => statuses := statuses + [NotExecuted];
          case Raised(problem) =>
            return Some(Report(Some(problem), statuses + [Error] + Unexecuted(|pending| - |statuses| - 1))), after;
        }
      }
      return Some(Report(None, statuses)), after;
    }
  }

  lemma AppliedGrows(start: Contents, migrations: seq<Migration>, from: nat, k: nat)
    requires from <= k < |migrations|
    ensures Applied(start, migrations, from, k + 1) == Record(Applied(start, migrations, from, k), migrations[k])
  {
  }
}

/** Migration files, the history table, and the check that decides what is still pending. */
module Migration {
  /** A file: `digest` is its checksum, `statements` its SQL split at complete statements. */
  datatype Migration = Migration(name: string, digest: string, statements: seq<string>, foreignKeys: bool)

  /** The history table: names are its primary key. */
  type History = map<string, string>

  datatype Problem =
    | Unknown    // the history names a migration that is not shipped
    | Modified   // a recorded checksum differs
    | OutOfOrder // a later migration is applied before an earlier one
    | NotNext    // "is not the next pending migration"
    | Refused    // transaction-control SQL in the file, or SQL that ended the transaction
    | Failed     // the database reported an error
    | Unrestored // foreign-key enforcement could not be switched back on
    | Unread     // enforcement was switched off, but that could not be read back

  datatype Pending = Suffix(migrations: seq<Migration>) | Rejected(problem: Problem)

  function Names(migrations: seq<Migration>): set<string> {
    set m | m in migrations :: m.name
  }

  predicate DistinctNames(migrations: seq<Migration>) {
    forall i, j :: 0 <= i < j < |migrations| ==> migrations[i].name != migrations[j].name
  }

  /** The history after the first `k` migrations. */
  function Recorded(migrations: seq<Migration>, k: nat): History
    requires k <= |migrations|
  {
    if k == 0 then map[] else Recorded(migrations, k - 1)[migrations[k - 1].name := migrations[k - 1].digest]
  }

  predicate Mismatched(m: Migration, applied: History) {
    m.name in applied && applied[m.name] != m.digest
  }

  function FirstPending(migrations: seq<Migration>, applied: History): (k: nat)
    ensures k <= |migrations|
    ensures forall i :: 0 <= i < k ==> migrations[i].name in applied
    ensures k < |migrations| ==> migrations[k].name !in applied
  {
    if migrations == [] || migrations[0].name !in applied then 0
    else
      var k := FirstPending(migrations[1..], applied);
      assert forall i :: 0 < i < k + 1 ==> migrations[1..][i - 1] == migrations[i];
      k + 1
  }

  lemma FirstPendingIs(migrations: seq<Migration>, applied: History, k: nat)
    requires k <= |migrations| && forall i :: 0 <= i < k ==> migrations[i].name in applied
    requires k < |migrations| ==> migrations[k].name !in applied
    ensures FirstPending(migrations, applied) == k
  {
  }

  /** The unapplied suffix, or the first integrity problem in the order they are checked. */
  function PendingMigrations(migrations: seq<Migration>, applied: History): Pending {
    var k := FirstPending(migrations, applied);
    if exists name :: name in applied && name !in Names(migrations) then Rejected(Unknown)
    else if exists m :: m in migrations && Mismatched(m, applied) then Rejected(Modified)
    else if exists i :: k <= i < |migrations| && migrations[i].name in applied then Rejected(OutOfOrder)
    else Suffix(migrations[k..])
  }

  method FindPending(migrations: seq<Migration>, applied: History) returns (pending: Pending)
    ensures pending == PendingMigrations(migrations, applied)
  {
    hide FirstPending;
    if exists name :: name in applied.Keys && name !in Names(migrations) {
      return Rejected(Unknown);
    }
    var i := 0;
    while i < |migrations|
      invariant i <= |migrations|
      invariant forall m :: m in migrations[..i] ==> !Mismatched(m, applied)
    {
      if Mismatched(migrations[i], applied) {
        assert migrations[i] in migrations;
        return Rejected(Modified);
      }
      assert migrations[..i + 1] == migrations[..i] + [migrations[i]];
      i := i + 1;
    }
    assert migrations[..i] == migrations;
    var first := 0;
    while first < |migrations| && migrations[first].name in applied
      invariant first <= |migrations| && forall i :: 0 <= i < first ==> migrations[i].name in applied
    {
      first := first + 1;
    }
    FirstPendingIs(migrations, applied, first);
    i := first;
    while i < |migrations|
      invariant first <= i <= |migrations|
      invariant forall j :: first <= j < i ==> migrations[j].name !in applied
    {
      if migrations[i].name in applied {
        return Rejected(OutOfOrder);
      }
      i := i + 1;
    }
    return Suffix(migrations[first..]);
  }

  lemma {:induction false} RecordedHas(migrations: seq<Migration>, k: nat, i: nat)
    requires DistinctNames(migrations) && k <= |migrations| && i < |migrations|
    ensures migrations[i].name in Recorded(migrations, k) <==> i < k
    ensures i < k ==> Recorded(migrations, k)[migrations[i].name] == migrations[i].digest
  {
    if k > 0 {
      RecordedHas(migrations, k - 1, i);
    }
  }

  lemma {:induction false} RecordedNames(migrations: seq<Migration>, k: nat, name: string)
    requires k <= |migrations|
    ensures name in Recorded(migrations, k) <==> exists i :: 0 <= i < k && migrations[i].name == name
  {
    if k > 0 {
      RecordedNames(migrations, k - 1, name);
    }
  }

  /** `applied` has exactly the first `k` names, with the right checksums. */
  predicate Matches(migrations: seq<Migration>, applied: History, k: nat)
    requires k <= |migrations|
  {
    && (forall name :: name in applied ==> name in Names(migrations))
    && (forall i :: 0 <= i < |migrations| ==> (migrations[i].name in applied <==> i < k))
    && (forall i :: 0 <= i < k ==> applied[migrations[i].name] == migrations[i].digest)
  }

  lemma RecordedMatches(migrations: seq<Migration>, k: nat)
    requires DistinctNames(migrations) && k <= |migrations|
    ensures Matches(migrations, Recorded(migrations, k), k)
  {
    hide Recorded;
    var applied := Recorded(migrations, k);
    forall i | 0 <= i < |migrations|
      ensures migrations[i].name in applied <==> i < k
      ensures i < k ==> applied[migrations[i].name] == migrations[i].digest
    {
      RecordedHas(migrations, k, i);
    }
    forall name | name in applied ensures name in Names(migrations) {
      RecordedNames(migrations, k, name);
    }
  }

  lemma MatchesIsRecorded(migrations: seq<Migration>, applied: History, k: nat)
    requires DistinctNames(migrations) && k <= |migrations| && Matches(migrations, applied, k)
    ensures applied == Recorded(migrations, k)
  {
    hide Recorded;
    RecordedMatches(migrations, k);
    forall name ensures name in applied <==> name in Recorded(migrations, k) {
      if name in applied || name in Recorded(migrations, k) {
        var m :| m in migrations && m.name == name;
        var i :| 0 <= i < |migrations| && migrations[i] == m;
      }
    }
    forall name | name in applied ensures applied[name] == Recorded(migrations, k)[name] {
      var m :| m in migrations && m.name == name;
      var i :| 0 <= i < |migrations| && migrations[i] == m;
    }
  }

  /** A history that is a prefix is accepted, and exactly the rest is pending. */
  lemma PrefixIsPending(migrations: seq<Migration>, k: nat)
    requires DistinctNames(migrations) && k <= |migrations|
    ensures PendingMigrations(migrations, Recorded(migrations, k)) == Suffix(migrations[k..])
  {
    hide Recorded;
    var applied := Recorded(migrations, k);
    RecordedMatches(migrations, k);
    FirstPendingIs(migrations, applied, k);
    hide FirstPending;
    forall m | m in migrations ensures !Mismatched(m, applied) {
      var i :| 0 <= i < |migrations| && migrations[i] == m;
    }
  }

  /** Anything accepted is such a prefix. */
  lemma PendingIsPrefix(migrations: seq<Migration>, applied: History)
    requires DistinctNames(migrations) && PendingMigrations(migrations, applied).Suffix?
    ensures applied == Recorded(migrations, FirstPending(migrations, applied))
  {
    var k := FirstPending(migrations, applied);
    forall i | 0 <= i < k ensures applied[migrations[i].name] == migrations[i].digest {
      assert !Mismatched(migrations[i], applied);
    }
    assert Matches(migrations, applied, k);
    MatchesIsRecorded(migrations, applied, k);
  }

  /** The integrity check succeeds exactly on checksum-matching prefixes, and returns the rest. */
  lemma PendingIsExact(migrations: seq<Migration>, applied: History)
    requires DistinctNames(migrations)
    ensures PendingMigrations(migrations, applied).Suffix? <==>
              exists k :: 0 <= k <= |migrations| && applied == Recorded(migrations, k)
    ensures forall k :: 0 <= k <= |migrations| && applied == Recorded(migrations, k) ==>
              PendingMigrations(migrations, applied) == Suffix(migrations[k..])
  {
    if PendingMigrations(migrations, applied).Suffix? {
      PendingIsPrefix(migrations, applied);
    }
    forall k | 0 <= k <= |migrations| && applied == Recorded(migrations, k)
      ensures PendingMigrations(migrations, applied) == Suffix(migrations[k..])
    {
      PrefixIsPending(migrations, k);
    }
  }
}

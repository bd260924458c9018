# relq, verified

relq is a typed SQL builder with a compiler, transaction managers for SQLite and PostgreSQL, a
migrator and a code generator. This project models the parts of it whose correctness takes an
argument, and proves that argument.

**Transactions and savepoints** (`Registry`, `Engine`, `SqliteControl`, `PostgresControl`). The
registries are classes whose methods update entries, stack and reserved names in place, with the
re-entrant invalidation of the original. The database is an abstract savepoint stack, and the
work it holds: what is durable, what is pending, and how much of that was pending when each
savepoint was created. Its commands may fail, and every command carries the precondition that it
names a live savepoint and ends no transaction of the caller's. A commit makes exactly the
pending work durable, and a rollback leaves it as it was when its handle was opened. The main
results are two drivers, `SqliteControl.Run` and `PostgresControl.Run`, that issue any sequence
of calls. A reserved name is given back and a handle retired whatever fails. The invariant is in
two parts. `Engine.Embeds`, that the registered names lie on the stack in their order, survives
everything. `Engine.Tracks`, that the newest savepoint of each name is the registered one,
survives failed cleanups too, and on PostgreSQL is lost in one case that
`PostgresControl.PostgresDatabase.Begin` states exactly.

**Compiler** (`Ast`, `Document`, `Render`, `Compile`, `Constants`, `Scopes`, `Validation`,
`Acceptance`, `Scoping`, `WithClauses`, `Grouping`, `Nullability`, `Coverage`, `Rendering`,
`WindowOrder`, `Reader`, `Reading`). `Render` says what each node prints, as a document in which
an exception is a leaf and a pair compiled against its text order is marked. `Compile` is the
renderer as it runs, appending to one shared list, and is proved to produce exactly that text,
that list or that exception. `Reader` is a parser for rendered SQL, expressions and whole
statements, and `Reading` proves that it gets back the statement that was rendered, each column
with its own value. `Validation` is what the compiler accepts; the other modules give scoping,
grouping, outer joins and expressions their own semantics and prove the validators against it.

**Migrations** (`Migration`, `Migrators`, `SqliteMigrator`). A state machine over any number of
runs, and the migrator's methods, each proved to be one of its steps.

**Statement splitter** (`Lexer`, `Splitter`, `StatementIterator`, `Literals`, `Elements`,
`CarriageReturn`). The lexer of section 4.1 of the PostgreSQL documentation, for any
classification of characters, and the loops that run it. `Elements` says what a script is made
of without the lexer, and proves that such a script splits into exactly its statements.

**Batching and names** (`Batching`, `Names`, `Imports`). Two loops: greedy optimality on top of
an additive renderer, and a pigeonhole argument for termination and freshness. `Imports` derives
what a generated module can import, so that no generated name rebinds it.

Some results are limits of the code. Each is a concrete input on which a stronger claim fails,
and beside it stands the condition under which the claim holds: `WindowOrder.WindowSwapsValues`
with `Rendering.QuestionMarksAreExact`, `Scoping.ConflictPredicatesEscape` with
`Scoping.ThoroughlyScoped`, `Nullability.CoalesceEscapes` with `Nullability.CoalesceIsExact`,
`PostgresControl.TrackingCanBeLost` with `PostgresControl.PostgresDatabase.Begin`,
`WithClauses.SeedEscapes` with `WithClauses.AcceptedSeed`, `Migrators.UnrestoredUndercounts`
with the count in `Migrators.MigratorsAreSafe` and `CarriageReturn.RestartDiffers` with
`Splitter.RestartIsOnePass`. All conditions are exact but the last, which is sufficient. Two
limits need no witness of their own: `PostgresControl.PostgresDatabase.Commit` says that
committing an aborted transaction is reported as done although PostgreSQL keeps nothing, and
`SqliteControl.SQLiteDatabase.RollBack` that the outermost rollback drops what a caller had done
before relq joined the transaction. `WithClauses.CteNameEscapes` shows that a column may be
qualified by a CTE that no FROM or JOIN names, which is why `Scoping` lets columns name visible
CTEs. For seeds, the documentation of `cte_references`
(packages/relq-core/src/relq/_analysis/ctes.py:17) says that it finds names anywhere in a
SELECT; it leaves nested WITH clauses out.

`dafny verify dfyconfig.toml` checks the whole project.

## Model

| member | source | states |
|---|---|---|
| `Registry.TransactionState.InvalidateAfter` | packages/relq-sqlite/src/relq_sqlite/__init__.py:198-204 | Exactly the entries behind the given one leave the registry, in order, with their handles dead, although closing a transaction re-enters the invalidation of its savepoints; the rest stays registered and usable |
| `Registry.TransactionState.InvalidateAll` | packages/relq-sqlite/src/relq_sqlite/__init__.py:215-220 | Every registered handle is dead, and entries, stack and reserved names are empty |
| `Registry.TransactionState.InvalidateFrom` | packages/relq-sqlite/src/relq_sqlite/__init__.py:198-220 | The loop over a snapshot of the entries: whatever an entry's own invalidation already removed is skipped, and exactly the entries from `start` on are gone |
| `Registry.TransactionState.InvalidateEntry` | packages/relq-sqlite/src/relq_sqlite/__init__.py:526-558 | One entry's own invalidation, with the cascade it sets off |
| `Registry.TransactionState.RegisterTransaction` | packages/relq-sqlite/src/relq_sqlite/__init__.py:187-189 | The handle joins entries and stack together, and the registry invariant is kept |
| `Registry.TransactionState.RegisterSavepoint` | packages/relq-sqlite/src/relq_sqlite/__init__.py:191-192 | The savepoint becomes the newest entry |
| `Registry.TransactionState.RemoveEntry` | packages/relq-sqlite/src/relq_sqlite/__init__.py:194-196 | Removing an absent entry changes nothing |
| `Registry.TransactionState.ReserveSavepointName` | packages/relq-sqlite/src/relq_sqlite/__init__.py:206-210 | Refused exactly when an active savepoint carries the folded name |
| `Registry.TransactionState.ReleaseSavepointName` | packages/relq-sqlite/src/relq_sqlite/__init__.py:212-213 | The key is free again, other keys are untouched |
| `Registry.TransactionState.UsableMeansRegistered` | packages/relq-sqlite/src/relq_sqlite/__init__.py:518-524 | A handle is usable exactly while it is registered |
| `Registry.TransactionState.StackEmptyIffNoEntries` | packages/relq-sqlite/src/relq_sqlite/__init__.py:182-192 | The stack is the transactions among the entries, so it is empty exactly when they are |
| `Registry.Transaction.AddSavepoint` | packages/relq-sqlite/src/relq_sqlite/__init__.py:641-664 | A savepoint is recorded with its transaction and registered under a reserved name |
| `Registry.Transaction.Close` | packages/relq-sqlite/src/relq_sqlite/__init__.py:526-535 | Closing a transaction invalidates its savepoints and unregisters it, and is idempotent |
| `Registry.Transaction.ForgetSavepoint` | packages/relq-sqlite/src/relq_sqlite/__init__.py:545-551 | A live savepoint leaves its transaction, its name and the registry; a dead one is left alone |
| `Registry.Transaction.InvalidateSavepoints` | packages/relq-sqlite/src/relq_sqlite/__init__.py:537-543 | The loop that clears a transaction invalidates each of its savepoints once |
| `Registry.Savepoint.Invalidate` | packages/relq-sqlite/src/relq_sqlite/__init__.py:678-682 | Invalidation happens once and is never undone |
| `Registry.WellFormedWithout` | packages/relq-sqlite/src/relq_sqlite/__init__.py:194-204 | Dropping entries that nothing left depends on keeps the registry well formed |
| `Registry.ForgetIsWellFormed` | packages/relq-sqlite/src/relq_sqlite/__init__.py:545-551 | Freeing one savepoint frees exactly its own name |
| `Registry.KeysFoldCase` | packages/relq-sqlite/src/relq_sqlite/__init__.py:731-735 | Two names share a reservation exactly when they differ only in the case of ASCII letters, the 26 pairs written out |
| `Engine.Connection.Execute` | packages/relq-sqlite/src/relq_sqlite/__init__.py:261-268 | What a control command does to the server: its savepoint stack, and the work it holds, which COMMIT makes durable, ROLLBACK drops and ROLLBACK TO cuts back to what was pending when the savepoint was created. The precondition, proved at every call site, is that a release or a rollback names a live savepoint and that a transaction of the caller's is never ended |
| `Engine.KeepsEntry` | packages/relq-sqlite/src/relq_sqlite/__init__.py:556-558 | Any registered savepoint's name finds a savepoint that can be popped, and a faithful registry's finds its own; popping leaves the older names where they were |
| `Engine.ExactEntry` | packages/relq-sqlite/src/relq_sqlite/__init__.py:198-213 | With exact names, entry i is savepoint i of the stack |
| `Engine.EntryPops` | packages/relq-sqlite/src/relq_sqlite/__init__.py:689-722 | Releasing an entry's name pops the server down to the entries below it |
| `Engine.EmbedsPop` | packages/relq-postgres/src/relq_postgres/__init__.py:658-803 | Whatever else is on the stack, popping at a registered name leaves every older name poppable above the caller's own savepoints |
| `Engine.EmbedsPush` | packages/relq-postgres/src/relq_postgres/__init__.py:524-540 | No savepoint pushed on top, registered or not, can take that away |
| `Engine.PushedCases` | packages/relq-postgres/src/relq_postgres/__init__.py:879-963 | What recovery can leave once a savepoint was left behind: the older names are hidden exactly when it has one of their names and is still on top |
| `Engine.Connection.Perform` | packages/relq-sqlite/src/relq_sqlite/__init__.py:416-427 | A statement adds to the pending work, or is durable at once outside a transaction; PostgreSQL takes none in an aborted one |
| `Engine.PopRecalls` | packages/relq-sqlite/src/relq_sqlite/__init__.py:592-622 | Popping to a registered handle's savepoint finds the work that was pending when the handle was opened, and leaves what the older ones find |
| `Engine.RecallsPushed` | packages/relq-sqlite/src/relq_sqlite/__init__.py:641-664 | A savepoint pushed under a free name changes nothing that registered names find, and is found with what is pending now |
| `Engine.RecallsStays` | packages/relq-postgres/src/relq_postgres/__init__.py:879-963 | Names that are found where they were find the work they found |
| `SqliteControl.Run` | packages/relq-sqlite/src/relq_sqlite/__init__.py:416-722 | Every sequence of begin, savepoint, release, rollback, commit and execute calls, with failing commands and aborting observers: the registry names exactly the server's savepoint stack after it, unless a recovery rollback or a swallowed cleanup failed; what is durable is never lost, and nothing becomes durable without a commit or a statement |
| `SqliteControl.SQLiteDatabase.Begin` | packages/relq-sqlite/src/relq_sqlite/__init__.py:429-434 | A nested or top-level begin, by whether the connection has open transactions; the handle knows the work pending when it was opened, and no outcome loses any |
| `SqliteControl.SQLiteDatabase.BeginNested` | packages/relq-sqlite/src/relq_sqlite/__init__.py:436-456 | The generated savepoint is created, then registered; an observer that aborts has it undone |
| `SqliteControl.SQLiteDatabase.BeginTopLevel` | packages/relq-sqlite/src/relq_sqlite/__init__.py:458-471 | BEGIN, or nothing is registered and the transaction is rolled back |
| `SqliteControl.SQLiteDatabase.CleanUpSavepoint` | packages/relq-sqlite/src/relq_sqlite/__init__.py:473-478 | A failed cleanup is swallowed, and only then may the server hold an orphan |
| `SqliteControl.SQLiteDatabase.Commit` | packages/relq-sqlite/src/relq_sqlite/__init__.py:560-579 | Commit of the outermost handle makes exactly the pending work durable; release of a nested one keeps it pending. Either closes exactly that handle and what is newer, and a failed one makes nothing durable |
| `SqliteControl.SQLiteDatabase.RollBack` | packages/relq-sqlite/src/relq_sqlite/__init__.py:581-622 | Nothing becomes durable. A nested handle's rollback leaves the pending work as it was when the handle was opened; the outermost one's leaves none, not even what a caller had done before relq joined the transaction |
| `SqliteControl.SQLiteDatabase.RollBackNested` | packages/relq-sqlite/src/relq_sqlite/__init__.py:592-622 | Rollback to the savepoint and its release, with an observer between them: the work is cut back to the savepoint |
| `SqliteControl.SQLiteDatabase.Perform` | packages/relq-sqlite/src/relq_sqlite/__init__.py:416-427 | A statement through a handle, or past one that is closed; a failure is left to the caller |
| `SqliteControl.SQLiteDatabase.OpenSavepoint` | packages/relq-sqlite/src/relq_sqlite/__init__.py:641-664 | A savepoint is registered exactly when its command succeeded, and knows the work pending then |
| `SqliteControl.SQLiteDatabase.ReleaseSavepoint` | packages/relq-sqlite/src/relq_sqlite/__init__.py:689-705 | Only a live savepoint is released, everything newer goes with it, and the work stays pending |
| `SqliteControl.SQLiteDatabase.RollBackToSavepoint` | packages/relq-sqlite/src/relq_sqlite/__init__.py:707-722 | Rolling back keeps the savepoint, drops everything newer, and leaves the pending work as it was when the savepoint was opened |
| `SqliteControl.SQLiteDatabase.KeepThrough` | packages/relq-sqlite/src/relq_sqlite/__init__.py:198-204 | Dropping newer handles leaves the entry findable on the server |
| `SqliteControl.SQLiteDatabase.Recover` | packages/relq-sqlite/src/relq_sqlite/__init__.py:631-639 | Every handle is invalidated and one rollback issued; nothing becomes durable |
| `PostgresControl.Run` | packages/relq-postgres/src/relq_postgres/__init__.py:435-803 | Every sequence of calls, to its end: every command names a live savepoint above the caller's, a transaction the caller opened is never ended by relq, the pool is balanced whenever no handle is open, the registry names exactly the server's stack unless a recovery or cleanup failed, and nothing durable is lost or gained without a commit or a statement. Only a failed recovery can make the registry's names denote savepoints other than its own, and the rest holds even then |
| `PostgresControl.TrackingCanBeLost` | packages/relq-postgres/src/relq_postgres/__init__.py:524-540 | How that happens: a later rollback to the caller's savepoint finds the newer one of the same name |
| `PostgresControl.PostgresDatabase.Begin` | packages/relq-postgres/src/relq_postgres/__init__.py:462-540 | Outermost or nested, owned by relq or by the caller, on a pooled connection or not; the handle knows the work pending when it was opened. A call that registers nothing has undone nothing but its own savepoint, or has fallen back to a handle and the work there was at its savepoint. It leaves every registered name where it was, except in exactly one case: the new savepoint has the name of an older one that stays registered, and neither undoing it nor recovering the boundary rolled anything back |
| `PostgresControl.PostgresDatabase.BeginOutermost` | packages/relq-postgres/src/relq_postgres/__init__.py:494-523 | A transaction is started; if that fails, a borrowed connection is only given back, with no further command sent, and otherwise the transaction is rolled back |
| `PostgresControl.PostgresDatabase.BeginNested` | packages/relq-postgres/src/relq_postgres/__init__.py:487-540 | A nested handle never owes a connection |
| `PostgresControl.PostgresDatabase.RegisterNested` | packages/relq-postgres/src/relq_postgres/__init__.py:524-540 | The generated name is reserved only after the savepoint exists |
| `PostgresControl.PostgresDatabase.UndoSavepoint` | packages/relq-postgres/src/relq_postgres/__init__.py:879-900 | A savepoint that could not be registered is rolled back to and released, or else the boundary is recovered; exactly when that hides a registered name is stated in terms of the stack that is left |
| `PostgresControl.PostgresDatabase.RecoverPushed` | packages/relq-postgres/src/relq_postgres/__init__.py:889-900 | Recovery with the savepoint still on the stack: a hidden name means that recovery failed, that the user had taken the name, and that it is not the boundary's own |
| `PostgresControl.PostgresDatabase.RecoverStart` | packages/relq-postgres/src/relq_postgres/__init__.py:500-523 | Which boundary a failed start recovers to |
| `PostgresControl.PostgresDatabase.RecoverConnection` | packages/relq-postgres/src/relq_postgres/__init__.py:903-963 | A savepoint-backed boundary removes exactly itself and later entries, cuts the work back to its savepoint and leaves the stack below it; an outermost boundary empties the registry, drops the pending work and returns the connection. Nothing becomes durable |
| `PostgresControl.PostgresDatabase.RecoverTransaction` | packages/relq-postgres/src/relq_postgres/__init__.py:732-745 | Recovery within the transaction's own boundary |
| `PostgresControl.PostgresDatabase.RecoverAfterFailure` | packages/relq-postgres/src/relq_postgres/__init__.py:732-745 | The failed handle is the newest when its command fails |
| `PostgresControl.PostgresDatabase.Commit` | packages/relq-postgres/src/relq_postgres/__init__.py:659-671 | COMMIT or RELEASE by whose transaction it is, then the handle closes. The outermost COMMIT makes exactly the pending work durable, unless the transaction was aborted: PostgreSQL then keeps nothing, and the call is Done all the same |
| `PostgresControl.PostgresDatabase.RollBack` | packages/relq-postgres/src/relq_postgres/__init__.py:673-705 | Nothing becomes durable, and the pending work is what it was when the handle's savepoint was created, which is when the handle was opened while its name denotes its own savepoint; the outermost rollback leaves none |
| `PostgresControl.PostgresDatabase.RollBackNested` | packages/relq-postgres/src/relq_postgres/__init__.py:673-695 | Rollback to the savepoint and its release; a failure between them leaves a savepoint that can still be popped to the same work |
| `PostgresControl.PostgresDatabase.RollBackAndRelease` | packages/relq-postgres/src/relq_postgres/__init__.py:940-963 | The same during recovery |
| `PostgresControl.PostgresDatabase.Perform` | packages/relq-postgres/src/relq_postgres/__init__.py:435-451 | A statement through a handle, or past one that is closed; a failure is left to the caller |
| `PostgresControl.PostgresDatabase.Finish` | packages/relq-postgres/src/relq_postgres/__init__.py:659-705 | Closing or recovering settles with the pool exactly once |
| `PostgresControl.PostgresDatabase.OpenSavepoint` | packages/relq-postgres/src/relq_postgres/__init__.py:707-730 | A savepoint is registered exactly when its command succeeded, and knows the work pending then; an empty name, one whose UTF-8 encoding exceeds 63 bytes and an active one are refused |
| `PostgresControl.LengthIsInBytes` | packages/relq-postgres/src/relq_postgres/__init__.py:806-811 | The length that is checked is that of the encoding |
| `PostgresControl.EncodingIsReadable` | packages/relq-postgres/src/relq_postgres/__init__.py:806-811 | The encoding is UTF-8: the lead byte tells how many bytes follow, and together they carry the character |
| `PostgresControl.PostgresDatabase.ReleaseSavepoint` | packages/relq-postgres/src/relq_postgres/__init__.py:770-786 | Release, which keeps the work pending, or recovery of the owning transaction to the work there was at its savepoint |
| `PostgresControl.PostgresDatabase.RollBackToSavepoint` | packages/relq-postgres/src/relq_postgres/__init__.py:788-803 | Rollback to a savepoint keeps it, drops what is newer and cuts the work back to what was pending when it was opened |
| `PostgresControl.PostgresDatabase.AbandonSavepoint` | packages/relq-postgres/src/relq_postgres/__init__.py:770-803 | The failed savepoint is dropped before its transaction is recovered |
| `PostgresControl.PostgresDatabase.ReleaseConnection` | packages/relq-postgres/src/relq_postgres/__init__.py:652-657 | The pooled connection is returned if it is still owed, and then no longer owed |
| `Quoting.QuotingRoundTrip` | packages/relq-core/src/relq/_compiler/_render.py:612-613 | Reading back a quoted identifier gives the original and the exact end, for every name and every continuation that does not start with a quote |
| `Quoting.QuotingIsInjective` | packages/relq-core/src/relq/_compiler/_render.py:612-613 | Different names are quoted differently |
| `Quoting.ReadQuoted` | packages/relq-migrate/src/relq_migrate/postgres.py:353-365 | The reading loop |
| `Document.NumbersResolve` | packages/relq-core/src/relq/_compiler/_render.py:369-389 | Every `$n` resolves to the value of the node that printed it, in any surroundings |
| `Document.NumbersAreConsecutive` | packages/relq-core/src/relq/_compiler/_render.py:67-85 | The numbers used are exactly the next free ones, each once |
| `Document.QuestionMarksResolve` | packages/relq-core/src/relq/_compiler/_render.py:369-389 | With distinct values, `?` placeholders receive their own values exactly when nothing is bound on both sides of a pair compiled against its text order |
| `Document.OrderedQuestionMarksResolve` | packages/relq-core/src/relq/_compiler/_render.py:369-389 | In that case they do so whatever the values are |
| `Document.ReadsTextOrder` | packages/relq-core/src/relq/_compiler/_render.py:369-389 | A `?` statement is read in text order |
| `Document.TextOrderPermutes` | packages/relq-core/src/relq/_compiler/_render.py:369-389 | Compile order and text order are the same values |
| `Compile.RenderQuery` | packages/relq-core/src/relq/_compiler/_render.py:67-75 | Success exactly when no step raises and the ceiling holds; the SQL and parameters are the statement's. For `$n` reading them back gives every value its place; for `?` it does when nothing binds on both sides of a pair compiled against its text order, and with distinct values only then |
| `Compile.CompileStatement` | packages/relq-core/src/relq/_compiler/_render.py:88-93 | SQL and parameter list of any statement: the document's text and values, or the first exception in compile order |
| `Compile.CompileSelect` | packages/relq-core/src/relq/_compiler/_render.py:96-161 | The same for a SELECT, CTEs first |
| `Compile.CompileJoins` | packages/relq-core/src/relq/_compiler/_render.py:127-132 | The loop over joins |
| `Compile.CompileCompounds` | packages/relq-core/src/relq/_compiler/_render.py:157-160 | The loop over compound arms |
| `Compile.CompileWith` | packages/relq-core/src/relq/_compiler/_render.py:110-123 | The WITH prefix and its keyword |
| `Compile.CompileCteBody` | packages/relq-core/src/relq/_compiler/_render.py:164-174 | Data-modifying bodies only where the dialect has them |
| `Compile.CompileInsert` | packages/relq-core/src/relq/_compiler/_render.py:189-217 | The source is compiled before the table it follows in the text |
| `Compile.CompileConflict` | packages/relq-core/src/relq/_compiler/_render.py:220-245 | Arbiter predicate as constants, assignments and action predicate as parameters |
| `Compile.CompileAction` | packages/relq-core/src/relq/_compiler/_render.py:230-245 | The action's errors and assertions |
| `Compile.CompileReturning` | packages/relq-core/src/relq/_compiler/_render.py:336-341 | RETURNING, or the error of a dialect without it |
| `Compile.CompileTable` | packages/relq-core/src/relq/_compiler/_render.py:344-366 | Schema-qualified names only where supported |
| `Compile.CompileNode` | packages/relq-core/src/relq/_compiler/_render.py:369-604 | SQL and parameter list of any expression |
| `Compile.CompileBound` | packages/relq-core/src/relq/_compiler/_render.py:378-380 | One value appended, and its own number printed |
| `Compile.CompileWindow` | packages/relq-core/src/relq/_compiler/_render.py:538-560 | The clauses are compiled before the expression they follow |
| `Compile.CompileArithmetic` | packages/relq-core/src/relq/_compiler/_render.py:426-433 | The interval is compiled before the timestamp it follows |
| `Compile.CompileOrder` | packages/relq-core/src/relq/_compiler/_render.py:637-648 | The NULL placement is checked after the expression is compiled |
| `Compile.CompileFrame` | packages/relq-core/src/relq/_compiler/_render.py:651-679 | The frame's two errors in the order they are checked, and the text of its boundaries and its exclusion |
| `Compile.CompileIndexPredicate` | packages/relq-core/src/relq/_compiler/_render.py:254-294 | The arbiter predicate node by node, with an error for whatever is outside the closed set |
| `Compile.CompileIndexMembership` | packages/relq-core/src/relq/_compiler/_render.py:282-285 | The values of IN are compiled before the operand they follow |
| `Compile.CompileConstant` | packages/relq-core/src/relq/_compiler/_render.py:297-315 | A constant, or the error for a value that has no constant form |
| `Compile.CompileTarget` | packages/relq-core/src/relq/_compiler/_render.py:220-229 | The conflict target, or the assertion that an arbiter predicate has columns |
| `Compile.CompileLimit` | packages/relq-core/src/relq/_compiler/_render.py:145-150 | LIMIT and OFFSET, with the limit that SQLite wants in front of a bare offset |
| `Compile.CompileLocks` | packages/relq-core/src/relq/_compiler/_render.py:151-156 | The loop over locks |
| `Render.PredicateBindsNothing` | packages/relq-core/src/relq/_compiler/_render.py:254-315 | An arbiter predicate binds no parameter |
| `Rendering.AcceptedNeverCrashes` | packages/relq-core/src/relq/_compiler/validation.py:72-232 | Progress: rendering a statement the validator accepts never reaches an assertion or an index error, at any depth |
| `Rendering.AcceptedHasNoTemporalNode` | packages/relq-core/src/relq/_compiler/validation.py:322-364 | A dialect without temporal arithmetic accepts no statement in which anything but the portable nodes would be rendered, at any depth |
| `Rendering.QuestionMarksAreExact` | packages/relq-core/src/relq/_compiler/_render.py:538-560 | With distinct values, an `?` statement reaches the database with every value in its place exactly when no window and no temporal arithmetic in it, at any depth, binds on both sides |
| `Rendering.QueryTree` | packages/relq-core/src/relq/_compiler/_render.py:88-245 | Such properties of a rendered statement are equivalent to properties of its syntax tree |
| `Rendering.SelectTree` | packages/relq-core/src/relq/_compiler/_render.py:96-161 | The same for a SELECT |
| `Rendering.NodeTree` | packages/relq-core/src/relq/_compiler/_render.py:369-604 | The same for an expression: its walk and the subqueries it opens |
| `Rendering.SafeFaults` | packages/relq-core/src/relq/_compiler/_render.py:102-103 | A document without assertions can only raise a reported error |
| `WindowOrder.WindowSwapsValues` | packages/relq-core/src/relq/_compiler/_render.py:538-560 | A concrete query SQLite validation accepts although the database reads its two values in each other's places |
| `Coverage.SelectIsCovered` | packages/relq-core/src/relq/_compiler/validation.py:105-149 | Validation of a SELECT covers everything rendering visits below it |
| `Coverage.DmlIsCovered` | packages/relq-core/src/relq/_compiler/validation.py:209-232 | The same for data-modifying statements |
| `Coverage.CteIsCovered` | packages/relq-core/src/relq/_compiler/validation.py:152-169 | The same for CTE bodies |
| `Constants.ConstantsRefineParameters` | packages/relq-core/src/relq/_compiler/_render.py:254-315 | For every accepted arbiter predicate, inlining the constant for each `$n` of the parameterized form gives exactly the constant form |
| `Constants.ConstantForm` | packages/relq-core/src/relq/_compiler/_render.py:268-288 | The two renderings mean the same with values spelled out |
| `Constants.AcceptableIsAllowed` | packages/relq-core/src/relq/_compiler/_render.py:248-295 | The arbiter predicate renders exactly when it is in the closed set of nodes, operators and constants |
| `Constants.EscapedInTwoPasses` | packages/relq-core/src/relq/_compiler/_render.py:308-310 | Two replacement passes double each special character once |
| `Constants.EscapeRoundTrip` | packages/relq-core/src/relq/_compiler/_render.py:305-310 | An E'' constant reads back as the original text, whatever follows it except a quote |
| `Literals.ConstantIsOneToken` | packages/relq-migrate/src/relq_migrate/postgres.py:401-407 | The splitter reads such a constant as one token in both string modes |
| `Literals.IdentifierIsOneToken` | packages/relq-migrate/src/relq_migrate/postgres.py:543-551 | The splitter reads a quoted identifier as one token |
| `Literals.RunsOver` | packages/relq-migrate/src/relq_migrate/postgres.py:525-551 | Such a token does not move the next cut |
| `Elements.ScriptSplits` | packages/relq-migrate/src/relq_migrate/postgres.py:434-564 | A script written as elements (words, strings, dollar quotes, comments, atomic blocks) splits into exactly the statements between its semicolons outside atomic blocks, each trimmed, with the number of characters consumed, and without those that hold no SQL |
| `Elements.SlicesAreGroups` | packages/relq-migrate/src/relq_migrate/postgres.py:451-560 | The cuts are exactly at those semicolons |
| `Elements.ElementRuns` | packages/relq-migrate/src/relq_migrate/postgres.py:451-560 | The lexer runs over every other element without a cut, and its stack and its skipped keyword say how deep the element stands and whether an END came last |
| `Elements.DollarRuns` | packages/relq-migrate/src/relq_migrate/postgres.py:387-398 | A dollar-quoted literal is one token, for every tag, also the empty one, and every body its delimiter does not occur in |
| `Elements.TagOpens` | packages/relq-migrate/src/relq_migrate/postgres.py:387-398 | A tag is empty, or a letter or underscore followed by letters, digits and underscores, behind anything but an identifier character |
| `Elements.QuotedRuns` | packages/relq-migrate/src/relq_migrate/postgres.py:401-407 | A string is one token: plain with doubled quotes, or with backslash escapes behind a bare E and in the old string mode |
| `Elements.LineRuns` | packages/relq-migrate/src/relq_migrate/postgres.py:508-512 | A line comment ends with its line |
| `Elements.BlockRuns` | packages/relq-migrate/src/relq_migrate/postgres.py:513-527 | A nested block comment is one token, closed by the closing that answers its opening |
| `Elements.BlockEnds` | packages/relq-migrate/src/relq_migrate/postgres.py:368-380 | The look-ahead skips it to the same place |
| `Elements.LooksAhead` | packages/relq-migrate/src/relq_migrate/postgres.py:419-431 | Looking ahead finds the next word, past spaces and comments only |
| `Elements.KeywordStands` | packages/relq-migrate/src/relq_migrate/postgres.py:479-498 | BEGIN ATOMIC opens a block, BEGIN and CASE deepen it, END closes one, and the word of END CASE, END IF, END LOOP or END WHILE counts for nothing more |
| `Elements.AtomicBlockHolds` | packages/relq-migrate/src/relq_migrate/postgres.py:479-510 | A BEGIN ATOMIC block with a properly nested body stays in one statement with all its semicolons |
| `Elements.EmptyIsIdle` | packages/relq-migrate/src/relq_migrate/_model.py:81-111 | Text holds no statement exactly when it is only spaces, comments and semicolons |
| `Elements.StripTrims` | packages/relq-migrate/src/relq_migrate/postgres.py:507-508 | Only spaces are trimmed, and all of them |
| `Validation.ValidateSources` | packages/relq-core/src/relq/_compiler/validation.py:235-265 | The pass over FROM and JOIN accepts exactly when CTEs are bound, names are distinct, each join predicate names sources joined so far, every projection, WHERE, GROUP BY, HAVING and ORDER BY names the query's own or enclosing ones, and nullability is acknowledged |
| `Validation.SeeJoins` | packages/relq-core/src/relq/_compiler/validation.py:241-251 | Each join predicate sees the sources joined so far |
| `Validation.SeeRows` | packages/relq-core/src/relq/_compiler/validation.py:252-264 | Every clause but the join predicates sees all of them, clause by clause |
| `Validation.RowsByClause` | packages/relq-core/src/relq/_compiler/validation.py:252-264 | The list the pass goes through is complete: it holds what each clause holds |
| `Validation.SameColumnsAgree` | packages/relq-core/src/relq/_compiler/validation.py:219-224 | The rows of an INSERT are accepted exactly when there is one and all have the first one's columns in its order |
| `Scopes.ReadWith` | packages/relq-core/src/relq/_analysis/scopes.py:58-66 | The names of a WITH clause are bound one entry at a time; only a recursive body sees its own |
| `Scopes.ChildScopes` | packages/relq-core/src/relq/_analysis/scopes.py:55-73 | Every nested query is strictly smaller than the query that holds it |
| `Scoping.AcceptedIsScoped` | packages/relq-core/src/relq/_compiler/validation.py:72-187 | In every accepted statement, at any depth, each column of a projection, WHERE, GROUP BY, HAVING or ORDER BY names a FROM/JOIN reference of its own or an enclosing query, a visible CTE or the DML target, each column of a join predicate one joined so far, and each CTE source outside conflict predicates is bound by an enclosing WITH. Scoping is defined on the syntax tree alone |
| `Scoping.SelectIsScoped` | packages/relq-core/src/relq/_compiler/validation.py:105-149 | The inductive form, for each reading of CTE sources |
| `Scoping.DmlIsScoped` | packages/relq-core/src/relq/_compiler/validation.py:209-232 | The same for data-modifying statements |
| `Scoping.SecondPassAloneIsUnsound` | packages/relq-core/src/relq/_compiler/validation.py:172-187 | Without the first pass an enclosing table is taken for a CTE |
| `Scoping.ConflictPredicatesEscape` | packages/relq-core/src/relq/_analysis/scopes.py:84-88 | A statement the compiler accepts although its conflict predicate reads an unbound CTE |
| `Scoping.ConflictSubqueryIsExact` | packages/relq-core/src/relq/_analysis/scopes.py:84-88 | A subquery of an accepted INSERT's conflict predicate, at the top level or in a CTE body, is scoped exactly when the first pass would have accepted it |
| `Scoping.ThoroughlyScoped` | packages/relq-core/src/relq/_compiler/validation.py:72-187 | An accepted statement is scoped at every depth, conflict predicates included, exactly when a first pass that visits them would accept it |
| `Scoping.ScopedIsResolved` | packages/relq-core/src/relq/_compiler/validation.py:172-187 | The first pass is necessary: what is scoped passes it |
| `Scoping.FirstPassIsStrict` | packages/relq-core/src/relq/_analysis/scopes.py:40-73 | The enumeration of nested scopes checks exactly what a recursive descent checks |
| `Scoping.DmlParts` | packages/relq-core/src/relq/_compiler/validation.py:667-718 | The lists the compiler goes through in an INSERT, UPDATE or DELETE are complete: scoped exactly when each clause is |
| `WithClauses.AcceptedSeed` | packages/relq-core/src/relq/_compiler/validation.py:644-657 | A recursive CTE of an accepted statement has UNION ALL arms that mention it, and a seed that does without it exactly when no WITH clause nested in the seed reads it |
| `WithClauses.SeedIsExact` | packages/relq-core/src/relq/_compiler/validation.py:644-657 | The same for any recursive CTE of the accepted shape |
| `WithClauses.UnreadIsNotNeeded` | packages/relq-core/src/relq/_analysis/ctes.py:16-56 | A query is resolved without a name exactly when it does not read it, at any depth and with shadowing |
| `WithClauses.MissedInWith` | packages/relq-core/src/relq/_analysis/ctes.py:16-56 | What the compiler's search for a CTE misses is read in a nested WITH clause |
| `WithClauses.SeedEscapes` | packages/relq-core/src/relq/_compiler/validation.py:644-657 | An accepted recursive CTE whose seed reads itself |
| `WithClauses.CteNameEscapes` | packages/relq-core/src/relq/_compiler/validation.py:238-264 | An accepted query with a column qualified by a CTE that no FROM or JOIN names |
| `Acceptance.AcceptedIsBounded` | packages/relq-core/src/relq/_compiler/validation.py:78-103 | No accepted statement, at any depth, updates or deletes without saying which rows, and each data-modifying CTE returns rows and is not recursive |
| `Acceptance.DmlStaysOutermost` | packages/relq-core/src/relq/_compiler/validation.py:190-206 | Data-modifying bodies stand in the outermost WITH clause only |
| `Acceptance.LockedRowsArePresent` | packages/relq-core/src/relq/_compiler/validation.py:309-319 | A locked table stands in FROM or a join and has a row of its own in every row any database returns |
| `Acceptance.LockedRowsAreStored` | packages/relq-core/src/relq/_compiler/validation.py:284-336 | A locking query needs a dialect that locks rows, and groups, combines, aggregates and windows nothing |
| `Acceptance.ExcludedIsProposed` | packages/relq-core/src/relq/_compiler/validation.py:686-717 | `excluded` names the target, in DO UPDATE only, and never in an arbiter predicate; DEFAULT VALUES has no conflict clause |
| `Acceptance.InsertFits` | packages/relq-core/src/relq/_compiler/validation.py:209-232 | An accepted INSERT has as many values as columns in every row, or a SELECT of that width, and conflict predicates only where the dialect has them |
| `Acceptance.DmlIsRowwise` | packages/relq-core/src/relq/_compiler/validation.py:411-459 | No clause of a data-modifying statement aggregates or windows, outside nested SELECTs |
| `Acceptance.TemporalWordsArePlain` | packages/relq-core/src/relq/_compiler/validation.py:337-408 | Whatever a temporal node prints without quoting is a plain word of lower-case letters, its interval steps forward, and only a dialect with temporal arithmetic accepts one |
| `Acceptance.ArmsFit` | packages/relq-core/src/relq/_compiler/validation.py:616-641 | Compound arms have the columns of the first SELECT and nothing that belongs to the whole |
| `Ast.Children` | packages/relq-core/src/relq/_analysis/walk.py:58-204 | Operands are strictly smaller than their node |
| `Ast.Walk` | packages/relq-core/src/relq/_analysis/walk.py:207-211 | A walk reaches the node itself and only nodes below it |
| `Ast.WalkReaches` | packages/relq-core/src/relq/_analysis/walk.py:207-211 | Exactly the node, and what its operands reach |
| `Ast.ReferenceIsAliasOrName` | packages/relq-core/src/relq/_ast.py:30-53 | A source goes by its alias if it has one that is not empty, and else by its name |
| `Grouping.GroupingIsSound` | packages/relq-core/src/relq/_compiler/grouping.py:34-67 | In an accepted grouped query, rows that agree on every GROUP BY expression and on outer columns give every plain projection, the HAVING predicate and every sort key the same value |
| `Grouping.GroupingIsExact` | packages/relq-core/src/relq/_compiler/grouping.py:84-99 | The check accepts an expression exactly when the keys determine it under every meaning of operators and aggregates |
| `Grouping.AcceptedGroupingIsExact` | packages/relq-core/src/relq/_compiler/grouping.py:34-67 | A query whose per-group expressions are plain is accepted exactly when its keys determine all of them, and HAVING has keys or an aggregate to go with |
| `Grouping.UngroupedIsRowwise` | packages/relq-core/src/relq/_compiler/grouping.py:46-58 | A query taken for ungrouped never looks at another row |
| `Grouping.GroupsShow` | packages/relq-core/src/relq/_compiler/grouping.py:46-58 | A query taken for grouped has keys, or an aggregate one can point at |
| `Grouping.ClausesArePlaced` | packages/relq-core/src/relq/_compiler/grouping.py:14-32 | WHERE and GROUP BY hold neither aggregates nor windows, HAVING no windows, at any depth |
| `Grouping.KeysIgnoreGroup` | packages/relq-core/src/relq/_compiler/grouping.py:18-24 | A grouping key is computed from its row alone |
| `Grouping.ArgumentsIgnoreGroup` | packages/relq-core/src/relq/_compiler/grouping.py:126-143 | The arguments of an aggregate anywhere in an accepted projection, HAVING predicate or sort key are computed row by row |
| `Grouping.UngroupedDetermines` | packages/relq-core/src/relq/_compiler/grouping.py:84-99 | The inductive form |
| `Nullability.NullExtendedSources` | packages/relq-core/src/relq/_analysis/nullability.py:6-26 | One pass over the joins computes exactly the sources extended by their own join or by a later one, or reports an unsupported kind |
| `Nullability.ExtensionIsExact` | packages/relq-core/src/relq/_analysis/nullability.py:6-26 | A source is in the set exactly when some database NULL-extends it in some result row |
| `Nullability.NamesAreExact` | packages/relq-core/src/relq/_analysis/nullability.py:6-26 | The same for names, when they are distinct |
| `Nullability.NeverExtended` | packages/relq-core/src/relq/_analysis/nullability.py:6-26 | A source outside the set is present in every result row of every database |
| `Nullability.CanBeExtended` | packages/relq-core/src/relq/_analysis/nullability.py:6-26 | A witness for every source inside it |
| `Nullability.ProjectionIsNeverNull` | packages/relq-core/src/relq/_compiler/validation.py:268-281 | An accepted projection whose builder type excludes None is never NULL on any row the join chain can produce |
| `Nullability.NonOptionalHasValue` | packages/relq-core/src/relq/_compiler/validation.py:486-613 | The inductive form, temporal expressions included |
| `Nullability.RejectedColumnCanBeNull` | packages/relq-core/src/relq/_compiler/validation.py:475-483 | Rejecting a bare column is justified by a database that makes it NULL |
| `Nullability.CoalesceEscapes` | packages/relq-core/src/relq/_compiler/validation.py:590-612 | An accepted coalesce of declared non-null columns that is NULL |
| `Nullability.CoalesceIsExact` | packages/relq-core/src/relq/_compiler/validation.py:590-612 | A coalesce of values the builder types as present is NULL on some row exactly when the join kinds let all its arguments be absent together, which is decided from the kinds alone |
| `Nullability.NullIsExact` | packages/relq-core/src/relq/_compiler/validation.py:475-613 | The same for every expression of columns, constants, arithmetic, temporal nodes, IS checks, casts, aliases and coalesce, declared or not, nested in any way and under every meaning of its operators |
| `Nullability.SourcesDecide` | packages/relq-core/src/relq/_compiler/validation.py:486-613 | For a value the builder types as present, CASE and temporal nodes included, the sources the validator collects are exactly those whose absence can make it NULL |
| `Nullability.NullNeedsCut` | packages/relq-core/src/relq/_compiler/validation.py:475-613 | With CASE and everything else, the condition is still necessary |
| `Nullability.CutIsReached` | packages/relq-core/src/relq/_analysis/nullability.py:6-26 | The tables and predicates on which everything that can be absent together is |
| `Nullability.RowHasCut` | packages/relq-core/src/relq/_analysis/nullability.py:6-26 | The sources absent from one result row are those that the join kinds let be absent together |
| `Nullability.FullJoinCoalesces` | packages/relq-core/src/relq/_analysis/nullability.py:6-26 | A coalesce of a column from either side of a FULL JOIN always has a value, although both sides are NULL-extended |
| `Migration.FindPending` | packages/relq-migrate/src/relq_migrate/_model.py:114-152 | The checks in order, and the search for the first pending migration |
| `Migration.PendingIsExact` | packages/relq-migrate/src/relq_migrate/_model.py:114-152 | The integrity check succeeds exactly on checksum-matching prefixes, and returns the rest |
| `Migration.PrefixIsPending` | packages/relq-migrate/src/relq_migrate/_model.py:139-152 | Such a prefix leaves exactly the suffix |
| `Migration.PendingIsPrefix` | packages/relq-migrate/src/relq_migrate/_model.py:118-151 | Anything accepted is one |
| `Migrators.MigratorsAreSafe` | packages/relq-migrate/src/relq_migrate/sqlite.py:73-143 | Any number of migrators, any interleaving, any failures: the history stays a checksum-matching prefix, the statements of each migration ran once and in order, successes add up to the growth, and no run meets an integrity error or 'not the next pending migration'; a run without an error leaves everything applied |
| `Migrators.SuccessesAreGrowth` | packages/relq-migrate/src/relq_migrate/sqlite.py:88-104 | SUCCESS reports across all runs equal the growth of the history, when foreign-key enforcement is always restored |
| `Migrators.UnrestoredUndercounts` | packages/relq-migrate/src/relq_migrate/sqlite.py:134-143 | A commit whose enforcement is not restored is reported as an error |
| `Migrators.RejectedStays` | packages/relq-migrate/src/relq_migrate/sqlite.py:77-86 | A history the check rejects is never changed |
| `Migrators.AttemptOnPrefix` | packages/relq-migrate/src/relq_migrate/sqlite.py:106-137 | On a prefix, one transaction skips, or applies exactly the next migration |
| `Migrators.EventKeeps` | packages/relq-migrate/src/relq_migrate/sqlite.py:73-143 | Every step of every run keeps the protocol's invariant |
| `SqliteMigrator.Connection.Apply` | packages/relq-migrate/src/relq_migrate/sqlite.py:106-143 | The method is exactly one atomic step of the protocol. A migration that asks for it has every statement run with enforcement off, and succeeds only after a clean foreign-key check; no statement that controls the transaction is run; enforcement is as before unless restoring or reading it back is what failed |
| `SqliteMigrator.Connection.Migrate` | packages/relq-migrate/src/relq_migrate/sqlite.py:73-104 | One run while others commit in between reports no error only when everything is applied, and never an integrity error |
| `SqliteMigrator.Connection.ApplyInTransaction` | packages/relq-migrate/src/relq_migrate/sqlite.py:109-140 | Commit or roll back: nothing of a failed migration remains |
| `SqliteMigrator.Connection.ExecuteAll` | packages/relq-migrate/src/relq_migrate/sqlite.py:120-136 | The statements in order, none of them transaction control, then the history row, then the check |
| `SqliteMigrator.Connection.DisableForeignKeys` | packages/relq-migrate/src/relq_migrate/sqlite.py:158-165 | Off, and whether it was on; or an error that may leave it off |
| `SqliteMigrator.Connection.Snapshot` | packages/relq-migrate/src/relq_migrate/sqlite.py:77-86 | The first transaction changes no migration |
| `StatementIterator.SplitStatements` | packages/relq-migrate/src/relq_migrate/postgres.py:434-564 | The loop, with the buffer holding exactly the current slice, finds the statements the lexer defines |
| `StatementIterator.ReadStep` | packages/relq-migrate/src/relq_migrate/postgres.py:451-560 | One round in each of the six states |
| `StatementIterator.ReadNormal` | packages/relq-migrate/src/relq_migrate/postgres.py:451-505 | Outside quotes and comments |
| `StatementIterator.ReadKeyword` | packages/relq-migrate/src/relq_migrate/postgres.py:479-498 | What a keyword does to the open atomic blocks |
| `StatementIterator.FindKeyword` | packages/relq-migrate/src/relq_migrate/postgres.py:419-431 | The look-ahead past whitespace and comments |
| `StatementIterator.ReadDelimiter` | packages/relq-migrate/src/relq_migrate/postgres.py:387-398 | The opening delimiter of a dollar quote |
| `StatementIterator.ReadWord` | packages/relq-migrate/src/relq_migrate/postgres.py:410-416 | The word at an index |
| `StatementIterator.SkipBlock` | packages/relq-migrate/src/relq_migrate/postgres.py:368-380 | The end of a nested comment, and whether it was closed |
| `StatementIterator.CheckEmpty` | packages/relq-migrate/src/relq_migrate/_model.py:81-111 | Whether a statement holds only whitespace, semicolons and closed comments |
| `Splitter.SlicesPartition` | packages/relq-migrate/src/relq_migrate/postgres.py:434-564 | The cuts split the text into consecutive slices that concatenate to it |
| `Splitter.RestartIsOnePass` | packages/relq-migrate/src/relq_migrate/postgres.py:124-140 | Taking the first statement, dropping what it consumed and starting again finds the statements of one pass, when no cut of that pass leaves a CASE to be ignored |
| `Splitter.PairedRestartsAreOnePass` | packages/relq-migrate/src/relq_migrate/postgres.py:124-140 | In particular for every text in which a carriage return only stands before a newline |
| `Splitter.PairedCarriesNothing` | packages/relq-migrate/src/relq_migrate/postgres.py:419-431 | There the look-ahead and the lexer agree where a line comment ends |
| `Splitter.SlicesAlike` | packages/relq-migrate/src/relq_migrate/postgres.py:466-478 | An ignored keyword other than CASE makes no difference to any later cut |
| `StatementIterator.SplitAgain` | packages/relq-migrate/src/relq_migrate/postgres.py:124-140 | The migrator's loop finds what that restarting finds |
| `Splitter.StatementsBounds` | packages/relq-migrate/src/relq_migrate/postgres.py:507-508 | Every statement consumes something, so the loop ends |
| `Splitter.CutRestarts` | packages/relq-migrate/src/relq_migrate/postgres.py:479-510 | Where no carriage return stands alone, every cut leaves the lexer as if it had just started |
| `Splitter.SameCut` | packages/relq-migrate/src/relq_migrate/postgres.py:387-407 | What comes before a statement does not change where it is cut |
| `CarriageReturn.RestartDiffers` | packages/relq-migrate/src/relq_migrate/postgres.py:419-431 | A script with a lone carriage return on which the two ways find different statements |
| `CarriageReturn.OnlyCaseMatters` | packages/relq-migrate/src/relq_migrate/postgres.py:466-478 | Over everything that can follow a cut, restarting there is right exactly when the cut leaves no CASE to be ignored |
| `Batching.BatchRows` | packages/relq-core/src/relq/_batching.py:37-76 | Succeeds exactly when every row can be batched; then the batches concatenate to the rows, each statement is within the ceiling, and no consecutive batches that do so are fewer. An error stops at the first row that cannot be, and the batches already yielded hold exactly the rows before the one being filled |
| `Batching.StatementIsAdditive` | packages/relq-core/src/relq/_compiler/_render.py:78-85 | A statement binds its fixed part and the sum of its rows |
| `Batching.AheadGrows` | packages/relq-core/src/relq/_batching.py:60-62 | Adding a row that fits keeps the greedy lead over every other split |
| `Batching.AheadCloses` | packages/relq-core/src/relq/_batching.py:66-70 | So does closing a batch because the next row does not fit |
| `Names.Allocate` | packages/relq-codegen/src/relq_codegen/render.py:170-178 | Terminates with the first numbered form of the stem whose whole family is free |
| `Names.CandidatesDiffer` | packages/relq-codegen/src/relq_codegen/render.py:172-176 | Different attempts try different names |
| `Names.Plan` | packages/relq-codegen/src/relq_codegen/render.py:217-260 | None exactly when a configured wrapper name is reserved or taken by an enum or an earlier wrapper; otherwise every class, instance and column is the first free numbered form of its own stem, in order, and all exported names are pairwise distinct and avoid every reserved name |
| `Names.PlanTables` | packages/relq-codegen/src/relq_codegen/render.py:236-260 | Table by table: the class from the class stem, the instance from the instance stem, each column from its own, each the first form that is free then |
| `Names.RenderModule` | packages/relq-codegen/src/relq_codegen/render.py:263-401 | Neither of the generator's own checks can fail, and the module carries exactly the planned names: no expression names anything unreserved and no export rebinds an import |
| `Imports.ImportsAreReserved` | packages/relq-codegen/src/relq_codegen/render.py:97-114 | Every name bound by an import the module carries is reserved, whatever the schema and the configured mappings |
| `Imports.NamesAreKnown` | packages/relq-codegen/src/relq_codegen/render.py:200-214 | Every name an annotation or decoder resolves is reserved, or the plan's own |
| `Imports.TypeIsSound` | packages/relq-codegen/src/relq_codegen/mapping.py:89-135 | Whatever a type resolves to imports and names only what is declared |
| `Names.ExportsAreFamilies` | packages/relq-codegen/src/relq_codegen/render.py:119-165 | A table contributes nine different names, which are its two families |
| `Names.AllocateColumns` | packages/relq-codegen/src/relq_codegen/render.py:247-258 | Column attributes are distinct and avoid the protected set |
| `Names.AllocateEnums` | packages/relq-codegen/src/relq_codegen/render.py:223-227 | Enum names are distinct and none is reserved |
| `Names.AllocateMember` | packages/relq-codegen/src/relq_codegen/render.py:584-595 | Terminates with the first free numbered member name |
| `Names.AllocateMembers` | packages/relq-codegen/src/relq_codegen/render.py:289-293 | Each member of an enum is the first free numbered form of its own label, so the members are distinct whatever their labels normalize to |
| `Reading.StatementPrintThenRead` | packages/relq-core/src/relq/_compiler/_render.py:88-366 | A reader that sees only the text gets back what a whole rendered statement says, with nothing left over: CTEs, sources, joins, conditions, order, limits, locks, compound arms, subqueries at any depth, rows, conflict clauses and RETURNING |
| `Reading.StatementModifies` | packages/relq-core/src/relq/_compiler/_render.py:177-366 | What is read back from an INSERT, UPDATE or DELETE is what it was built to do: each column goes with its own value, cell by cell, row by row and assignment by assignment |
| `Reading.InsertPairs` | packages/relq-core/src/relq/_compiler/_render.py:189-217 | The j-th column and the j-th value of an INSERT that are read back are the j-th cell's, in every row of rows that agree on their columns |
| `Reading.ConflictAssigns` | packages/relq-core/src/relq/_compiler/_render.py:230-245 | The assignments of DO UPDATE, likewise |
| `Reading.SameTextSameStatement` | packages/relq-core/src/relq/_compiler/_render.py:88-366 | Unique readability: two statements with the same text and values say the same, up to what prints nothing |
| `Reading.PrintThenRead` | packages/relq-core/src/relq/_compiler/_render.py:369-604 | The same for any expression; what the reader is given is the text the database sees with the values it binds |
| `Reading.SameTextSaysTheSame` | packages/relq-core/src/relq/_compiler/_render.py:369-604 | Two expressions with the same text and values say the same, up to what prints nothing |
| `Reading.NodeReads` | packages/relq-core/src/relq/_compiler/_render.py:369-604 | An expression in front of any continuation that cannot be taken into it: reading stops exactly at its end |
| `Reading.SelectReads` | packages/relq-core/src/relq/_compiler/_render.py:96-161 | The same for a SELECT with its compound arms |
| `Reading.ArmReads` | packages/relq-core/src/relq/_compiler/_render.py:96-156 | A SELECT is read up to its compound, so arms are told apart from arms of arms |
| `Reading.JoinsRead` | packages/relq-core/src/relq/_compiler/_render.py:127-132 | Joins are read back with their sources and their predicates, except a cross join's, which is not printed |
| `Reading.WindowReads` | packages/relq-core/src/relq/_compiler/_render.py:538-560 | OVER is read back with its partition, its order, its frame and its exclusion, although it is compiled in another order |
| `Reading.ConflictReads` | packages/relq-core/src/relq/_compiler/_render.py:220-245 | The conflict clause is read back with its columns, its constant predicate and its action |
| `Reading.PredicateReads` | packages/relq-core/src/relq/_compiler/_render.py:254-315 | The same for an arbiter predicate, whose constants are read as constants |
| `Reading.CalledReads` | packages/relq-core/src/relq/_compiler/_render.py:510-537 | A call is read back with its arguments and its FILTER, up to the OVER that may follow |
| `Reading.BalancedFlow` | packages/relq-core/src/relq/_compiler/_render.py:369-604 | Rendered parentheses never close one that was open before |
| `Reading.TakenWhole` | packages/relq-core/src/relq/_compiler/_render.py:582-586 | A nested SELECT is delimited exactly by its own parentheses |
| `Reader.FlowIsMeaning` | packages/relq-core/src/relq/_compiler/_render.py:67-85 | The text that is read is the statement as the database understands it |

## Left out

- Drivers, async scheduling, timing, row decoding, typing overloads, frozen-class guards, introspection, configuration and the command line.
- Weak references and `id()` reuse: there is one registry for a connection's whole life.
- The class hierarchy of the control objects: a database object takes the handle as a parameter instead of being inherited by it.
- Observers: an observer may abort a call at every point where it is notified, chosen nondeterministically, and does nothing else.
- The counter of generated savepoint names: a generated name is any string, so even one that the user has taken or that another handle has.
- A failed command changes nothing on the server's savepoint stack or in its work, a statement that fails does no work, and giving a connection back to the pool does not itself fail.
- Isolation levels and the text of BEGIN are one flag; SQLite's autocommit modes are not told apart.
- Error messages: validation accepts or rejects, and the renderer's exceptions are reported, asserted or index errors.
- Rendered text is a sequence of tokens; the spaces between them are not part of the model.
- Temporal nodes that render, traverse and validate alike share a constructor; so do the two PostgreSQL infix nodes.
- Values are compared structurally; that Python considers `True` and `1` equal, and so may take one literal for the other in GROUP BY, is not modelled.
- The sets of outer sources that rendering passes down are not modelled: nothing that is printed depends on them.
- Nullability.ProjectionIsNeverNull: columns of enclosing queries are not declared non-null, because the validator looks only at the local outer joins; an operator has a value only where the interpretation says so, because SQLite makes a zero divisor NULL; function calls are excluded, because the validator never flags them, and `Nullability.CoalesceIsExact` says when a coalesce is safe; infinite timestamps, some of whose fields PostgreSQL extracts as NULL, are not modelled.
- Nullability.NullIsExact: CASE is excluded, because which branch is taken is up to its conditions; `Nullability.NullNeedsCut` covers it in one direction.
- Grouping.GroupingIsSound: windows and subqueries outside aggregates are excluded, because the check does not look inside correlated subqueries and treats a windowed aggregate as an ordinary one.
- WithClauses.CteNameEscapes: there is no equivalence beside it; a column names a FROM or JOIN source wherever no WITH clause is in scope, which is how `Scoping` defines it.
- Scoping.AcceptedIsScoped: the subqueries of conflict predicates are scoped only loosely, because the first pass does not visit them; `Scoping.ThoroughlyScoped` says when they are scoped like the rest.
- Reading.StatementPrintThenRead: names and operators that are not words of the grammar itself, windows on calls, and no alias inside an expression, as no expression with one is SQL. What prints nothing is not read back: the predicate of a cross join, which CTE of a recursive WITH is recursive, the limit in front of SQLite's bare offset, a CTE source against an unqualified table, one row against a list of one, and nullability marks.
- Reading.PrintThenRead: the same, for an expression on its own.
- Rendering.QuestionMarksAreExact: the values are pairwise distinct in the equivalence, because equal values can change places unnoticed; `Document.OrderedQuestionMarksResolve` holds for all values.
- Migrators.MigratorsAreSafe: migration SQL does not itself change the history table. Which statements control the transaction is a parameter of `SqliteMigrator.Connection`, because SQLite's EXPLAIN decides it.
- Migrators.SuccessesAreGrowth: enforcement is restored, because a commit whose enforcement is not restored is reported as an error (`Migrators.UnrestoredUndercounts`).
- Splitter.RestartIsOnePass: sufficient, not necessary. A CASE that is carried over matters only if the next CASE stands in an atomic block, and then only if the rest of that block cuts differently, which is decided by running both lexers over all that follows; `CarriageReturn.OnlyCaseMatters` is exact over all that can follow. Only a migration built in code can hold such a carriage return, as the file provider reads with newline translation. The session's string mode is fixed.
- Elements.ScriptSplits: a script whose line comments end in a lone carriage return is not written as elements, because the lexer and its look-ahead disagree there (`CarriageReturn.RestartDiffers`); text that never closes a quote or a block comment has no later statement to find.
- Splitting a SQLite script with `sqlite3.complete_statement`, checksums as SHA-256, and the PostgreSQL migrator's advisory lock.
- Batching.BatchRows: the statement is a template that does not change with its rows, and rows come as a finite sequence.
- Names.Plan: normalizing SQL names to Python identifiers, and the text of the module, are not modelled; stems are arbitrary strings.
- Names.RenderModule: the table of built-in types is a parameter, restricted as the mapper restricts it to declared imports and known Python types.

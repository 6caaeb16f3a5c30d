# A verified model of a migration runner

This project models dbtools, a tool that migrates databases with plain SQL files and
keeps one ledger table as the only record of what happened to a database. It states what
that record is worth, and proves it.

| file | what it models |
|---|---|
| Ledger.dfy, Ordered.dfy | the ledger rows, the three upserts, the version and the dirtiness derived from the rows |
| Migrations.dfy, Filenames.dfy | the migrations directory: listing, file names, pending and ignored files, revert plans, scaffolding |
| Protocol.dfy, DbLock.dfy | any number of processes sharing one ledger, one schema and one advisory lock, each free to fail or die at any step |
| Replay.dfy, Watermark.dfy, Sticky.dfy, Hashes.dfy | safety over every interleaving of those processes |
| NoDrift.dfy, Edits.dfy | what the drift report says after any such run, and of files edited after it |
| Runs.dfy, Runner.dfy, Commands.dfy | the runner as a class with its loops, proved to compute what a run is and to take only steps of the protocol; rollback, repair and import on top of it |
| DdlCheck.dfy, Extract.dfy, Verify.dfy | what a file does to object names, and the drift report |
| Dollar.dfy, Mask.dfy, Lines.dfy, Psql.dfy | the text scanners |
| Tokens.dfy, Reading.dfy | masking, said of comments, literals, quoted names and dollar quotes |
| Words.dfy, Tracker.dfy, Stripping.dfy | where the scanners agree with PostgreSQL's identifiers and dollar quotes and with each other, and which lines the strip drops |
| Names.dfy, Diff.dfy, Comparison.dfy, Changes.dfy, FindingOrder.dfy | the structural comparison, what its findings mean and their order |
| Squash.dfy, Baseline.dfy | replacing a history by a baseline |
| Adopt.dfy | importing another tool's history |
| PgError.dfy | positions in error reports |

The runner's class carries, as ghost state, the run of the protocol it has taken so far;
`Valid()` says that this is a run and that it ends in the object's present state. So every
theorem about runs applies to what the methods do, and `Commands.Session` draws the
conclusion for any sequence of ups, steps and downs.

## Assumptions

- SQL is a function of the schema when it succeeds and may leave any schema behind when
  it fails. Nothing else is known of a schema. A file hash is any function of the text.
- The up files of a directory have distinct versions. `ReadDir` keeps a duplicate in its
  list but only the last one in its index (internal/migrator/dir.go:98-104);
  `Filenames.ReadDir` shows that distinct versions are all that a directory needs.
- The lock lives on a session of its process's connection pool. An unlock that fails leaves
  it there until the pool drops the session, closes, or the process ends; a session that is
  used again keeps its locks. SQLite's lock does nothing (internal/dblock/engines.go:22-26),
  so what is said of several processes is said of the other three engines.
- A held lock's session lives as long as its process: no step takes the lock away from a
  process that goes on running SQL on its other connection. `Protocol.OneApplyingOneRunner`
  rests on that.
- No list of a schema repeats a name, as no introspector lists two columns of a table with
  one name. The comparison keeps only the last of them (internal/diff/compare.go:168-176),
  so `Comparison.NoFindingsMeansSameLists` asks for it; `Comparison.RepeatedColumnIsMissed`
  says what would be missed.
- A ledger call is one atomic map update; notes and timestamps are not kept.
- A process lists the directory under the lock. The code lists it just before
  (internal/rollback/rollback.go:54-60).

## Where the code and its words differ

The code is what is modelled.

- `Force(v)` clears only the `applying` row of `v` itself (internal/migrator/runner.go:253).
- `rollback` with more steps than there are applied versions reverts one version
  (internal/rollback/rollback.go:88-91), while `down` reverts all of them
  (internal/migrator/dir.go:239-242): `Commands.Rollback`, `Runner.Runner.Down`.
- Closing the lock's connection is said to free the lock whatever the unlock did
  (internal/dblock/dblock.go:52-55), but it hands the connection, session and all, back to
  the pool (internal/dblock/dblock.go:41-43). `DbLock.ReleaseFrees` says exactly when the
  lock is free afterwards, `DbLock.FailedUnlockKeepsTheLock` what happens when it is not.
- A staging name is said to belong to nobody, but the loop over destroyed names gives it
  an owner (internal/verify/collect.go:72-82).
- A reverted row is drift whenever a name its file leaves exists, also when a later
  version created it again or an earlier one left it (internal/verify/collect.go:148-151).
  `NoDrift.MigratedReport` says that after ups, steps and downs the report names exactly
  such rows; `NoDrift.ReplacedNameIsDrift` is a run that ends with one.
- The masker knows no unquoted identifiers: a dollar-quote tag or an E-quote that is part
  of one opens a body or a literal for it. Nor does it know tags with letters outside
  ASCII, whose bodies it reads as SQL, although it is meant never to invent objects
  (internal/engine/postgresengine/ddl.go:15-142). `Words.MaskingIsExact` says exactly when
  it masks what PostgreSQL's sections 4.1.1 and 4.1.2.4 say of identifiers and dollar
  quotes; `Words.GluedTagIsMasked` and `Words.MissedTagIsCode` are what happens where it
  does not, `Words.GluedExample` and `Words.WideExample` such texts.
- The tracker knows no literals, comments or quoted names (internal/dump/dump.go:296-322).
  `Tracker.TrackerIsExact` says exactly when that does not matter,
  `Tracker.HiddenTagMisleads` what the first tag in such a place does.
  `Stripping.HeaderKeepsMeta` is a dump in which a comment keeps a meta-command.
- A line that starts with a backslash outside dollar bodies is taken for a psql directive
  (internal/dump/dump.go:262-274), also in a string literal, block comment or quoted name.
  `Stripping.StripIsExact` says exactly when nothing else is dropped,
  `Stripping.LiteralLosesLine` is a text for which something is.
- Two tables whose schema and name join to the same text are one table for the comparison
  (internal/diff/compare.go:40-45). `Comparison.DistinguishedIsExact` says when it is
  exact, `Comparison.SharedIdentIsMissed` that it never is for a pair that shares an
  identifier.
- A scaffolded version may be larger than the ledger stores, which is found out only when
  it is run (internal/engine/postgresengine/ledger.go:103-110).
  `Filenames.ScaffoldedFileCanBeMarked` says exactly when it can be,
  `Filenames.NextIsTooLarge` when it cannot.
- The next version wraps to 0 above the largest 64-bit number
  (internal/migrator/dir.go:265-276); `Filenames.NextWraps`.
- With a suffix of the project's own a scaffolded name may read back as a down file or as
  nothing, although a name is only checked to be safe (internal/migrator/dir.go:284-310);
  `Filenames.OtherSuffixesMislead`.
- A squash re-stamps a target without asking whether the target had applied every
  collapsed version (internal/squash/apply.go:150-170). `Baseline.RestampClaims` says what
  the ledger claims afterwards, `Baseline.RestampIsExact` that the claim is true of every
  verified plan if and only if it had, and `Baseline.RestampCanLie` is a target for which
  it is not.

## Model

| member | source | states |
|---|---|---|
| `Replay.SchemaIsReplayOfLedger` | internal/migrator/runner.go:90-233 | in every state any interleaving of ups, steps and downs reaches, with failures and deaths anywhere, if no command is under way and no row is applying then the schema is the replay of the applied versions' up files in ascending order, and these are the first files of the directory; each down file need only undo its up file at its own place |
| `Replay.ReplayStep` | internal/migrator/runner.go:90-233 | each step of an up, a step or a down keeps the invariant behind it: going forward pushes above the highest applied version, going backward pops it |
| `Replay.OneFileNeedsOneUndo` | internal/migrator/runner.go:171-233 | for one up and one down file the hypothesis about down files is the one equation that the down file undoes the up file on an untouched database |
| `Protocol.OneApplyingOneRunner` | internal/dblock/dblock.go:44-105 | under all lock-taking commands at most one row is applying, and a process that runs SQL is the only one under way, holds the lock, and runs the file of the applying row |
| `Protocol.InvStep` | internal/migrator/runner.go:90-295 | every step of every command, a death included, keeps mutual exclusion and the single applying row |
| `Protocol.DeathFrees` | internal/dblock/dblock.go:32-36 | the death of a process leaves the rows and lets every other process take the lock; in the middle of a file it may leave any schema |
| `Sticky.DirtinessIsSticky` | internal/migrator/runner.go:104-106 | after a failure, and until an override writes that version's row, nothing runs SQL or moves a file and no guarded command changes a row |
| `Sticky.FailureLeavesStuck` | internal/migrator/runner.go:142-164 | a failure or death after the mark, or an outcome that cannot be recorded, leaves the version stuck |
| `Watermark.ApplyingStrandsNothing` | internal/migrator/dir.go:195-229 | over any run of ups and steps, complete or not, the watermark never falls and the ignored files never change |
| `Hashes.UneditedFilesAreNotFlagged` | internal/engine/postgresengine/ledger.go:112-163 | with files unedited the hash check flags no row in any state reached by up, step, down, rollback, adopt and completed squash |
| `Hashes.ForceAfterDownIsFlagged` | internal/verify/collect.go:119-128 | a version reverted by `down` and then forced is flagged exactly when its down file has a hash that differs from its up file's |
| `Ledger.QueryState` | internal/ledger/ledger.go:118-140 | the version is the highest applied one, the dirty version the lowest applying one, each present if and only if there is one |
| `Ledger.List` | internal/engine/postgresengine/ledger.go:166-199 | lists every row once, ascending |
| `Ledger.CollectApplied` | internal/engine/postgresengine/ledger.go:200-213 | the loop over the listing gives the ascending applied versions |
| `Migrations.Dir.PendingAfter` | internal/migrator/dir.go:166-174 | computes the pending files |
| `Migrations.AfterIsSuffix` | internal/migrator/dir.go:166-174 | the pending files are a suffix of the directory and everything before it is at or below the watermark |
| `Migrations.Dir.BelowWatermark` | internal/migrator/dir.go:210-229 | computes the ignored files |
| `Migrations.UpFilesSplit` | internal/migrator/dir.go:166-229 | every up file is exactly one of pending, ignored and applied |
| `Migrations.Dir.MakeDownPlan` | internal/migrator/dir.go:234-255 | computes the revert plan that `Migrations.DownPlanMeans` describes |
| `Migrations.DownFilesMean` | internal/migrator/dir.go:234-255 | the plan holds the down files of the last applied versions, newest first, and is refused if and only if one is missing |
| `Migrations.DownPlanMeans` | internal/migrator/dir.go:234-255 | a plan holds `steps` down files, or one for every applied version when `steps` asks for none or for more |
| `Migrations.UpPlanMeans` | internal/migrator/runner.go:108-117 | an up or step runs the first `limit` pending files, or all of them when there are fewer or `limit` sets no bound |
| `Runs.StepThenStep` | internal/migrator/runner.go:81-132 | `step a` and then `step b` does what `step (a + b)` does |
| `Runs.UpTwice` | internal/migrator/runner.go:81-132 | a second `up` has nothing to run |
| `Runs.UpThenDown` | internal/migrator/runner.go:171-233 | after a run of k files, `down k` is planned if and only if all k down files exist, and then restores the applied versions and the schema |
| `Runs.MigrateAllRecords` | internal/migrator/runner.go:142-233 | a completed run leaves for each file its status and the hash of the file its version names, and changes no other row |
| `Runner.Runner.Apply` | internal/migrator/runner.go:81-132 | a dirty ledger is refused unchanged; otherwise the data is that of the files reported as applied, at most `limit`, plus at most the marked next file; each of them is recorded as applied with the hash of its file |
| `Runner.Runner.ApplyOne` | internal/migrator/runner.go:142-164 | marks, runs and records one file: its row becomes applied with the hash of the file and no other row changes; on failure either nothing shows or the row stays applying |
| `Runner.Runner.Down` | internal/migrator/runner.go:171-233 | a missing down file or a dirty ledger changes nothing; otherwise exactly a prefix of the plan ran and is what is reported; a success takes off and reports the last `steps` versions, or all of them when `steps` asks for none or for more |
| `Runner.Runner.RevertOne` | internal/migrator/runner.go:208-231 | the row of a reverted version has the hash of its down file |
| `Runner.Runner.Force` | internal/migrator/runner.go:242-254 | writes the one row as applied, whatever the ledger says, and runs no SQL |
| `Runner.Runner.WriteTransaction` | internal/rollback/rollback.go:98-117 | all the writes land or none does |
| `Commands.Session` | internal/migrator/runner.go:81-233 | any sequence of ups, steps and downs through the runner, failing anywhere, ends with the schema the replay of the ledger unless a row is applying |
| `NoDrift.MigratedReport` | internal/verify/collect.go:58-155 | after any interleaving of ups, steps and downs, with no command under way and no row applying, the drift report names exactly the reverted rows whose files leave a name the applied files end with, when SQL does to the existing objects what its operations say |
| `NoDrift.SessionAndReport` | internal/verify/collect.go:30-155 | the same for the runner and the report themselves, after any sequence of ups, steps and downs that fail anywhere |
| `NoDrift.ReplacedNameIsDrift` | internal/verify/collect.go:148-151 | two files that leave the same name, `up` and `down 1`: the second version is reported as drift |
| `Edits.EditsAreFlagged` | internal/verify/collect.go:119-128 | in every state ups, steps, downs, rollbacks and imports reach, whatever becomes of the directory, the hash check flags an applied version if and only if its file was edited and it was not imported |
| `Edits.UpAndReport` | internal/migrator/runner.go:81-164 | after an up or step, the report on any directory says of each file applied that it was edited if and only if it was |
| `Edits.ImportedIsNeverFlagged` | internal/verify/collect.go:119-128 | an imported version is never flagged |
| `Commands.Rollback` | internal/rollback/rollback.go:28-133 | reverts the last `steps` applied versions in the ledger in one transaction, or one when `steps` asks for none or for more than there are; reports them newest first and the version that is left |
| `Commands.PreparedRollback` | internal/rollback/rollback.go:88-108 | the protocol's rollback takes as many versions off |
| `Commands.RollbackPops` | internal/rollback/rollback.go:88-108 | the applied versions afterwards are the old ones without the last `count` |
| `Commands.RollbackRow` | internal/rollback/rollback.go:98-108 | nothing but the status of the reverted rows changes |
| `Commands.RepairUndoesRollback` | internal/repair/repair.go:97-119 | repairing as applied the versions a rollback reverted restores the ledger, hashes and sources included |
| `Commands.Repair` | internal/repair/repair.go:33-131 | either every pair is valid and all of them are written, or no row changes |
| `Commands.ValidatePairs` | internal/repair/repair.go:61-95 | accepts the pairs if and only if each may be written |
| `Commands.RepairClears` | internal/repair/repair.go:97-119 | the rows still applying afterwards are exactly those no pair names |
| `Commands.RepairedIsNotMissing` | internal/repair/repair.go:61-95 | a version that may be marked applied is not drift for its objects afterwards: its file is there, and unless the operator insists no name it left is missing |
| `Commands.Import` | cmd/adopt.go:149-163 | the import loop records a prefix of the matched versions, all of them when it succeeds |
| `DbLock.Acquire` | internal/dblock/dblock.go:87-105 | the lock is granted to a new session while nobody holds it, or once more to a pooled session that still holds it; a refusal gives the connection back and touches no lock of another session |
| `DbLock.Lock.Release` | internal/dblock/dblock.go:44-70 | the first release unlocks and gives the connection back; later ones change nothing and report the same error |
| `DbLock.ReleaseFrees` | internal/dblock/dblock.go:61-63 | after a release the session no longer holds the lock if and only if the connection was dropped or the unlock took effect on a lock taken once; no other session's lock changes |
| `DbLock.FailedUnlockKeepsTheLock` | internal/dblock/dblock.go:61-63 | after a failed unlock on a pooled session every other session is refused, the next acquire on that session takes the lock twice, and one release is then not enough |
| `DbLock.Pool.Close` | internal/rollback/rollback.go:41-45 | closing the database frees every lock left on an idle session and no other |
| `DbLock.ProtocolLocks` | internal/dblock/dblock.go:44-105 | taking and releasing the lock on the server is what the protocol says it is |
| `DbLock.KeysCollide` | internal/dblock/engines.go:83-92 | two databases share a cut lock name if and only if they are the same or agree as far as the server keeps names |
| `DbLock.ShortNamesHaveTheirOwnKeys` | internal/dblock/dblock.go:107-117 | with names the server keeps whole, equal keys mean equal databases |
| `DdlCheck.Resolve` | internal/ddlcheck/ddlcheck.go:143-173 | the two passes build the lifecycle of the stably sorted operations |
| `DdlCheck.LifecycleMeans` | internal/ddlcheck/ddlcheck.go:109-137 | a name must exist if and only if its last operation leaves it, and is destroyed if and only if its last operation removes it |
| `DdlCheck.ResolveAgreesWithInterpreter` | internal/ddlcheck/ddlcheck.go:135-173 | from every set of names, running the operations ends without the destroyed names and with the left-behind ones that are not temporary; neither list repeats a name |
| `DdlCheck.ResolveIgnoresGrouping` | internal/ddlcheck/ddlcheck.go:143-146 | only the order of operations at equal offsets matters |
| `Extract.SortRestoresSourceOrder` | internal/engine/postgresengine/ddl.go:199-228 | the extractor's stream, pattern by pattern, sorts back to the statements of the file in source order |
| `Extract.ResolveRunsTheFile` | internal/engine/postgresengine/ddl.go:195-228 | resolving a file agrees with running its statements over any set of names: a create adds one, a drop removes one, a rename replaces one |
| `Extract.RenamesAreFound` | internal/ddlcheck/ddlcheck.go:73-89 | every rename statement is paired with its own target and nothing else is |
| `Extract.RefsAreFound` | internal/ddlcheck/ddlcheck.go:60-68 | the created and the dropped names come out in source order |
| `Extract.RenamesOf` | internal/ddlcheck/ddlcheck.go:73-89 | the nested loops pair every removal with the first target at its offset |
| `Verify.Collect` | internal/verify/collect.go:58-155 | every row is reported exactly: a missing object at the one version the replay says left it, edited files, missing files, reverted names that exist |
| `Verify.Claim` | internal/verify/collect.go:72-82 | the ownership map is updated with what a file leaves and destroys |
| `Verify.NoDriftMeansReplayExists` | internal/verify/collect.go:58-155 | with applied files present and unedited, no applied row is drift if and only if every name their replay ends with exists |
| `Verify.CollectNoLedger` | internal/verify/collect.go:170-217 | a file is reported if and only if some name the replay of all files ends with was left by it and does not exist; the finding names one such |
| `Verify.NoDriftWithoutLedger` | internal/verify/collect.go:170-217 | without a ledger no file is reported if and only if every name the replay of all files ends with exists |
| `Mask.MaskNonExecutable` | internal/engine/postgresengine/ddl.go:26-142 | the byte scanner with its jumps is the character-by-character automaton, and terminates; same length, line breaks where they were, every byte the source's or a space |
| `Mask.MaskIsIdempotent` | internal/engine/postgresengine/ddl.go:26-142 | masking twice is masking once |
| `Tokens.TokensAreMasked` | internal/engine/postgresengine/ddl.go:15-142 | a text of tokens is masked token by token: code and quoted names stay; line comments, nested block comments, plain and escape literals and dollar quotes are blank but for their line breaks |
| `Tokens.TailIsMasked` | internal/engine/postgresengine/ddl.go:22-26 | what is not closed is masked to the end of the text, an open quoted name stays |
| `Reading.EveryTextIsTokens` | internal/engine/postgresengine/ddl.go:58-140 | every text is one of tokens and of something that may be left open |
| `Reading.MaskIsByTokens` | internal/engine/postgresengine/ddl.go:15-142 | so what masking does to any text is said by its tokens |
| `Tokens.NestedExample` | internal/engine/postgresengine/ddl.go:67-82 | a comment inside a comment does not end it |
| `Words.MaskingIsExact` | internal/engine/postgresengine/ddl.go:26-142 | the scanner masks what an automaton with PostgreSQL's identifiers and tags masks if and only if no tag and no E-quote stands inside an identifier and no tag in code has a letter outside ASCII |
| `Words.SeparatedIsExact` | internal/engine/postgresengine/ddl.go:26-142 | in particular when none follows an identifier character and the scanner finds every tag |
| `Words.IdentifierStays` | internal/engine/postgresengine/ddl.go:26-142 | for that automaton an identifier stays as it is, dollar signs and all |
| `Words.WordTagAtFinds` | internal/engine/postgresengine/ddl.go:41-56 | a tag with the letters of an identifier that stands at a position is the tag that automaton finds there |
| `Words.MissedTags` | internal/engine/postgresengine/ddl.go:41-56 | the scanner misses such a tag if and only if it has a letter outside ASCII |
| `Words.GluedTagIsMasked` | internal/engine/postgresengine/ddl.go:124-136 | for an identifier with a tag in it that does not come again, the scanner masks everything from the tag on and the identifier keeps it |
| `Words.GluedExample` | internal/engine/postgresengine/ddl.go:124-136 | `a$b$ c` |
| `Words.MissedTagIsCode` | internal/engine/postgresengine/ddl.go:41-56 | after a tag with a letter outside ASCII PostgreSQL is in its body and the scanner in code |
| `Words.WideExample` | internal/engine/postgresengine/ddl.go:41-56 | a dollar-quoted string whose tag is one letter outside ASCII: its body is kept |
| `Dollar.TagAtFinds` | internal/engine/postgresengine/ddl.go:41-56 | a tag that stands at a position is the tag the recogniser finds there |
| `Psql.TrackDollarQuote` | internal/dump/dump.go:296-322 | the loop of one line computes the tag open after it |
| `Psql.DollarTagAt` | internal/dump/dump.go:326-345 | finds the same tags as the masker's recogniser |
| `Psql.TrackTwoLines` | internal/dump/dump.go:296-322 | scanning a line, its break and the rest equals scanning the rest from the state after the line |
| `Psql.LinewiseIsWhole` | internal/dump/dump.go:275-322 | tracking line by line is tracking the whole text |
| `Psql.StripPsqlMetaCommands` | internal/dump/dump.go:275-292 | computes the stripped text, the early return included |
| `Psql.LineFate` | internal/dump/dump.go:275-292 | a line is dropped if and only if it is a meta-command and no dollar body is open in the kept text before it; kept lines stay in order |
| `Psql.MetaCommandMeans` | internal/dump/dump.go:283 | a meta-command is a line with only blanks and tabs before a backslash |
| `Psql.StripIsIdempotent` | internal/dump/dump.go:275-292 | stripping twice is stripping once |
| `Psql.FastPath` | internal/dump/dump.go:276-278 | without a backslash the full pass changes nothing |
| `Tracker.TrackerIsExact` | internal/dump/dump.go:296-322 | stopped at any place where no token is in progress, the tracker has the tag open that the text is in, if and only if no literal, comment or quoted name holds a tag |
| `Tracker.TrackerAgrees` | internal/dump/dump.go:296-322 | then it also ends with the tag of the body the text ends in, wherever the text ends |
| `Tracker.HiddenTagMisleads` | internal/dump/dump.go:296-322 | past the first tag in such a place the tracker is in a body and the text is not |
| `Stripping.FateByMode` | internal/dump/dump.go:275-292 | when no literal, comment or quoted name of the stripped text holds a tag, a line is dropped if and only if it is a meta-command and does not stand in a dollar body |
| `Stripping.StripIsExact` | internal/dump/dump.go:271-292 | then exactly the meta-commands that stand in code are dropped if and only if no line of a literal, block comment or quoted name starts with a backslash |
| `Stripping.AfterBreak` | internal/dump/dump.go:275-292 | a line starts in code, in a dollar body, or in a literal, block comment or quoted name |
| `Stripping.CommentKeepsMeta` | internal/dump/dump.go:275-292 | a meta-command after a line comment that leaves a body open for the tracker stands in code and is kept |
| `Stripping.HeaderKeepsMeta` | internal/dump/dump.go:275-292 | the header pg_dump writes for a table named `a$$b`, and `\unrestrict` |
| `Stripping.LiteralLosesLine` | internal/dump/dump.go:275-292 | a literal of two lines loses the one that starts with a backslash |
| `Names.SortedKeys` | internal/diff/compare.go:69-84 | the ascending listing of both key sets, whatever order the maps are walked in |
| `Names.LessMeans` | internal/diff/compare.go:81 | the order is by the first character that differs, a beginning coming first |
| `Diff.DiffKeyed` | internal/diff/compare.go:90-117 | one finding a key of either map, in ascending order, or none where nothing differs |
| `Diff.CompareTable` | internal/diff/compare.go:164-323 | a table's findings in order, and its note when columns only changed places |
| `Diff.Compare` | internal/diff/compare.go:122-162 | all findings and notes in order; none if and only if the maps by identifier and name agree |
| `Diff.NoFindingsMeansSameShape` | internal/diff/compare.go:122-162 | nothing is reported if and only if the maps the comparison builds are equal up to column positions and generated names, whatever the lists |
| `Diff.NoTableFindings` | internal/diff/compare.go:164-323 | the same for the four maps of one table |
| `Comparison.NoFindingsMeansSameLists` | internal/diff/compare.go:122-162 | when no list repeats a name, nothing is reported if and only if both schemas list the same tables with the same columns, indexes, foreign keys and checks, up to order, column positions and generated names |
| `Comparison.NoTableFindingsMeansSameLists` | internal/diff/compare.go:164-323 | the same for one table |
| `Comparison.RepeatedColumnIsMissed` | internal/diff/compare.go:168-176 | of two columns with one name the first, whatever it is, is not seen |
| `Comparison.ChangesAreExact` | internal/diff/compare.go:216-238 | the changes reported of a column rebuild the target's column from the scratch one, and reversed the scratch one from the target's |
| `Changes.ColumnsCompared` | internal/diff/compare.go:216-238 | a column has no change if and only if type, nullability, sizes, default and key agree |
| `Changes.IndexChangesAreExact` | internal/diff/compare.go:260-279 | the changes reported of an index rebuild either index from the other, and each is a difference |
| `Changes.ForeignKeyChangesAreExact` | internal/diff/compare.go:280-305 | the same for a foreign key |
| `Changes.CheckChangesAreExact` | internal/diff/compare.go:306-320 | the same for a check |
| `Changes.DetailsAreExact` | internal/diff/compare.go:90-323 | the detail of every reported change rebuilds either object of that name from the other; missing and extra objects have none |
| `Comparison.FindingsAreTheDifferences` | internal/diff/compare.go:90-323 | every finding stands for a difference of its kind and every difference is found: missing in the target, extra in it, or in both with an attribute that differs |
| `FindingOrder.CompareIsOrdered` | internal/diff/compare.go:122-323 | tables by identifier, and inside a table columns, indexes, foreign keys and checks in this order, the last three by name and the target's own columns after the others |
| `Comparison.CompareIsMirrored` | internal/diff/compare.go:122-162 | swapping the arguments reports the same objects with missing and extra exchanged |
| `Comparison.DistinguishedIsExact` | internal/diff/compare.go:40-45 | when identifiers tell the tables apart, nothing is reported if and only if the same schema-and-name pairs have the same shape |
| `Comparison.SharedIdentIsMissed` | internal/diff/compare.go:40-45 | two different tables with one identifier and equal contents compare equal |
| `Comparison.DotlessSchemasDistinguish` | internal/diff/compare.go:40-45 | schemas that are named, without a dot, tell their tables apart |
| `Comparison.NotesShowMovedColumns` | internal/diff/compare.go:250-258 | a table is noted if and only if it has as many columns on both sides, they agree but for their positions, and some position differs |
| `Squash.SquashKeepsPendingAndIgnored` | internal/squash/apply.go:98-170 | pending files stay as they were and the ignored files are the old ones above `upto`, also when the watermark falls |
| `Squash.RestampMeans` | internal/squash/apply.go:150-170 | the ledger after a re-stamp, row by row: the baseline's row is new, a collapsed version's row keeps its hash and source, every other row stays |
| `Baseline.SquashPreservesMeaning` | internal/squash/plan.go:170-177 | on an untouched database the squashed directory and the original one give schemas that compare equal |
| `Baseline.RestampClaims` | internal/squash/apply.go:150-170 | the re-stamped ledger stands for every collapsed file followed by the versions applied above `upto` |
| `Baseline.RestampKeepsReplay` | internal/squash/apply.go:150-170 | when no collapsed file was passed over, the re-stamped ledger still describes the schema |
| `Baseline.RestampIsExact` | internal/squash/apply.go:98-170 | the re-stamped ledger is true of every verified plan over files with these versions if and only if the target had applied every collapsed version |
| `Baseline.PassedOverBreaksRestamp` | internal/squash/apply.go:98-170 | for any target that passed over a collapsed version, a verified plan whose re-stamp is not true |
| `Baseline.RestampCanLie` | internal/squash/apply.go:98-170 | files 1 and 2, only 2 applied, squashed up to 2 |
| `Baseline.BuildPlan` | internal/squash/plan.go:46-178 | refuses to collapse if and only if there is nothing at or below `upto`; a plan is verified if and only if the replay and the baseline compare equal; replay, dump and introspection may each fail |
| `Baseline.Target.ApplyPlan` | internal/squash/apply.go:43-173 | every refusal changes nothing; success leaves exactly the squashed directory and the archived names, the baseline applied with the hash of its own text, the collapsed versions reverted with their hashes, every other row as it was, and no row flagged that was not before; rows change only once the files are in place |
| `Baseline.ArchivedMeans` | internal/squash/apply.go:130-148 | the archived names are those of the up and the down files of the collapsed versions |
| `Baseline.PreparedSquash` | internal/squash/apply.go:98-170 | the protocol's squash goes on to write rows exactly when the target is at or past `upto`, and to the same rows |
| `Baseline.ArchivedIsSquashed` | internal/squash/apply.go:130-148 | the files left by the archiving loop and the baseline are the squashed directory |
| `Adopt.BuildPlan` | internal/adopt/adopt.go:205-256 | matched, pending and orphan partition both version sets, each ascending |
| `Adopt.Gate` | cmd/adopt.go:106-137 | passes if and only if the orphans are allowed and every pending version is above every matched one |
| `Adopt.ImportStrandsNothing` | cmd/adopt.go:122-163 | past the gates an import leaves no file ignored, exactly the planned files pending, and records no orphan |
| `Adopt.ImportNeverIgnores` | cmd/adopt.go:149-163 | at every point an import may be broken off no file is ignored, the pending files are those not yet recorded, and no orphan is recorded |
| `Adopt.StrandedIsIgnored` | cmd/adopt.go:120-131 | without the second gate a pending file below a matched version is ignored |
| `Filenames.ReadDir` | internal/migrator/dir.go:48-123 | exactly the up and the down files of the listing are kept, each under its version; distinct up versions make an ascending, consistent directory |
| `Filenames.NameReadsAs` | internal/migrator/dir.go:21-112 | how a name of digits, an underscore and a tail is read, whatever the number of digits |
| `Filenames.NextVersion` | internal/migrator/dir.go:259-276 | the result is above every up version if and only if none of them is the largest 64-bit number |
| `Filenames.NextWraps` | internal/migrator/dir.go:265-276 | above a file with the largest version the next version is 0 |
| `Filenames.ScaffoldedNameReadsAs` | internal/migrator/dir.go:296-310 | what a scaffolded name reads back as, for every slug and suffix |
| `Filenames.OtherSuffixesMislead` | internal/migrator/dir.go:296-310 | with the suffix .sql a slug a.down reads back as a down file and a.up as nothing |
| `Filenames.DefaultNameReadsBack` | internal/migrator/dir.go:296-310 | with the default suffix it reads back as the version it was printed from |
| `Filenames.ScaffoldedFileIsPending` | internal/migrator/dir.go:259-310 | a scaffolded file read back with its directory is pending at every watermark up to the old maximum |
| `Filenames.ScaffoldedFileCanBeMarked` | internal/engine/postgresengine/ledger.go:103-110 | when its turn comes, a scaffolded file can be marked if and only if the clock and every version before it leave room below the largest version the ledger stores, or its version has wrapped |
| `Filenames.NextIsTooLarge` | internal/migrator/dir.go:265-276 | above a file with that version the next one is refused |
| `Filenames.SlugKeepsSafeNames` | internal/migrator/dir.go:287-293 | a name that is already safe is kept |
| `Filenames.SlugOf` | internal/migrator/dir.go:284-293 | of a name the blanks around it go and the spaces inside become underscores; it is refused if and only if that is not a safe name |
| `Filenames.NameSplits` | internal/migrator/dir.go:284-293 | every name is one with blanks around it or none |
| `PgError.TranslatePosition` | internal/engine/postgresengine/pgerror.go:16-47 | line lengths, their breaks and the column add up to the offset; the text is that line without a carriage return and the caret stands under the column |
| `PgError.TrimReturnMeans` | internal/engine/postgresengine/pgerror.go:41-44 | one carriage return at the end of a line goes and nothing else |
| `PgError.LocateIsExact` | internal/engine/postgresengine/pgerror.go:16-47 | nothing else is a location of the offset |
| `PgError.LocateIsMonotone` | internal/engine/postgresengine/pgerror.go:16-47 | later offsets have later locations |
| `PgError.PreambleIsDiscounted` | internal/engine/postgresengine/pgerror.go:66-75 | with a preamble in front the report gives the location in the bare file, and nothing for positions in the preamble |

## Left out

- Drivers, connections, the DDL of the ledger table and catalog queries: SQL behind libraries that are not part of this model.
- Regular expressions in the DDL extractors: the matches with their offsets are inputs (`Extract.Statement`), and the operations of a text are an input of the drift report.
- `Protocol.World`: one directory is shared by all processes; a listing that another process's squash has made stale is not modelled.
- `Protocol.Next`: a squash moves its files in one step and then writes its rows one by one; a crash between two file moves is seen by `Baseline.Target.ApplyPlan` only.
- `Hashes.UneditedFilesAreNotFlagged`: speaks of completed squashes, because the file moves and the row writes of a squash are not one transaction.
- `Replay.SchemaIsReplayOfLedger`: leaves out force, repair, rollback and adopt, which record an operator's judgement without running SQL, and squash, for which `Baseline.RestampKeepsReplay` says what holds.
- `Baseline.BuildPlan`: takes the dumped baseline as input and runs it as one text; cutting it at batch separators and the dump tools are left out.
- `Baseline.Target.ApplyPlan`: takes the parsed baseline name and whether that name is taken as inputs.
- `Diff.Compare`: a change is a value with its two sides; the sentences made of them are left out.
- `Words.MaskingIsExact`: is about identifiers and dollar quotes; comments and literals are read as the code reads them, so an escape literal continued on a later line (section 4.1.2.1) and a line comment ended by a lone carriage return are left out.
- `Stripping.FateByMode`: is about texts without hidden tags; `Psql.LineFate` says what happens to a line of any text.
- `DbLock.Pool`: the drivers' own connection resets are not part of this model; a session used again keeps its locks.
- `PgError.PreambleIsDiscounted`: is about preambles that end in a line break.
- `Adopt.BuildPlan`: the source rows are versions that have been parsed already.
- `Filenames.Classify`: reads a name as characters, without Unicode case folding or normalisation.
- Hash functions stay uninterpreted, so numeric lock keys and their collisions are not modelled; a collision costs concurrency only.
- Contexts and cancellation: waiting for a lock ends with the lock or with a failure.
- Docker and scratch databases, pruning, clone, code generation, logging, the dashboard, and the commands other than those above.

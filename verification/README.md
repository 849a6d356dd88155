# GitLab merge queue: migrations, archive and dashboard connection

A Dafny model of the parts of the merge queue whose correctness spans many steps:

- **The rollback archive and the a7/f6 boundary.** A database is a value holding the
  retry queue, the dead-letter queue (DLQ), the two queue tables, one identity sequence
  per table, the archived rows and the manifests. `capture` moves rows with unknown
  dates out, `restore` brings every verified batch back, and the migration
  `a7b8c9d0e1f2` composes them with date repair and table rebuilds. `RetryArchive` and
  `TimestampMigration` say what each step computes; `MigrationBind.Bind` holds the
  same state in fields and is proved, method by method, to compute it. A run mixes
  migrations, interrupted migrations and inserts, edits and deletes by either
  runtime. The reference it is compared with is a *ledger*: the two tables as they
  would be had no migration ever run. Runs start at either revision, the first upgrade
  of an old database included.
- **Project ownership.** Widening unique keys by a project column, and giving the
  `project_id = 0` rows to one explicitly named owner, or refusing.
- **The dashboard connection.** `WebSocketManager`, `useWebSocket` and the browser
  they run in, as one event-driven system. `Connection` defines the steps and their
  invariant; `ConnectionManager` holds the objects with their mutable fields, proved to
  follow those steps event by event.
- **Endpoint labels and waiting.** `normalize_endpoint` over unbounded strings, the
  database retry loop, its setting bounds, and the identity guard around a whole
  migration run.

## How to read it

| module | part of the system |
|---|---|
| `Json.dfy` | compact JSON text and its unique decodability |
| `RetryArchive.dfy` | the archive's state, digests, reading, capture, restore |
| `ArchiveDigests.dfy`, `ArchiveReading.dfy` | what digests stand for; exactly which archives are accepted |
| `ArchiveCapture.dfy`, `ArchiveRestore.dfy` | exact results, conservation, closure, sequences |
| `ArchiveEvidence.dfy` | exactly what the digests protect |
| `ArchiveMeaning.dfy`, `ReadingMeaning.dfy`, `MigrationMeaning.dfy` | the same operations column by column, date by date and value by value |
| `TimestampMigration.dfy` | upgrade and downgrade, the round trip |
| `MigrationRuns.dfy` | whole runs and their ledger |
| `MigrationBind.dfy` | the stateful form of all of these |
| `ProjectScope.dfy`, `ProjectOwner.dfy` | key widening and ownership backfill; who the settings name |
| `QueueIdentity.dfy` | queue identities across runs |
| `QueueView.dfy`, `Connection.dfy`, `ConnectionManager.dfy` | the client's queue copy and its connection |
| `ConnectionEvents.dfy` | what each event means for the page, its sockets and timers |
| `Endpoint.dfy`, `EndpointSegments.dfy` | labels as one pass; labels against whole path segments |
| `Backoff.dfy`, `DatabaseRetry.dfy` | delays |
| `Results.dfy`, `Sequences.dfy` | shared helpers |

The modules named after meanings, owners and events state what an operation does without
the functions that compute it: by position of a column, text of a setting, phase of a
socket. They are the place to check the model against the source.

A raised error is a `Refused` outcome, and a refused migration is rolled back with its
transaction. Checks that the source makes after it has begun to write (copy, row count,
restoration, key and NULL violations) are kept as refusals of their own; `BeforeWrites`
tells the others apart, so that a theorem which says `BeforeWrites` also says that none
of those late checks can fail.

Assumptions, each stated where it is used: SHA-256 is an arbitrary function, free of
collisions only in the lemmas that require `Injective`; `datetime.fromisoformat` is an
arbitrary predicate on text; `\d` is any predicate on characters that excludes `/`, `:`,
`_` and lower-case letters; a new archive id is one no manifest has (`FreshId`, the
source's `uuid4`); `Shaped` says what the database itself enforces (primary keys, no
archive rows without archive tables, sequences that start at 0 or at 1); a SQLite
rebuild may leave any sequence row, and only where nothing was captured from tables whose
sequences do not cover them does `WillCover` ask that copying the rows left after capture
into an AUTOINCREMENT table count as issuing their ids.
After an error event a browser delivers no further message on that socket. The text of
a socket close reason is reduced to whether it is one of the three token failures.

Where the code and its own comments differ, the model follows the code. The docstring of
`_backfill_legacy_project` speaks of an explicitly or unambiguously identified owner, but
a single listed project is never taken as the owner: `ProjectScope.OneProjectIsNotTheOwner`
gives the input and `ProjectScope.OwnerIsNamed` the exact condition. `normalize_endpoint`
describes itself as replacing numeric path segments, but it replaces the digits a segment
starts with, whatever follows them: `EndpointSegments.HalfASegment` gives the input and
`EndpointSegments.LabelReplacesSegments` says exactly when the two are the same.

## Model

| member | source | states |
|---|---|---|
| JsonText.TextUnique | backend/migrations/retry_archive_v1.py:82-83 | unique decodability: if two JSON texts, each followed by text that may follow a value, agree as a whole, then values and remainders agree; this is what makes nested lists of rows unambiguous |
| JsonText.TextInjective | backend/migrations/retry_archive_v1.py:82-83 | two values have the same compact text exactly when they are the same value |
| JsonText.KnownText | backend/migrations/retry_archive_v1.py:82-83 | the compact form itself on a row of a number, a text with a quote and a NULL |
| ArchiveDigests.DigestIgnoresOrder | backend/migrations/retry_archive_v1.py:86-89 | rows with distinct ids have one digest in whatever order they are read (no assumption on the hash) |
| ArchiveDigests.DigestCanonical | backend/migrations/retry_archive_v1.py:86-89 | digests of row lists with distinct ids are equal exactly when they hold the same rows, NULLs and raw text included |
| ArchiveDigests.BatchDigestBinds | backend/migrations/retry_archive_v1.py:92-98 | batch digests are equal exactly when manifest context, source table and row set all are |
| ArchiveDigests.SchemaTextsDiffer | backend/migrations/retry_archive_v1.py:101-105 | the two known schema texts differ, so a manifest says which schema it was taken under |
| ArchiveReading.ReadArchiveExact | backend/migrations/retry_archive_v1.py:324-374 | reading succeeds exactly for archives without orphans whose every pending batch is sound and whose ids are unrepeated and not live, then returns exactly the pending batches; otherwise it refuses before any write |
| ReadingMeaning.ReadMeans | backend/migrations/retry_archive_v1.py:324-374 | the same value by value: every archived row has a batch; each batch the known owner, format, target, revision and schema, rows of the right columns each with its own digest and at most the mark, as many as counted, with the bound digest; no id occurs twice or is live |
| ArchiveReading.PendingIsChecked | backend/migrations/retry_archive_v1.py:335-365 | in an accepted archive every pending manifest has been checked, with its own rows |
| ArchiveReading.ForeignBatchIsRefused | backend/migrations/retry_archive_v1.py:335-347 | one pending manifest of another owner, format, target or unknown revision makes reading refuse, whatever its digests say |
| ArchiveReading.DigestsDetermineBatch | backend/migrations/retry_archive_v1.py:335-365 | two accepted batches with the same two digests are the same batch: every manifest field, every row and row digest |
| ArchiveReading.OnlyWholeBatchesAreRead | backend/migrations/retry_archive_v1.py:324-365 | an archive whose digests all occur in an accepted one, in any order, is refused unless it consists of whole batches of that one: a changed value, row digest, count, mark, revision, schema or archive id, a row added or dropped, all make reading refuse |
| ArchiveReading.TamperingIsRefused | backend/migrations/retry_archive_v1.py:324-365 | when no digest is lost either, any change at all to manifests or rows makes reading refuse, whatever order the manifests are read in |
| ArchiveEvidence.ReadExactlyWholeBatches | backend/migrations/retry_archive_v1.py:324-374 | the converse too: with digests of an accepted archive, an archive is read exactly when it consists of whole batches of that one and no archived id is live; so with these digests a whole batch missing is all that can go unnoticed |
| ArchiveCapture.GuardExact | backend/migrations/retry_archive_v1.py:408-417 | capture gets past its checks exactly when the schema is the one of the revision, the owner marker in place, the archive readable and the live rows typed |
| ArchiveCapture.CopiedRows | backend/migrations/retry_archive_v1.py:439-448 | under an unused archive id the rows read back are the rows inserted, so the copy check cannot fail |
| ArchiveCapture.DeleteCaptured | backend/migrations/retry_archive_v1.py:452-456 | deleting the captured rows one by one always finds each of them, and leaves exactly the rows whose dates are known |
| ArchiveCapture.CaptureExact | backend/migrations/retry_archive_v1.py:408-457 | capture succeeds exactly when its guard does, with the stated closed form; the internal copy and row-count checks never fail |
| ArchiveMeaning.CaptureMeans | backend/migrations/retry_archive_v1.py:302-309 | which rows move, date by date: a live row stays exactly when both its date columns hold a text that is not the literal and that the parser accepts; every other row (NULL, an integer, the literal, an unreadable text in either) is archived once, as it was, with its digest; the manifest counts, digests and marks them; the marks and nothing else reach the sequences; nothing changes when no row has to move |
| ReadingMeaning.CaptureSucceeds | backend/migrations/retry_archive_v1.py:408-417 | with a fresh archive id capture succeeds exactly on the schema of the revision, with the marker, a good archive and rows of the right columns, all written out |
| ArchiveCapture.CaptureOfKnownIsIdentity | backend/migrations/retry_archive_v1.py:413-419 | when no row qualifies nothing changes at all: no tables, no marker, no sequence |
| ArchiveCapture.CaptureConserves | backend/migrations/retry_archive_v1.py:413-457 | live and archived rows together stay the same set (which of them stay live is ArchiveMeaning.CaptureMeans) |
| ArchiveCapture.CaptureKeepsReadable | backend/migrations/retry_archive_v1.py:253-266 | closure: whatever capture writes, under either revision and either nullability of the DLQ date, is accepted when read back |
| ArchiveRestore.RestoreBatchesExact | backend/migrations/retry_archive_v1.py:467-484 | with any number of acceptable batches every insert and every restoration check succeeds, and the live tables gain exactly the archived rows |
| ArchiveRestore.AcknowledgeLeavesMarker | backend/migrations/retry_archive_v1.py:485-487 | acknowledging removes exactly the verified batches: no row and no manifest is left but the control marker |
| ArchiveRestore.RestoreExact | backend/migrations/retry_archive_v1.py:460-487 | all or nothing: restore either refuses before its first write (wrong schema, no marker, unreadable archive) or brings back every pending batch and leaves only the marker |
| ReadingMeaning.RestoreMeans | backend/migrations/retry_archive_v1.py:460-487 | restore succeeds exactly on the nullable schema with the marker and a good archive, and then every archived row is live under its id as stored, every live row unchanged, and only the marker is left |
| MigrationMeaning.RestoreSideMeans | backend/migrations/retry_archive_v1.py:471-483 | one source of a batch goes back exactly when the table can hold its rows, their ids are free and different, and what is read back has the manifest's digest |
| MigrationMeaning.InsertMeans | backend/migrations/retry_archive_v1.py:471-477 | rows go in exactly when their ids are new and different |
| MigrationMeaning.DeleteMeans | backend/migrations/retry_archive_v1.py:452-456 | rows are deleted one by one exactly when each is there, once |
| MigrationMeaning.CopyNeedsUnusedId | backend/migrations/retry_archive_v1.py:444-448 | the copy check fails when the archive already holds rows under the id |
| ArchiveRestore.RestoreTwice | backend/migrations/retry_archive_v1.py:460-466 | a second restore changes nothing |
| ArchiveRestore.RestoreConserves | backend/migrations/retry_archive_v1.py:460-487 | after a restore the live rows are exactly what live and archived rows were before |
| ArchiveRestore.OccupiedIdIsRefused | backend/migrations/retry_archive_v1.py:366-373 | an archived row whose id is live again stops reading and restoring before any write |
| ArchiveRestore.AdvanceCovers | backend/migrations/retry_archive_v1.py:387-405 | advancing never lowers a sequence, and puts it at or past the mark and every live id, in both databases |
| MigrationMeaning.AdvanceMeans | backend/migrations/retry_archive_v1.py:387-405 | the value a sequence is advanced to is exactly the greatest of its own value, the mark, the live ids and 0 |
| MigrationMeaning.RestoreStaysWithin | backend/migrations/retry_archive_v1.py:477-484 | a restore leaves no sequence past what it had reached, the ids and the marks |
| ArchiveRestore.RestoreSequence | backend/migrations/retry_archive_v1.py:477-484 | restore leaves each sequence no lower, past the mark of every batch, and past every restored row |
| ArchiveRestore.MarkRemembers | backend/migrations/retry_archive_v1.py:430-438 | the mark a batch records covers everything issued and every id live when it was captured |
| ArchiveRestore.IdentitiesSurviveTheArchive | backend/migrations/retry_archive_v1.py:377-487 | whatever happened to the live tables and sequences since a capture (dropped and made anew included), a restore that finds its manifests puts the sequence back past every id issued before |
| TimestampMigration.RepairRemovesLiterals | backend/migrations/versions/a7b8c9d0e1f2_fix_timestamp_defaults.py:78-87 | on any rows of the four tables the repair leaves no literal in the five repaired columns and no NULL in the moved date, replaces only literals and those NULLs, and never touches a due time or another column |
| MigrationMeaning.RepairMeans | backend/migrations/versions/a7b8c9d0e1f2_fix_timestamp_defaults.py:78-87 | the repair value by value in all four tables: the literal becomes the repair time in the five columns, NULL does in the moved date, everything else stays |
| TimestampMigration.UpgradeRepairsQueue | backend/migrations/versions/a7b8c9d0e1f2_fix_timestamp_defaults.py:70-89 | after an upgrade no row of merge_requests or its history has the literal as creation date, all other dates (NULL and unreadable ones too) and columns are as before, no issued id is forgotten and the defaults are expressions |
| TimestampMigration.DowngradeKeepsQueue | backend/migrations/versions/a7b8c9d0e1f2_fix_timestamp_defaults.py:92-95 | a downgrade changes no row of the queue tables, forgets no issued id and makes the defaults the literal again |
| TimestampMigration.RoundTripOfQueue | backend/migrations/versions/a7b8c9d0e1f2_fix_timestamp_defaults.py:70-95 | down and up again give a queue table back exactly when none of its creation dates is the literal: these dates are archived nowhere |
| TimestampMigration.RepairIsNoop | backend/migrations/versions/a7b8c9d0e1f2_fix_timestamp_defaults.py:74-87 | after capture the repair finds nothing to do in retry queue and DLQ and can change only the two queue tables |
| TimestampMigration.NarrowingCannotFail | backend/migrations/versions/a7b8c9d0e1f2_fix_timestamp_defaults.py:47-53 | after capture, narrowing the DLQ date to NOT NULL meets no NULL, and all rows fit the narrow schema |
| MigrationMeaning.NarrowingMeans | backend/migrations/versions/a7b8c9d0e1f2_fix_timestamp_defaults.py:40-53 | as such the alteration fails exactly when it narrows over a row without an original date, and otherwise changes schema and defaults and no row |
| MigrationMeaning.RebuildMeans | backend/migrations/versions/a7b8c9d0e1f2_fix_timestamp_defaults.py:33-67 | a rebuilt SQLite sequence is exactly the larger of the mark and what the copy left, in all four tables; PostgreSQL sequences stay |
| TimestampMigration.UpgradeExact | backend/migrations/versions/a7b8c9d0e1f2_fix_timestamp_defaults.py:70-89 | an upgrade of any database succeeds exactly when the schema, the marker, the archive and the live rows pass capture's checks; nothing after those checks can fail |
| MigrationMeaning.UpgradeMeans | backend/migrations/versions/a7b8c9d0e1f2_fix_timestamp_defaults.py:70-89 | an upgrade succeeds exactly on a capturable database; while it repairs and rebuilds only rows whose dates can be read are live, and it ends with everything archived back as stored |
| TimestampMigration.DowngradeExact | backend/migrations/versions/a7b8c9d0e1f2_fix_timestamp_defaults.py:92-95 | the same for a downgrade, the NOT NULL narrowing included; a DLQ date that is already NOT NULL is refused as a schema of the wrong revision |
| MigrationMeaning.DowngradeMeans | backend/migrations/versions/a7b8c9d0e1f2_fix_timestamp_defaults.py:92-95 | a downgrade succeeds exactly on a capturable nullable database and leaves the old runtime exactly the rows whose dates can be read, the others archived as they were |
| TimestampMigration.TamperedArchiveStops | backend/migrations/versions/a7b8c9d0e1f2_fix_timestamp_defaults.py:70-95 | neither direction gets past an archive that is not made of whole batches, and both stop before their first write |
| TimestampMigration.DowngradeReady | backend/migrations/versions/a7b8c9d0e1f2_fix_timestamp_defaults.py:92-95 | a downgrade of a ready database succeeds and is ready again; the old runtime sees exactly the rows with known dates and no row is lost |
| TimestampMigration.UpgradeReady | backend/migrations/versions/a7b8c9d0e1f2_fix_timestamp_defaults.py:70-89 | an upgrade of a ready database succeeds; every row is live, nothing is pending, only the marker stays |
| TimestampMigration.UpgradeKeeps | backend/migrations/versions/a7b8c9d0e1f2_fix_timestamp_defaults.py:40-89 | per table, an upgrade keeps the rows, lowers no sequence, and ends with every live id covered if anything was captured, or the sequence covered its rows before, or the rebuild issues the ids of the rows it copies, which are those with known dates |
| TimestampMigration.CapturedUpgradeCovers | backend/migrations/versions/a7b8c9d0e1f2_fix_timestamp_defaults.py:70-89 | if anything was captured both sequences end past every id of their tables, whatever the rebuilds leave behind: no assumption on SQLite is needed |
| TimestampMigration.RoundTrip | backend/migrations/versions/a7b8c9d0e1f2_fix_timestamp_defaults.py:70-95 | downgrade then upgrade with no writes between gives back the original tables id by id and value by value, no pending batch, the marker if anything was ever archived, no sequence lowered |
| MigrationRuns.StepKeeps | backend/migrations/retry_archive_v1.py:324-487 | the invariant over runs (live and archived rows are the ledger, every id issued is at most the sequence, the archive is acceptable) is kept by every migration, interruption, insert, edit and delete, and none of them fails |
| MigrationRuns.RunIsSafe | backend/migrations/retry_archive_v1.py:324-487 | no run of any length gets stuck: every migration in it succeeds |
| MigrationRuns.RunsMayStart | backend/migrations/versions/a7b8c9d0e1f2_fix_timestamp_defaults.py:70-95 | any well-typed database at either revision, in either nullability of the older one, with nothing archived and its ids covered by its sequences, is a start of such runs, with or without the marker, and with whatever ids its sequences issued for rows deleted since |
| MigrationRuns.HeadShowsLedger | backend/migrations/versions/a7b8c9d0e1f2_fix_timestamp_defaults.py:70-95 | at the newer revision the tables equal the ledger: no history of migrations loses, changes or invents a row |
| MigrationRuns.AnyRunShowsLedger | backend/migrations/versions/a7b8c9d0e1f2_fix_timestamp_defaults.py:70-95 | both together from a concrete start at either revision: any run succeeds and, when it ends at the newer revision, the tables are what they would be without migrations |
| MigrationRuns.AnyRunIssuesNewIds | backend/migrations/retry_archive_v1.py:377-405 | from the same starts, no run issues an id again that was ever issued before it or in it, ids of deleted rows included |
| MigrationRuns.FirstUpgrade | backend/migrations/versions/a7b8c9d0e1f2_fix_timestamp_defaults.py:40-89 | the upgrade of a database still at the older revision, SQLite tables without a sequence row included, succeeds, gives back the very tables it found and establishes the invariant over runs; a rebuild is assumed to issue the ids it copies only where nothing was captured and the sequence did not cover the rows |
| MigrationRuns.FirstUpgradeOfUnknownDates | backend/migrations/versions/a7b8c9d0e1f2_fix_timestamp_defaults.py:40-89 | with a row of unknown date in either table the same holds with no assumption on sequences or rebuilds: also where that row has the highest id and no sequence row existed |
| MigrationRuns.RunFromFirstUpgrade | backend/migrations/versions/a7b8c9d0e1f2_fix_timestamp_defaults.py:40-95 | so any run that begins with that first upgrade succeeds, shows the ledger too, and issues no id again |
| MigrationRuns.NoIdentityIsReused | backend/migrations/retry_archive_v1.py:377-405 | over a whole run the ids given to new rows strictly increase and exceed every id ever issued, although capture deletes rows and rebuilds may reset the sequence |
| MigrationMeaning.NextIdMeans | backend/migrations/retry_archive_v1.py:377-384 | where a sequence covers its table the next id is exactly one past the last issued |
| MigrationRuns.IdentitiesStayApart | backend/migrations/retry_archive_v1.py:366-373 | in every reachable state live and archived ids are disjoint and all were issued |
| MigrationBind.Bind.ReadBatches | backend/migrations/retry_archive_v1.py:335-365 | the loop over manifests returns the batches, or the first refusal, that the specification gives |
| MigrationBind.Bind.ReadArchive | backend/migrations/retry_archive_v1.py:324-374 | the whole reading, orphans, repeats and collisions included, without changing anything |
| MigrationBind.Bind.Advance | backend/migrations/retry_archive_v1.py:387-405 | the sequence of one table is advanced as AdvanceCovers needs, the other untouched |
| MigrationBind.Bind.CopyToArchive | backend/migrations/retry_archive_v1.py:439-448 | rows are added to one archive table and read back for the copy check |
| MigrationBind.Bind.DeleteRows | backend/migrations/retry_archive_v1.py:452-456 | rows leave one live table one at a time, refusing at the first that is not there |
| MigrationBind.Bind.StoreCaptured | backend/migrations/retry_archive_v1.py:420-457 | the marker, the bound manifest, the copies, the deletions and the advances together, as CaptureExact describes them |
| MigrationBind.Bind.Capture | backend/migrations/retry_archive_v1.py:408-457 | capture in place, and no change at all when its checks refuse |
| MigrationBind.Bind.InsertRows | backend/migrations/retry_archive_v1.py:471-477 | rows enter one live table, refusing at the first whose id is taken |
| MigrationBind.Bind.RestoreSource | backend/migrations/retry_archive_v1.py:468-484 | one source of one batch: insert, read back, compare with the batch digest, advance |
| MigrationBind.Bind.AcknowledgeAll | backend/migrations/retry_archive_v1.py:485-487 | archive rows and manifests of the given batches are removed in place |
| MigrationBind.Bind.Restore | backend/migrations/retry_archive_v1.py:460-487 | restore in place, as RestoreExact describes it |
| MigrationBind.Bind.Repair | backend/migrations/versions/a7b8c9d0e1f2_fix_timestamp_defaults.py:78-87 | the UPDATE statements on the four tables, in their order |
| MigrationBind.Bind.AlterDefaults | backend/migrations/versions/a7b8c9d0e1f2_fix_timestamp_defaults.py:40-67 | the four rebuilds with arbitrary sequence resets, nullability and defaults switched, then the marks taken before put back as lower bounds |
| MigrationBind.Bind.Upgrade | backend/migrations/versions/a7b8c9d0e1f2_fix_timestamp_defaults.py:70-89 | the upgrade in place, and no change when the archive or the rows are refused |
| MigrationBind.Bind.Downgrade | backend/migrations/versions/a7b8c9d0e1f2_fix_timestamp_defaults.py:92-95 | the downgrade in place, likewise |
| MigrationBind.Bind.RunMigrations | backend/migrations/env.py:154-174 | one migration in its transaction: it commits exactly on a capturable database, with the specified result, and otherwise leaves the database as it was, PostgreSQL sequences included |
| QueueIdentity.MaxRowIsMax | backend/migrations/env.py:129-129 | the mark taken before a run is the maximum over the queue's sequence rows, and absent exactly when there are none |
| QueueIdentity.Connection.QueueHighWater | backend/migrations/env.py:125-129 | reading that mark: only on SQLite, and only if the sequence table exists |
| QueueIdentity.Connection.RestoreQueueHighWater | backend/migrations/env.py:132-151 | with a mark and AUTOINCREMENT every sequence row of the queue ends at exactly the larger of its value and the mark, a missing row is made at the mark; otherwise nothing happens |
| QueueIdentity.Connection.RunMigrations | backend/migrations/env.py:154-174 | without a sequence row before the run, or without AUTOINCREMENT after it, the run ends with what the migrations left; otherwise each row they left ends at exactly the larger of its value and the greatest value before, and if they left none there is one at that value |
| QueueIdentity.RaisedForgetsNothing | backend/migrations/env.py:132-151 | so every value before the run and every value the migrations left stays covered, and no value is invented |
| ProjectScope.WideningKeepsUnique | backend/migrations/versions/f1a2b3c4d5e6_add_project_id_column.py:86-120 | with the constant project 0 the wide key is unique exactly when the narrow one was |
| ProjectScope.WidenThenBackfill | backend/migrations/versions/f1a2b3c4d5e6_add_project_id_column.py:81-120 | widening and then backfilling keeps the wide key unique, gives every row the owner and changes nothing else |
| ProjectScope.BackfillKeepsUnique | backend/migrations/versions/c3d7f1a8b902_project_scope_webhook_retries.py:162-177 | the backfill keeps (project, key) unique for any owner |
| ProjectScope.UniqueThroughout | backend/migrations/versions/c3d7f1a8b902_project_scope_webhook_retries.py:165-177 | the key is unique at every moment of the UPDATE too, whichever rows have been visited in whatever order, so the constraint never stops it |
| ProjectScope.BackfillLeavesConflicts | backend/migrations/versions/c3d7f1a8b902_project_scope_webhook_retries.py:162-177 | project 0 rows remain exactly when some key is held both by project 0 and by the owner |
| ProjectScope.AnyOrderSameTable | backend/migrations/versions/c3d7f1a8b902_project_scope_webhook_retries.py:165-177 | the UPDATE row by row in place, in any order, with later rows seeing earlier changes, gives the table that a snapshot gives |
| ProjectScope.UniqueKeyIsNeeded | backend/migrations/versions/c3d7f1a8b902_project_scope_webhook_retries.py:165-177 | without the unique key that would be false: two ownerless rows of one key |
| ProjectScope.GetIsLast | backend/migrations/versions/c3d7f1a8b902_project_scope_webhook_retries.py:125-130 | of repeated keys in a project entry the last one counts |
| ProjectScope.OwnerIsNamed | backend/migrations/versions/c3d7f1a8b902_project_scope_webhook_retries.py:112-142 | the owner is never guessed: it is a positive configured id, listed in the projects when those are set; resolving fails exactly when the list is unusable or rows need an owner nobody named |
| ProjectOwner.ResolvedOwner | backend/migrations/versions/c3d7f1a8b902_project_scope_webhook_retries.py:87-142 | in terms of the settings: n is resolved exactly when n is positive, the legacy text parses to n, and, if a list is set, some listed object has n (as number, parsable text or true) as its last project_id; each refusal and the absent owner have their exact conditions |
| ProjectOwner.NoIdNoOwner | backend/migrations/versions/c3d7f1a8b902_project_scope_webhook_retries.py:112-122 | a missing, unreadable or non-positive legacy id never becomes an owner, and is refused while a row needs one |
| ProjectOwner.BackfillWithOwner | backend/migrations/versions/c3d7f1a8b902_project_scope_webhook_retries.py:145-183 | with the owner n the settings give, the backfill refuses exactly when a project 0 row and a row of n share a key, and otherwise exactly the project 0 rows become rows of n |
| ProjectScope.OneProjectIsNotTheOwner | backend/migrations/versions/c3d7f1a8b902_project_scope_webhook_retries.py:134-141 | a single listed project does not own the ownerless rows: without a legacy id the step refuses |
| ProjectScope.BackfillRefusesExactly | backend/migrations/versions/c3d7f1a8b902_project_scope_webhook_retries.py:145-183 | the three conditions, together necessary and sufficient, under which the step refuses |
| ProjectScope.BackfillAssignsAll | backend/migrations/versions/c3d7f1a8b902_project_scope_webhook_retries.py:145-183 | if it returns, no scoped table has a project 0 row, each went to the named owner, and all other rows and columns are unchanged |
| ProjectScope.UpgradeAssignsAll | backend/migrations/versions/c3d7f1a8b902_project_scope_webhook_retries.py:186-192 | the whole upgrade against the tables it started from: both retry tables end scoped, made empty if missing; every row of a scoped table is in place, of the named owner if it had no project and unchanged otherwise; other tables stay |
| ProjectScope.IdKeyedNeverConflicts | backend/migrations/versions/c3d7f1a8b902_project_scope_webhook_retries.py:154-161 | the tables keyed by their own id never cause a refusal |
| ProjectScope.Migration.WidenKeys | backend/migrations/versions/f1a2b3c4d5e6_add_project_id_column.py:81-120 | succeeds exactly when each of the four tables it alters had a unique narrow key; then those four have the rows they had, in place and unchanged but for project 0, and every other table is untouched |
| ProjectScope.WidenThenUpgrade | backend/migrations/versions/f1a2b3c4d5e6_add_project_id_column.py:81-120 | both revisions against the rows they started from: every row keeps its place and columns and has a project, its own or the named owner's |
| ProjectScope.Migration.RunBothRevisions | backend/migrations/versions/c3d7f1a8b902_project_scope_webhook_retries.py:186-192 | the two revisions in place, one after the other, with that result |
| ProjectScope.Migration.HasUnassignedRows | backend/migrations/versions/c3d7f1a8b902_project_scope_webhook_retries.py:95-109 | true exactly when some scoped table has a project 0 row |
| ProjectScope.Migration.ResolveOwner | backend/migrations/versions/c3d7f1a8b902_project_scope_webhook_retries.py:112-142 | resolves as OwnerIsNamed describes, without changing a table |
| ProjectScope.Migration.BackfillRows | backend/migrations/versions/c3d7f1a8b902_project_scope_webhook_retries.py:145-183 | the loop of UPDATE statements over the tables gives the state BackfillAssignsAll is about, or its refusal |
| ProjectScope.Migration.RunUpgrade | backend/migrations/versions/c3d7f1a8b902_project_scope_webhook_retries.py:186-192 | the upgrade in place: both retry tables scoped first, then the backfill |
| QueueView.HandleIsExpected | frontend/src/hooks/useWebSocket.ts:56-98 | one event takes the expected copy for a history to the expected copy for the longer history |
| QueueView.CopyIsExpected | frontend/src/hooks/useWebSocket.ts:56-98 | after any events the copy is the last matching snapshot, in order, minus the merge requests completed since, each with its latest status since |
| QueueView.ForeignMessagesDoNotMatter | frontend/src/hooks/useWebSocket.ts:56-98 | dropping every event of another project from the history changes nothing |
| Connection.StepKeeps | frontend/src/api/websocket.ts:119-268 | every browser event, timer and hook call keeps the invariant: an armed timer means no socket; a socket that can still call back is the manager's own, for the active project, not intentionally closed |
| Connection.AlwaysFine | frontend/src/api/websocket.ts:119-268 | the invariant holds after every sequence of events from the start |
| Connection.NewSocketOnlyWhenFree | frontend/src/api/websocket.ts:119-149 | a step opens at most one socket, only when asked to by the interface or by a timer that fires while there is none: connect never abandons a live socket |
| Connection.ConnectIsFine | frontend/src/api/websocket.ts:119-149 | connect under the hook's discipline leads into the invariant, and opens a socket exactly when a token is present |
| Connection.DisconnectQuiets | frontend/src/api/websocket.ts:155-170 | after disconnect no socket can call back, no timer is armed, and the hook has been told |
| Connection.QuietUntilAsked | frontend/src/api/websocket.ts:155-170 | once quiet, no sequence of browser events opens a socket until the interface asks |
| Connection.PolicyCloseIsFinal | frontend/src/api/websocket.ts:194-209 | after a 1008 close nothing reconnects until asked, and the token goes exactly for a token failure |
| Connection.HidingIsFinal | frontend/src/hooks/useWebSocket.ts:142-149 | after the effect's cleanup nothing reconnects until asked |
| Connection.LostConnectionIsRetried | frontend/src/api/websocket.ts:211-258 | any other close arms exactly one timer, for the same project, with the delay for the failures so far |
| Connection.PageShowsExpected | frontend/src/hooks/useWebSocket.ts:108-160 | in every reachable state the page shows the expected copy and the manager's state; synchronized implies connected with a matching snapshot received on this very socket |
| ConnectionEvents.PageShowsWhatWasSent | frontend/src/hooks/useWebSocket.ts:56-150 | over any run, against the events alone: a page is subscribed exactly while a project is shown; its copy is what the messages delivered since make of it; it is synchronized exactly when connected through the socket that brought the last snapshot for that project |
| ConnectionEvents.ShowOpensSocket | frontend/src/hooks/useWebSocket.ts:108-140 | showing a project with a token opens one new socket for it, whatever was there before, and the page starts empty and connecting |
| ConnectionEvents.ShowWithoutToken | frontend/src/hooks/useWebSocket.ts:108-140 | without a token none is opened and nothing armed |
| ConnectionEvents.ReconnectOpensSocket | frontend/src/hooks/useWebSocket.ts:101-106 | asking to reconnect opens one new socket for the project on screen and keeps its copy |
| ConnectionEvents.ReconnectWithoutToken | frontend/src/api/websocket.ts:133-137 | without a token it ends in the error state with nothing open or armed |
| ConnectionEvents.LeavingCloses | frontend/src/api/websocket.ts:155-170 | leaving a page, showing another or reconnecting closes the socket there was, handlers removed first, and touches no other |
| ConnectionEvents.OpenMeans | frontend/src/api/websocket.ts:186-189 | the own socket opens: connected, counter at 0, not synchronized yet |
| ConnectionEvents.FailMeans | frontend/src/api/websocket.ts:225-227 | it fails: the error state, no longer synchronized, the socket kept until it closes |
| ConnectionEvents.PolicyCloseMeans | frontend/src/api/websocket.ts:194-209 | it closes with 1008: the error state, no timer, the token gone exactly for a token failure |
| ConnectionEvents.LossMeans | frontend/src/api/websocket.ts:211-258 | it closes otherwise: disconnected, one timer with the wait for the losses so far, one loss more |
| ConnectionEvents.TimerMeans | frontend/src/api/websocket.ts:254-257 | the timer fires: a new socket for the project on screen, or the error state without a token |
| ConnectionEvents.MessageMeans | frontend/src/hooks/useWebSocket.ts:129-137 | a message of the open socket reaches the page, and a snapshot for its project synchronizes it |
| ConnectionEvents.StrayEventsDoNothing | frontend/src/api/websocket.ts:160-167 | events of sockets that were let go change nothing but those sockets |
| Connection.AskingResets | frontend/src/api/websocket.ts:119-124 | a call by the interface that leaves a project active starts counting failures anew, and opens a socket exactly when a token is present |
| Connection.OpeningResets | frontend/src/api/websocket.ts:186-189 | a successful open starts counting failures anew, without closing or opening anything else |
| Connection.AttemptsAreFailures | frontend/src/api/websocket.ts:186-258 | over any run, with errors, messages, token changes and late closes of abandoned sockets in between, the manager's counter is, while a project is active, the number of losses of its own socket since that last opened or the interface last asked |
| Connection.WaitsDouble | frontend/src/api/websocket.ts:244-258 | after any events since page load, the next loss arms exactly one timer, of min(1000 * 2^n, 30000) milliseconds for n such losses before it |
| Connection.KeptReconnectExact | frontend/src/hooks/useWebSocket.ts:101-106 | the reconnect callback itself keeps the invariant exactly when called for the project on screen; kept past unmount it opens a socket nobody listens to |
| ConnectionManager.WebSocketManager.Deliver | frontend/src/api/websocket.ts:119-268 | one browser event or hook call on the objects, handlers called only while attached, takes them exactly where the step system says |
| ConnectionManager.WebSocketManager.DeliverAll | frontend/src/api/websocket.ts:119-268 | so the objects keep the invariant through any events, and end where the run of the step system ends |
| ConnectionManager.PageLoad | frontend/src/hooks/useWebSocket.ts:108-150 | from newly made objects on, which is where every theorem about runs from the start applies |
| Endpoint.SubExtendsPass | backend/src/gitlab_queue/metrics.py:149-153 | one more substitution after a single pass over some patterns is a single pass over one more pattern |
| Endpoint.NormalizeIsPass | backend/src/gitlab_queue/metrics.py:129-154 | the five substitutions in sequence are one simultaneous pass |
| Endpoint.AnyOrderSameLabel | backend/src/gitlab_queue/metrics.py:149-153 | they commute: every order gives the same label |
| Endpoint.NormalizeIdempotent | backend/src/gitlab_queue/metrics.py:129-154 | normalizing a label changes nothing |
| Endpoint.LabelHasNoIds | backend/src/gitlab_queue/metrics.py:129-154 | nowhere in a label is a listed segment followed by a digit |
| Endpoint.NumbersDoNotMatter | backend/src/gitlab_queue/metrics.py:129-154 | endpoints that differ only in the number after a listed segment, anywhere in the text, get the same label |
| EndpointSegments.LabelReplacesSegments | backend/src/gitlab_queue/metrics.py:129-154 | the label is the endpoint with whole numeric segments after listed ones replaced, segment by segment, exactly when no listed segment is followed by one that starts with a digit and is not a number |
| EndpointSegments.FiveSegments | backend/src/gitlab_queue/metrics.py:149-153 | the five segments and their placeholders by name, for any number and any rest of the segment |
| EndpointSegments.NoIdsNoChange | backend/src/gitlab_queue/metrics.py:149-153 | an endpoint without a digit after any of the five stays as it is |
| EndpointSegments.HalfASegment | backend/src/gitlab_queue/metrics.py:146-152 | otherwise it is not: /jobs/1b is labelled /jobs/:idb |
| Backoff.DelayDoubles | backend/src/gitlab_queue/main.py:184-184 | doubling under a cap, step by step, is the closed form min(base * 2^k, max), which stays between base and max and never shrinks |
| Backoff.DelaysGrow | backend/src/gitlab_queue/main.py:153-184 | delays never decrease however many failures lie between |
| DatabaseRetry.ValidateDatabaseSettings | backend/src/gitlab_queue/config.py:683-698 | errors found before stay, exactly the broken bounds are added, and none exactly when 0 < base <= max |
| DatabaseRetry.InitializeWithRetry | backend/src/gitlab_queue/main.py:134-184 | the loop: the k-th sleep is min(base * 2^k, max), one sleep per failure before the first at which shutdown was requested, cancelled exactly then |

## Left out

- Inspection of the database catalog (relations, TEMP shadows, triggers, rewrite rules, references, inheritance, column shapes, an incomplete set of archive tables): taken to have succeeded; the nullability of the DLQ date it reads is a field of the state.
- Values of other storage classes that SQLite would accept in a column (BLOB, REAL): a value is NULL, an integer or text.
- UTF-8 encoding before hashing, folded into the hash; the hash itself.
- PostgreSQL's upper limit on sequence values; sequence values are unbounded integers.
- MigrationRuns.RunIsSafe: runs stay at the a7/f6 boundary; a downgrade to `base`, which drops the live tables, is covered only by ArchiveRestore.IdentitiesSurviveTheArchive, since the repository promises no more there.
- MigrationRuns.RunFromFirstUpgrade: writes to SQLite tables that are not AUTOINCREMENT yet, before the first upgrade, are not steps of a run, since SQLite itself may issue an id again there; whatever tables they leave are a start of the run.
- MigrationRuns.StepKeeps: writes to merge_requests and its history are not steps of a run; the migrations' effect on these tables is stated per migration.
- ArchiveReading.OnlyWholeBatchesAreRead: a whole batch removed with its manifest and all its rows goes unnoticed, since no digest binds one batch to another; ArchiveEvidence.ReadExactlyWholeBatches proves that nothing else does while the digests are those of an accepted archive.
- MigrationBind.Bind.Restore: the loop over the two sources is written as two calls.
- ArchiveCapture.CaptureExact: the archive id is a parameter assumed fresh, in place of `uuid4`.
- ProjectScope.Migration.RunUpgrade: indexes, column defaults and the other columns of a newly made table are not modelled; a missing retry table becomes an empty scoped one.
- ProjectScope.OwnerIsNamed: `int()` on text is an arbitrary function, and a JSON document holds no fractions.
- The downgrades of the project-scope revisions, which only drop columns and indexes.
- Connection.ConnectIsFine: a direct call of connect outside the hook's discipline (the same project with a timer pending or a closing socket) is excluded; more than one mounted hook, listener sets, URL building, JSON parsing of messages and batching of state updates by the renderer are not modelled.
- Connection.StepKeeps: a reconnect requested after the page is gone is no event of the runs; Connection.KeptReconnectExact says what such a call of a kept callback does.
- DatabaseRetry.InitializeWithRetry: delays are whole seconds, so floating-point rounding is not modelled; the unbounded loop is given as any finite list of failures before the database answers.
- Messages of errors and log entries.
- The merge queue engine, its processor, state machine, retry manager, scheduler and circuit breaker are not part of this model; neither are the web pages, authentication, API wrappers, health checks and gauges, which would add only one-branch facts.

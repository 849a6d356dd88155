/**
 The revision step between f6a7b8c9d0e1 and a7b8c9d0e1f2: capture, date repair,
 table rebuilds and restore composed, in both directions.
 */
module TimestampMigration {
  import opened Results
  import opened Sequences
  import Backoff
  import opened RetryArchive
  import opened ArchiveDigests
  import opened ArchiveReading
  import opened ArchiveCapture
  import opened ArchiveRestore

  const LITERAL := Str("CURRENT_TIMESTAMP")

  // UPDATE t SET column = repaired WHERE column = target
  function RepairColumn(t: Table, column: nat, target: Value, repaired: Value): Table {
    map id | id in t :: if column < |t[id]| && t[id][column] == target then t[id][column := repaired] else t[id]
  }

  // The same UPDATE on created_at of a queue table.
  function RepairRows(rows: map<int, QueueRow>, repaired: Value): map<int, QueueRow> {
    map id | id in rows :: if rows[id].createdAt == LITERAL then rows[id].(createdAt := repaired) else rows[id]
  }

  function RepairQueue(q: Queue, repaired: Value): Queue {
    q.(requests := q.requests.(rows := RepairRows(q.requests.rows, repaired)),
       history := q.history.(rows := RepairRows(q.history.rows, repaired)))
  }

  function Repair(db: Db, repairedAt: string): Db {
    var now := Str(repairedAt);
    var retry := RepairColumn(db.live.retry, RETRY_CREATED, LITERAL, now);
    var moved := RepairColumn(db.live.dlq, MOVED_TO_DLQ, LITERAL, now);
    var original := RepairColumn(moved, ORIGINAL_CREATED, LITERAL, now);
    db.(queue := RepairQueue(db.queue, now),
        live := Pair(retry, RepairColumn(original, MOVED_TO_DLQ, Null, now)))
  }

  // What the rebuild of each table leaves of its row in sqlite_sequence.
  datatype Resets = Resets(retry: Option<int>, dlq: Option<int>, requests: Option<int>, history: Option<int>) {
    function At(s: Source): Option<int> {
      if s == Retry then retry else dlq
    }
  }

  // A SQLite rebuild leaves whatever sequence row the copied table brings; the
  // mark taken before is then put back as a lower bound. PostgreSQL alters in place.
  function Rebuilt(q: Sequence, reset: Option<int>): Sequence {
    match q
    case Postgres(_, _) => q
    case Sqlite(_) =>
      var previous := Issued(q);
      Sqlite(Some(Backoff.Max(if reset.Some? then reset.value else previous, previous)))
  }

  function RebuiltQueue(q: Queue, reset: Resets): Queue {
    q.(requests := q.requests.(sequence := Rebuilt(q.requests.sequence, reset.requests)),
       history := q.history.(sequence := Rebuilt(q.history.sequence, reset.history)))
  }

  // All four tables altered.
  function AlterTables(db: Db, executable: bool, reset: Resets): Db {
    db.(dlqNullable := executable,
        literalDefaults := !executable,
        queue := RebuiltQueue(db.queue, reset),
        sequence := Pair(Rebuilt(db.sequence.retry, reset.retry), Rebuilt(db.sequence.dlq, reset.dlq)))
  }

  predicate MissingOriginal(row: Row) {
    ORIGINAL_CREATED < |row| && row[ORIGINAL_CREATED] == Null
  }

  function AlterDefaults(db: Db, executable: bool, reset: Resets): Outcome<Db> {
    if !executable && exists id :: id in db.live.dlq && MissingOriginal(db.live.dlq[id]) then
      Refused(NullViolation)
    else
      Ok(AlterTables(db, executable, reset))
  }

  function Upgrade(e: Env, db: Db, archiveId: string, repairedAt: string, reset: Resets): Outcome<Db> {
    var captured :- Capture(e, db, PREVIOUS, archiveId);
    var altered :- AlterDefaults(Repair(captured, repairedAt), true, reset);
    var restored :- Restore(e, altered);
    Ok(restored.(revision := HEAD))
  }

  function Downgrade(e: Env, db: Db, archiveId: string, reset: Resets): Outcome<Db> {
    var captured :- Capture(e, db, HEAD, archiveId);
    var altered :- AlterDefaults(captured, false, reset);
    Ok(altered.(revision := PREVIOUS))
  }

  // Whether the repair may have changed a value.
  ghost predicate Repairable(v: Value) {
    v == LITERAL || v == Null
  }

  ghost predicate RepairedRow(before: Row, after: Row, now: Value) {
    |after| == |before| && forall k :: 0 <= k < |before| ==> after[k] == before[k] || (Repairable(before[k]) && after[k] == now)
  }

  ghost predicate RepairedRetry(before: Row, after: Row, now: Value) {
    && RepairedRow(before, after, now)
    && |after| == |Columns(Retry, true)|
    && after[RETRY_CREATED] != LITERAL
    && after[NEXT_ATTEMPT] == before[NEXT_ATTEMPT]
  }

  ghost predicate RepairedDlq(before: Row, after: Row, now: Value) {
    && RepairedRow(before, after, now)
    && |after| == |Columns(Dlq, true)|
    && after[ORIGINAL_CREATED] != LITERAL
    && (before[ORIGINAL_CREATED] == Null ==> after[ORIGINAL_CREATED] == Null)
    && !Repairable(after[MOVED_TO_DLQ])
  }

  lemma RepairedRetryRow(t: Table, id: int, now: Value)
    requires id in t && |t[id]| == 9 && now != LITERAL
    ensures RepairedRetry(t[id], RepairColumn(t, RETRY_CREATED, LITERAL, now)[id], now)
  {
  }

  lemma RepairedDlqRow(t: Table, id: int, now: Value)
    requires id in t && |t[id]| == 8 && !Repairable(now)
    ensures var original := RepairColumn(RepairColumn(t, MOVED_TO_DLQ, LITERAL, now), ORIGINAL_CREATED, LITERAL, now);
      RepairedDlq(t[id], RepairColumn(original, MOVED_TO_DLQ, Null, now)[id], now)
  {
    var row := t[id];
    var moved := if row[MOVED_TO_DLQ] == LITERAL then row[MOVED_TO_DLQ := now] else row;
    var original := if moved[ORIGINAL_CREATED] == LITERAL then moved[ORIGINAL_CREATED := now] else moved;
    assert RepairColumn(t, MOVED_TO_DLQ, LITERAL, now)[id] == moved;
    assert RepairColumn(RepairColumn(t, MOVED_TO_DLQ, LITERAL, now), ORIGINAL_CREATED, LITERAL, now)[id] == original;
  }

  // The same rows, none with the literal; only created_at of those that had it changed.
  ghost predicate RepairedRows(before: map<int, QueueRow>, after: map<int, QueueRow>, now: Value) {
    && (forall id :: id in after <==> id in before)
    && forall id :: id in before && id in after ==>
         && after[id].createdAt != Str("CURRENT_TIMESTAMP")
         && after[id].others == before[id].others
         && after[id].createdAt == if before[id].createdAt == Str("CURRENT_TIMESTAMP") then now else before[id].createdAt
  }

  /**
   On any rows the repair leaves no literal in the five repaired columns and no NULL
   in moved_to_dlq_at; only literals and, in that column, NULLs are ever replaced, only
   by the repair time, and the due time of a retry never.
   */
  lemma RepairRemovesLiterals(db: Db, repairedAt: string)
    requires repairedAt != "CURRENT_TIMESTAMP"
    requires forall id :: id in db.live.retry ==> |db.live.retry[id]| == |Columns(Retry, true)|
    requires forall id :: id in db.live.dlq ==> |db.live.dlq[id]| == |Columns(Dlq, true)|
    ensures Repair(db, repairedAt) == db.(live := Repair(db, repairedAt).live, queue := RepairQueue(db.queue, Str(repairedAt)))
    ensures RepairedRows(db.queue.requests.rows, Repair(db, repairedAt).queue.requests.rows, Str(repairedAt))
    ensures RepairedRows(db.queue.history.rows, Repair(db, repairedAt).queue.history.rows, Str(repairedAt))
    ensures forall id :: id in Repair(db, repairedAt).live.retry <==> id in db.live.retry
    ensures forall id :: id in Repair(db, repairedAt).live.dlq <==> id in db.live.dlq
    ensures forall id :: id in db.live.retry ==>
      RepairedRetry(db.live.retry[id], Repair(db, repairedAt).live.retry[id], Str(repairedAt))
    ensures forall id :: id in db.live.dlq ==>
      RepairedDlq(db.live.dlq[id], Repair(db, repairedAt).live.dlq[id], Str(repairedAt))
  {
    var now := Str(repairedAt);
    forall id | id in db.live.retry
      ensures RepairedRetry(db.live.retry[id], Repair(db, repairedAt).live.retry[id], now)
    {
      RepairedRetryRow(db.live.retry, id, now);
    }
    forall id | id in db.live.dlq
      ensures RepairedDlq(db.live.dlq[id], Repair(db, repairedAt).live.dlq[id], now)
    {
      RepairedDlqRow(db.live.dlq, id, now);
    }
  }

  // ---------- after capture: repair and narrowing ----------

  // All dates known, and rows as wide as the table.
  ghost predicate AllKnown(e: Env, s: Source, t: Table) {
    forall id :: id in t ==> |t[id]| == |Columns(s, true)| && !HasUnknown(e, s, t[id])
  }

  lemma NothingToRepair(e: Env, s: Source, t: Table, column: nat, target: Value, repaired: Value)
    requires AllKnown(e, s, t) && (column == Dates(s).0 || column == Dates(s).1)
    requires target == LITERAL || target == Null
    ensures RepairColumn(t, column, target, repaired) == t
  {
    forall id | id in t ensures RepairColumn(t, column, target, repaired)[id] == t[id] {
      assert !Unknown(e, t[id][column]);
    }
    assert forall id :: id in t <==> id in RepairColumn(t, column, target, repaired);
    assert forall id :: id in t ==> t[id] == RepairColumn(t, column, target, repaired)[id];
  }

  /**
   Once capture has run, the date repair finds nothing to repair in retry queue and
   DLQ: it can change only the two queue tables.
   */
  lemma RepairIsNoop(e: Env, db: Db, repairedAt: string)
    requires AllKnown(e, Retry, db.live.retry) && AllKnown(e, Dlq, db.live.dlq)
    ensures Repair(db, repairedAt) == db.(queue := RepairQueue(db.queue, Str(repairedAt)))
  {
    var now := Str(repairedAt);
    NothingToRepair(e, Retry, db.live.retry, RETRY_CREATED, LITERAL, now);
    NothingToRepair(e, Dlq, db.live.dlq, MOVED_TO_DLQ, LITERAL, now);
    NothingToRepair(e, Dlq, db.live.dlq, ORIGINAL_CREATED, LITERAL, now);
    NothingToRepair(e, Dlq, db.live.dlq, MOVED_TO_DLQ, Null, now);
  }

  lemma KnownRowNarrows(e: Env, row: Row)
    requires TypedRow(Dlq, row, true) && !HasUnknown(e, Dlq, row)
    ensures TypedRow(Dlq, row, false) && !MissingOriginal(row)
  {
    assert !Unknown(e, row[ORIGINAL_CREATED]);
    var narrow := Columns(Dlq, false);
    forall i | 0 <= i < |row| ensures TypedValue(row[i], narrow[i]) {
      assert TypedValue(row[i], Columns(Dlq, true)[i]);
    }
  }

  /** Once capture has run, narrowing original_created_at cannot meet a NULL. */
  lemma NarrowingCannotFail(e: Env, db: Db, reset: Resets)
    requires AllKnown(e, Dlq, db.live.dlq) && TypedTable(Dlq, db.live.dlq, true)
    ensures AlterDefaults(db, false, reset).Ok?
    ensures TypedTable(Dlq, db.live.dlq, false)
  {
    forall id | id in db.live.dlq
      ensures TypedRow(Dlq, db.live.dlq[id], false) && !MissingOriginal(db.live.dlq[id])
    {
      KnownRowNarrows(e, db.live.dlq[id]);
    }
  }

  // ---------- states between migrations ----------

  ghost predicate Ready(e: Env, db: Db) {
    && Shaped(db)
    && (db.revision == HEAD || db.revision == PREVIOUS)
    && (db.revision == HEAD ==> db.dlqNullable)
    && CheckMarker(e, db).Ok?
    && Acceptable(e, db)
    && TypedTable(Retry, db.live.retry, db.dlqNullable)
    && TypedTable(Dlq, db.live.dlq, db.dlqNullable)
  }

  lemma ReadyCanCapture(e: Env, db: Db)
    requires Ready(e, db)
    ensures CanCapture(e, db, db.revision)
  {
    PreviousIsNotHead();
  }

  // Reading the archive does not look at sequences, nullability or revision.
  lemma SameReading(e: Env, db: Db, db': Db)
    requires db'.live == db.live && db'.archive == db.archive && db'.manifests == db.manifests
    ensures PendingOf(db') == PendingOf(db) && PendingBatches(db') == PendingBatches(db)
    ensures Acceptable(e, db) ==> Acceptable(e, db')
    ensures CheckMarker(e, db') == CheckMarker(e, db)
  {
    assert PendingBatches(db') == PendingBatches(db);
  }

  lemma RebuiltFacts(q: Sequence, reset: Option<int>)
    requires ValidSequence(q)
    ensures ValidSequence(Rebuilt(q, reset))
    ensures LastIssued(Rebuilt(q, reset)) >= LastIssued(q)
    ensures q.Sqlite? && reset.Some? ==> LastIssued(Rebuilt(q, reset)) >= reset.value
  {
  }

  lemma CaptureLeavesKnown(e: Env, db: Db, revision: string, archiveId: string, s: Source)
    requires Shaped(db) && TypedTable(s, db.live.At(s), true)
    ensures AllKnown(e, s, AfterCapture(e, db, revision, archiveId).live.At(s))
    ensures forall original :: TypedTable(s, db.live.At(s), original) ==>
      TypedTable(s, AfterCapture(e, db, revision, archiveId).live.At(s), original)
  {
    CaptureConserves(e, db, revision, archiveId, s);
    forall id | id in db.live.At(s) ensures |db.live.At(s)[id]| == |Columns(s, true)| {
      assert TypedRow(s, db.live.At(s)[id], true);
    }
  }

  lemma TypedTableWidens(s: Source, t: Table, original: bool)
    requires TypedTable(s, t, original)
    ensures TypedTable(s, t, true)
  {
    forall id | id in t ensures TypedRow(s, t[id], true) {
      TypedWidens(s, t[id], original);
    }
  }

  // The database just before restore in an upgrade.
  function Altered(e: Env, db: Db, archiveId: string, repairedAt: string, reset: Resets): Db {
    var captured := AfterCapture(e, db, PREVIOUS, archiveId);
    AlterTables(captured.(queue := RepairQueue(captured.queue, Str(repairedAt))), true, reset)
  }

  lemma UpgradeReachesRestore(e: Env, db: Db, archiveId: string, repairedAt: string, reset: Resets)
    requires Shaped(db) && FreshId(db, archiveId) && CanCapture(e, db, PREVIOUS)
    ensures Upgrade(e, db, archiveId, repairedAt, reset).Ok? <==> Restore(e, Altered(e, db, archiveId, repairedAt, reset)).Ok?
    ensures Restore(e, Altered(e, db, archiveId, repairedAt, reset)).Ok? ==>
      Upgrade(e, db, archiveId, repairedAt, reset) ==
        Ok(Restore(e, Altered(e, db, archiveId, repairedAt, reset)).value.(revision := HEAD))
  {
    CaptureExact(e, db, PREVIOUS, archiveId);
    RepairAfterCapture(e, db, archiveId, repairedAt);
  }

  lemma RepairAfterCapture(e: Env, db: Db, archiveId: string, repairedAt: string)
    requires Shaped(db) && FreshId(db, archiveId) && CanCapture(e, db, PREVIOUS)
    ensures var captured := AfterCapture(e, db, PREVIOUS, archiveId);
      Repair(captured, repairedAt) == captured.(queue := RepairQueue(captured.queue, Str(repairedAt)))
  {
    TypedTableWidens(Retry, db.live.retry, SchemaAt(db, PREVIOUS));
    TypedTableWidens(Dlq, db.live.dlq, SchemaAt(db, PREVIOUS));
    CaptureLeavesKnown(e, db, PREVIOUS, archiveId, Retry);
    CaptureLeavesKnown(e, db, PREVIOUS, archiveId, Dlq);
    RepairIsNoop(e, AfterCapture(e, db, PREVIOUS, archiveId), repairedAt);
  }

  lemma AlteredRestorable(e: Env, db: Db, archiveId: string, repairedAt: string, reset: Resets)
    requires Shaped(db) && FreshId(db, archiveId) && CanCapture(e, db, PREVIOUS)
    ensures Shaped(Altered(e, db, archiveId, repairedAt, reset)) && CanRestore(e, Altered(e, db, archiveId, repairedAt, reset))
  {
    var captured := AfterCapture(e, db, PREVIOUS, archiveId);
    CaptureKeepsReadable(e, db, PREVIOUS, archiveId);
    SameReading(e, captured, Altered(e, db, archiveId, repairedAt, reset));
    RebuiltFacts(captured.sequence.retry, reset.retry);
    RebuiltFacts(captured.sequence.dlq, reset.dlq);
  }

  /**
   An upgrade of any database succeeds exactly when the schema is a known one, the
   owner marker in place, the archive readable and the live rows typed. Otherwise it refuses before its
   first write, so nothing has to be rolled back.
   */
  lemma UpgradeExact(e: Env, db: Db, archiveId: string, repairedAt: string, reset: Resets)
    requires Shaped(db) && FreshId(db, archiveId)
    ensures Upgrade(e, db, archiveId, repairedAt, reset).Ok? <==> CanCapture(e, db, PREVIOUS)
    ensures Upgrade(e, db, archiveId, repairedAt, reset).Refused? ==>
      Upgrade(e, db, archiveId, repairedAt, reset).why.BeforeWrites()
  {
    CaptureExact(e, db, PREVIOUS, archiveId);
    if CanCapture(e, db, PREVIOUS) {
      UpgradeReachesRestore(e, db, archiveId, repairedAt, reset);
      AlteredRestorable(e, db, archiveId, repairedAt, reset);
      RestoreExact(e, Altered(e, db, archiveId, repairedAt, reset));
    }
  }

  lemma DowngradeReaches(e: Env, db: Db, archiveId: string, reset: Resets)
    requires Shaped(db) && FreshId(db, archiveId) && CanCapture(e, db, HEAD)
    ensures var captured := AfterCapture(e, db, HEAD, archiveId);
      Downgrade(e, db, archiveId, reset) == Ok(AlterTables(captured, false, reset).(revision := PREVIOUS))
  {
    var captured := AfterCapture(e, db, HEAD, archiveId);
    CaptureExact(e, db, HEAD, archiveId);
    PreviousIsNotHead();
    CaptureLeavesKnown(e, db, HEAD, archiveId, Dlq);
    NarrowingCannotFail(e, captured, reset);
  }

  /** The same for a downgrade: the NOT NULL narrowing is never what stops it. */
  lemma DowngradeExact(e: Env, db: Db, archiveId: string, reset: Resets)
    requires Shaped(db) && FreshId(db, archiveId)
    ensures Downgrade(e, db, archiveId, reset).Ok? <==> CanCapture(e, db, HEAD)
    ensures Downgrade(e, db, archiveId, reset).Refused? ==> Downgrade(e, db, archiveId, reset).why.BeforeWrites()
  {
    CaptureExact(e, db, HEAD, archiveId);
    if CanCapture(e, db, HEAD) {
      DowngradeReaches(e, db, archiveId, reset);
    }
  }

  /** An archive edited behind its digests stops both directions before any write. */
  lemma TamperedArchiveStops(e: Env, db: Db, db': Db, archiveId: string, repairedAt: string, reset: Resets)
    requires Injective(e.hash) && Shaped(db) && Shaped(db') && FreshId(db', archiveId)
    requires Acceptable(e, db) && DigestsOccur(PendingOf(db'), PendingOf(db)) && !WholeBatchesOf(db, db')
    ensures Upgrade(e, db', archiveId, repairedAt, reset).Refused?
    ensures Upgrade(e, db', archiveId, repairedAt, reset).why.BeforeWrites()
    ensures Downgrade(e, db', archiveId, reset).Refused?
    ensures Downgrade(e, db', archiveId, reset).why.BeforeWrites()
  {
    OnlyWholeBatchesAreRead(e, db, db');
    ReadArchiveExact(e, db');
    UpgradeExact(e, db', archiveId, repairedAt, reset);
    DowngradeExact(e, db', archiveId, reset);
  }

  // ---------- what a migration keeps ----------

  // What every migration keeps: the rows of both sources, and what was issued.
  ghost predicate KeptAt(db: Db, db': Db, s: Source) {
    Contents(db', s) == Contents(db, s) && LastIssued(db'.sequence.At(s)) >= LastIssued(db.sequence.At(s))
  }

  ghost predicate Kept(db: Db, db': Db) {
    KeptAt(db, db', Retry) && KeptAt(db, db', Dlq)
  }

  lemma CaptureSequence(e: Env, db: Db, revision: string, archiveId: string, s: Source)
    requires Shaped(db)
    ensures ValidSequence(AfterCapture(e, db, revision, archiveId).sequence.At(s))
    ensures LastIssued(AfterCapture(e, db, revision, archiveId).sequence.At(s)) >= LastIssued(db.sequence.At(s))
    ensures !NothingCaptured(e, db) ==> Covers(AfterCapture(e, db, revision, archiveId).sequence.At(s), db.live.At(s))
  {
    var q, t := db.sequence.At(s), db.live.At(s);
    assert ValidSequence(q);
    if !NothingCaptured(e, db) {
      AfterCaptureAt(e, db, revision, archiveId, s);
      AdvanceCovers(q, Known(e, s, t), HighWater(q, t));
      AdvanceValid(q, Known(e, s, t), HighWater(q, t));
      HighWaterBounds(q, t);
    }
  }

  lemma DowngradeKeeps(e: Env, db: Db, db': Db, archiveId: string, reset: Resets, s: Source)
    requires Ready(e, db) && db.revision == HEAD && FreshId(db, archiveId)
    requires Downgrade(e, db, archiveId, reset) == Ok(db')
    ensures Contents(db', s) == Contents(db, s)
    ensures LastIssued(db'.sequence.At(s)) >= LastIssued(db.sequence.At(s)) && ValidSequence(db'.sequence.At(s))
    ensures db'.live.At(s) == Known(e, s, db.live.At(s))
  {
    ReadyCanCapture(e, db);
    DowngradeReaches(e, db, archiveId, reset);
    CaptureConserves(e, db, HEAD, archiveId, s);
    CaptureSequence(e, db, HEAD, archiveId, s);
    RebuiltFacts(AfterCapture(e, db, HEAD, archiveId).sequence.At(s), reset.At(s));
    assert db'.live.At(s) == AfterCapture(e, db, HEAD, archiveId).live.At(s);
    assert db'.archive.At(s) == AfterCapture(e, db, HEAD, archiveId).archive.At(s);
  }

  // The outcome of a downgrade of db.
  ghost predicate Downgraded(e: Env, db: Db, db': Db) {
    && Ready(e, db')
    && db'.revision == PREVIOUS
    && Kept(db, db')
    && db'.live.retry == Known(e, Retry, db.live.retry)
    && db'.live.dlq == Known(e, Dlq, db.live.dlq)
  }

  lemma DowngradeTyped(e: Env, db: Db, archiveId: string, reset: Resets)
    requires Ready(e, db) && db.revision == HEAD
    ensures var captured := AfterCapture(e, db, HEAD, archiveId);
      TypedTable(Retry, captured.live.retry, false) && TypedTable(Dlq, captured.live.dlq, false)
  {
    var captured := AfterCapture(e, db, HEAD, archiveId);
    CaptureLeavesKnown(e, db, HEAD, archiveId, Retry);
    CaptureLeavesKnown(e, db, HEAD, archiveId, Dlq);
    NarrowingCannotFail(e, captured, reset);
    RetryIgnoresOriginal(captured.live.retry);
  }

  lemma DowngradeAccepted(e: Env, db: Db, db': Db, archiveId: string, reset: Resets)
    requires Ready(e, db) && db.revision == HEAD && FreshId(db, archiveId)
    requires Downgrade(e, db, archiveId, reset) == Ok(db')
    ensures Ready(e, db') && db'.revision == PREVIOUS
  {
    var captured := AfterCapture(e, db, HEAD, archiveId);
    ReadyCanCapture(e, db);
    DowngradeReaches(e, db, archiveId, reset);
    CaptureKeepsReadable(e, db, HEAD, archiveId);
    SameReading(e, captured, db');
    DowngradeTyped(e, db, archiveId, reset);
    RebuiltFacts(captured.sequence.retry, reset.retry);
    RebuiltFacts(captured.sequence.dlq, reset.dlq);
    PreviousIsNotHead();
  }

  /**
   A downgrade of a ready database succeeds and is ready again: the old runtime
   sees exactly the rows with known dates, and no row is lost.
   */
  lemma DowngradeReady(e: Env, db: Db, archiveId: string, reset: Resets)
    requires Ready(e, db) && db.revision == HEAD && FreshId(db, archiveId)
    ensures Downgrade(e, db, archiveId, reset).Ok?
    ensures Downgraded(e, db, Downgrade(e, db, archiveId, reset).value)
  {
    ReadyCanCapture(e, db);
    DowngradeExact(e, db, archiveId, reset);
    DowngradeOutcome(e, db, Downgrade(e, db, archiveId, reset).value, archiveId, reset);
  }

  lemma DowngradeOutcome(e: Env, db: Db, db': Db, archiveId: string, reset: Resets)
    requires Ready(e, db) && db.revision == HEAD && FreshId(db, archiveId)
    requires Downgrade(e, db, archiveId, reset) == Ok(db')
    ensures Downgraded(e, db, db')
  {
    DowngradeAccepted(e, db, db', archiveId, reset);
    DowngradeKeeps(e, db, db', archiveId, reset, Retry);
    DowngradeKeeps(e, db, db', archiveId, reset, Dlq);
  }

  lemma RetryIgnoresOriginal(t: Table)
    ensures TypedTable(Retry, t, true) <==> TypedTable(Retry, t, false)
  {
    assert Columns(Retry, true) == Columns(Retry, false);
    assert forall row :: TypedRow(Retry, row, true) <==> TypedRow(Retry, row, false);
  }

  // The copy a SQLite rebuild makes of t counts as issuing the ids of t.
  ghost predicate ResetCovers(reset: Option<int>, t: Table) {
    forall id :: id in t ==> reset.Some? && id <= reset.value
  }

  // The sequence will cover the table after an upgrade: something is captured, so that
  // marks are taken of both tables; or it covers the table already; or the rebuild
  // makes it cover the rows it copies, which are those that capture leaves. The last
  // is for SQLite tables made without AUTOINCREMENT, which have no sequence row.
  ghost predicate WillCover(e: Env, db: Db, reset: Resets, s: Source) {
    || !NothingCaptured(e, db)
    || Covers(db.sequence.At(s), db.live.At(s))
    || (db.sequence.At(s).Sqlite? && ResetCovers(reset.At(s), Known(e, s, db.live.At(s))))
  }

  lemma UpgradeKeeps(e: Env, db: Db, db': Db, archiveId: string, repairedAt: string, reset: Resets, s: Source)
    requires Ready(e, db) && db.revision == PREVIOUS && FreshId(db, archiveId)
    requires Upgrade(e, db, archiveId, repairedAt, reset) == Ok(db')
    ensures RowsOf(db'.live.At(s)) == Contents(db', s) == Contents(db, s)
    ensures KeyedTable(db'.live.At(s)) && TypedTable(s, db'.live.At(s), true)
    ensures LastIssued(db'.sequence.At(s)) >= LastIssued(db.sequence.At(s)) && ValidSequence(db'.sequence.At(s))
    ensures WillCover(e, db, reset, s) ==> Covers(db'.sequence.At(s), db'.live.At(s))
  {
    var altered, captured := Altered(e, db, archiveId, repairedAt, reset), AfterCapture(e, db, PREVIOUS, archiveId);
    ReadyCanCapture(e, db);
    UpgradeReachesRestore(e, db, archiveId, repairedAt, reset);
    AlteredRestorable(e, db, archiveId, repairedAt, reset);
    RestoreExact(e, altered);
    var restored := Restore(e, altered).value;
    assert db' == restored.(revision := HEAD);
    CaptureConserves(e, db, PREVIOUS, archiveId, s);
    assert altered.live.At(s) == captured.live.At(s) && altered.archive.At(s) == captured.archive.At(s);
    RestoreConserves(e, altered, restored, s);
    assert TypedTable(s, db.live.At(s), db.dlqNullable);
    TypedTableWidens(s, db.live.At(s), db.dlqNullable);
    CaptureLeavesKnown(e, db, PREVIOUS, archiveId, s);
    RestoreKeepsShape(e, altered, restored, s);
    UpgradeSequence(e, db, archiveId, repairedAt, reset, restored, s);
  }

  lemma UpgradeSequence(e: Env, db: Db, archiveId: string, repairedAt: string, reset: Resets, restored: Db, s: Source)
    requires Ready(e, db) && db.revision == PREVIOUS && FreshId(db, archiveId)
    requires Restore(e, Altered(e, db, archiveId, repairedAt, reset)) == Ok(restored)
    ensures LastIssued(restored.sequence.At(s)) >= LastIssued(db.sequence.At(s)) && ValidSequence(restored.sequence.At(s))
    ensures WillCover(e, db, reset, s) ==> Covers(restored.sequence.At(s), restored.live.At(s))
  {
    var altered := Altered(e, db, archiveId, repairedAt, reset);
    ReadyCanCapture(e, db);
    AlteredRestorable(e, db, archiveId, repairedAt, reset);
    RestoreSequence(e, altered, restored, s);
    AlteredSequence(e, db, archiveId, repairedAt, reset, s);
  }

  // Before restore the sequence is past its old value, and past all rows unless a
  // batch is pending whose mark will put it there.
  lemma AlteredSequence(e: Env, db: Db, archiveId: string, repairedAt: string, reset: Resets, s: Source)
    requires Ready(e, db) && db.revision == PREVIOUS && FreshId(db, archiveId)
    ensures var altered := Altered(e, db, archiveId, repairedAt, reset);
      && LastIssued(altered.sequence.At(s)) >= LastIssued(db.sequence.At(s))
      && (WillCover(e, db, reset, s) ==> PendingBatches(altered) != [] || Covers(altered.sequence.At(s), altered.live.At(s)))
  {
    var altered, captured := Altered(e, db, archiveId, repairedAt, reset), AfterCapture(e, db, PREVIOUS, archiveId);
    ReadyCanCapture(e, db);
    CaptureSequence(e, db, PREVIOUS, archiveId, s);
    RebuiltFacts(captured.sequence.At(s), reset.At(s));
    assert altered.sequence.At(s) == Rebuilt(captured.sequence.At(s), reset.At(s));
    SameReading(e, captured, altered);
    if NothingCaptured(e, db) {
      NoneUnknown(e, s, db.live.At(s));
    } else {
      BatchesAfterCapture(e, db, PREVIOUS, archiveId);
    }
  }

  /**
   With anything captured, in either table, both sequences end past every id of their
   tables, whatever the rebuilds leave behind and whatever the sequences were before.
   */
  lemma CapturedUpgradeCovers(e: Env, db: Db, db': Db, archiveId: string, repairedAt: string, reset: Resets, s: Source)
    requires Ready(e, db) && db.revision == PREVIOUS && FreshId(db, archiveId) && !NothingCaptured(e, db)
    requires Upgrade(e, db, archiveId, repairedAt, reset) == Ok(db')
    ensures Covers(db'.sequence.At(s), db.live.At(s)) && Covers(db'.sequence.At(s), db'.live.At(s))
  {
    UpgradeKeeps(e, db, db', archiveId, repairedAt, reset, s);
    forall id | id in db.live.At(s) ensures id <= LastIssued(db'.sequence.At(s)) {
      assert db.live.At(s)[id] in Contents(db, s);
      var k :| k in db'.live.At(s) && db'.live.At(s)[k] == db.live.At(s)[id];
      assert KeyedTable(db.live.At(s)) && KeyedTable(db'.live.At(s));
      assert k == id;
    }
  }

  // The outcome of an upgrade of db.
  ghost predicate Upgraded(e: Env, db: Db, db': Db) {
    && Ready(e, db')
    && db'.revision == HEAD
    && Kept(db, db')
    && PendingOf(db') == []
    && db'.archive == Pair([], [])
    && RowsOf(db'.live.retry) == Contents(db, Retry)
    && RowsOf(db'.live.dlq) == Contents(db, Dlq)
    && (db.manifests.Some? || !NothingCaptured(e, db) ==> db'.manifests == Some([ControlManifest(e)]))
  }

  lemma UpgradeArchive(e: Env, db: Db, db': Db, archiveId: string, repairedAt: string, reset: Resets)
    requires Ready(e, db) && db.revision == PREVIOUS && FreshId(db, archiveId)
    requires Upgrade(e, db, archiveId, repairedAt, reset) == Ok(db')
    ensures db'.archive == Pair([], []) && db'.revision == HEAD && db'.dlqNullable
    ensures db'.manifests ==
      if db.manifests.None? && NothingCaptured(e, db) then None else Some([ControlManifest(e)])
  {
    ReadyCanCapture(e, db);
    UpgradeReachesRestore(e, db, archiveId, repairedAt, reset);
    AlteredRestorable(e, db, archiveId, repairedAt, reset);
    RestoreExact(e, Altered(e, db, archiveId, repairedAt, reset));
  }

  lemma UpgradeOutcome(e: Env, db: Db, db': Db, archiveId: string, repairedAt: string, reset: Resets)
    requires Ready(e, db) && db.revision == PREVIOUS && FreshId(db, archiveId)
    requires Upgrade(e, db, archiveId, repairedAt, reset) == Ok(db')
    ensures Upgraded(e, db, db')
  {
    UpgradeKeeps(e, db, db', archiveId, repairedAt, reset, Retry);
    UpgradeKeeps(e, db, db', archiveId, repairedAt, reset, Dlq);
    assert RowsOf(db'.live.retry) == Contents(db', Retry) == Contents(db, Retry);
    assert RowsOf(db'.live.dlq) == Contents(db', Dlq) == Contents(db, Dlq);
    assert Kept(db, db');
    UpgradeArchive(e, db, db', archiveId, repairedAt, reset);
    MarkerOnlyAccepted(e, db');
  }

  /**
   An upgrade of a ready database succeeds, and afterwards every row of both
   sources is live, none is archived and only the owner marker remains.
   */
  lemma UpgradeReady(e: Env, db: Db, archiveId: string, repairedAt: string, reset: Resets)
    requires Ready(e, db) && db.revision == PREVIOUS && FreshId(db, archiveId)
    ensures Upgrade(e, db, archiveId, repairedAt, reset).Ok?
    ensures Upgraded(e, db, Upgrade(e, db, archiveId, repairedAt, reset).value)
  {
    ReadyCanCapture(e, db);
    UpgradeExact(e, db, archiveId, repairedAt, reset);
    UpgradeOutcome(e, db, Upgrade(e, db, archiveId, repairedAt, reset).value, archiveId, repairedAt, reset);
  }

  lemma MarkerOnlyAccepted(e: Env, db: Db)
    requires db.archive == Pair([], []) && (db.manifests.None? || db.manifests == Some([ControlManifest(e)]))
    ensures PendingOf(db) == [] && Acceptable(e, db) && CheckMarker(e, db).Ok?
    ensures db.manifests.Some? ==> Distinct(ArchiveIds(db.manifests.value))
  {
    if db.manifests.Some? {
      FilterNone((m: Manifest) => m.archiveId != CONTROL_ID, [ControlManifest(e)]);
    }
    assert AllRows([], Retry) == [] && AllRows([], Dlq) == [];
    assert Ids([]) == [];
  }

  // ---------- the two queue tables ----------

  // Every id a queue table has handed out stays handed out.
  ghost predicate QueueIssued(before: Queue, after: Queue) {
    && LastIssued(after.requests.sequence) >= LastIssued(before.requests.sequence)
    && LastIssued(after.history.sequence) >= LastIssued(before.history.sequence)
  }

  lemma RebuiltQueueIssued(q: Queue, reset: Resets)
    ensures QueueIssued(q, RebuiltQueue(q, reset))
  {
  }

  lemma UpgradedQueue(e: Env, db: Db, db': Db, archiveId: string, repairedAt: string, reset: Resets)
    requires Shaped(db) && FreshId(db, archiveId)
    requires Upgrade(e, db, archiveId, repairedAt, reset) == Ok(db')
    ensures db'.queue == RebuiltQueue(RepairQueue(db.queue, Str(repairedAt)), reset) && !db'.literalDefaults
  {
    UpgradeExact(e, db, archiveId, repairedAt, reset);
    UpgradeReachesRestore(e, db, archiveId, repairedAt, reset);
    AlteredRestorable(e, db, archiveId, repairedAt, reset);
    RestoreExact(e, Altered(e, db, archiveId, repairedAt, reset));
  }

  /**
   What an upgrade does to the queue tables: creation dates that hold the literal
   become the repair time, every other value, NULL or unreadable dates included,
   stays; no issued id is forgotten; new rows get the time and not the text.
   */
  lemma UpgradeRepairsQueue(e: Env, db: Db, db': Db, archiveId: string, repairedAt: string, reset: Resets)
    requires Shaped(db) && FreshId(db, archiveId) && repairedAt != "CURRENT_TIMESTAMP"
    requires Upgrade(e, db, archiveId, repairedAt, reset) == Ok(db')
    ensures RepairedRows(db.queue.requests.rows, db'.queue.requests.rows, Str(repairedAt))
    ensures RepairedRows(db.queue.history.rows, db'.queue.history.rows, Str(repairedAt))
    ensures QueueIssued(db.queue, db'.queue) && !db'.literalDefaults
  {
    UpgradedQueue(e, db, db', archiveId, repairedAt, reset);
    RebuiltQueueIssued(RepairQueue(db.queue, Str(repairedAt)), reset);
  }

  lemma DowngradedQueue(e: Env, db: Db, db': Db, archiveId: string, reset: Resets)
    requires Shaped(db) && FreshId(db, archiveId)
    requires Downgrade(e, db, archiveId, reset) == Ok(db')
    ensures db'.queue == RebuiltQueue(db.queue, reset) && db'.literalDefaults
  {
    DowngradeExact(e, db, archiveId, reset);
    DowngradeReaches(e, db, archiveId, reset);
  }

  /** A downgrade changes no row of the queue tables and forgets no issued id. */
  lemma DowngradeKeepsQueue(e: Env, db: Db, db': Db, archiveId: string, reset: Resets)
    requires Shaped(db) && FreshId(db, archiveId)
    requires Downgrade(e, db, archiveId, reset) == Ok(db')
    ensures db'.queue.requests.rows == db.queue.requests.rows && db'.queue.history.rows == db.queue.history.rows
    ensures QueueIssued(db.queue, db'.queue) && db'.literalDefaults
  {
    DowngradedQueue(e, db, db', archiveId, reset);
    RebuiltQueueIssued(db.queue, reset);
  }

  ghost predicate NoLiterals(rows: map<int, QueueRow>) {
    forall id :: id in rows ==> rows[id].createdAt != Str("CURRENT_TIMESTAMP")
  }

  lemma RepairedRowsSame(before: map<int, QueueRow>, after: map<int, QueueRow>, now: Value)
    requires RepairedRows(before, after, now)
    ensures after == before <==> NoLiterals(before)
  {
    if NoLiterals(before) {
      assert forall id :: id in before <==> id in after;
      assert forall id :: id in before ==> after[id] == before[id];
    }
  }

  // Downgrade with one archive id, upgrade with another.
  function ThereAndBack(e: Env, db: Db, down: string, up: string, repairedAt: string,
                        reset: Resets, reset': Resets): Outcome<Db>
  {
    var between :- Downgrade(e, db, down, reset);
    Upgrade(e, between, up, repairedAt, reset')
  }

  // Same tables and schema, nothing pending, no sequence lowered.
  ghost predicate BackAgain(db: Db, db': Db) {
    && db'.live == db.live
    && db'.revision == db.revision && db'.dlqNullable == db.dlqNullable
    && PendingOf(db') == [] && db'.archive == Pair([], [])
    && forall s :: LastIssued(db'.sequence.At(s)) >= LastIssued(db.sequence.At(s))
  }

  /**
   Round trip: downgrade and upgrade with no writes between give back exactly the
   original tables, id by id and value by value, NULLs and unreadable dates
   included; no batch is left pending, the owner marker is there if anything was
   ever archived, and no sequence is lower than before.
   */
  lemma RoundTrip(e: Env, db: Db, down: string, up: string, repairedAt: string,
                  reset: Resets, reset': Resets)
    requires Ready(e, db) && db.revision == HEAD && PendingOf(db) == []
    requires FreshId(db, down) && FreshId(db, up) && up != down
    ensures ThereAndBack(e, db, down, up, repairedAt, reset, reset').Ok?
    ensures BackAgain(db, ThereAndBack(e, db, down, up, repairedAt, reset, reset').value)
    ensures db.manifests.Some? || !NothingCaptured(e, db) ==>
      ThereAndBack(e, db, down, up, repairedAt, reset, reset').value.manifests == Some([ControlManifest(e)])
  {
    DowngradeReady(e, db, down, reset);
    var between := Downgrade(e, db, down, reset).value;
    StillFresh(e, db, between, down, up, reset);
    UpgradeReady(e, between, up, repairedAt, reset');
    BackFrom(e, db, between, Upgrade(e, between, up, repairedAt, reset').value);
  }

  /**
   For the queue tables the same trip is not always the identity: nothing archives
   their dates. It gives a table back exactly when it holds no literal date.
   */
  lemma RoundTripOfQueue(e: Env, db: Db, down: string, up: string, repairedAt: string, reset: Resets, reset': Resets)
    requires Ready(e, db) && db.revision == HEAD
    requires FreshId(db, down) && FreshId(db, up) && up != down && repairedAt != "CURRENT_TIMESTAMP"
    ensures ThereAndBack(e, db, down, up, repairedAt, reset, reset').Ok?
    ensures var db' := ThereAndBack(e, db, down, up, repairedAt, reset, reset').value;
      && (db'.queue.requests.rows == db.queue.requests.rows <==> NoLiterals(db.queue.requests.rows))
      && (db'.queue.history.rows == db.queue.history.rows <==> NoLiterals(db.queue.history.rows))
      && QueueIssued(db.queue, db'.queue)
  {
    DowngradeReady(e, db, down, reset);
    var between := Downgrade(e, db, down, reset).value;
    StillFresh(e, db, between, down, up, reset);
    UpgradeReady(e, between, up, repairedAt, reset');
    var db' := Upgrade(e, between, up, repairedAt, reset').value;
    DowngradeKeepsQueue(e, db, between, down, reset);
    UpgradeRepairsQueue(e, between, db', up, repairedAt, reset');
    RepairedRowsSame(db.queue.requests.rows, db'.queue.requests.rows, Str(repairedAt));
    RepairedRowsSame(db.queue.history.rows, db'.queue.history.rows, Str(repairedAt));
  }

  lemma BackFrom(e: Env, db: Db, between: Db, db': Db)
    requires Ready(e, db) && db.revision == HEAD && PendingOf(db) == []
    requires Downgraded(e, db, between) && Upgraded(e, between, db')
    ensures BackAgain(db, db')
  {
    SameTable(e, db, between, db', Retry);
    SameTable(e, db, between, db', Dlq);
  }

  lemma SameTable(e: Env, db: Db, between: Db, db': Db, s: Source)
    requires Ready(e, db) && PendingOf(db) == []
    requires Downgraded(e, db, between) && Upgraded(e, between, db')
    ensures db'.live.At(s) == db.live.At(s)
    ensures LastIssued(db'.sequence.At(s)) >= LastIssued(db.sequence.At(s))
  {
    assert NoOrphans(db.archive.At(s), PendingOf(db));
    NoPendingNoRows(db, s);
    assert RowsOf(db'.live.At(s)) == Contents(between, s) == Contents(db, s);
    assert KeyedTable(db'.live.At(s)) && KeyedTable(db.live.At(s));
    KeyedTablesEqual(db'.live.At(s), db.live.At(s));
    assert LastIssued(between.sequence.At(s)) >= LastIssued(db.sequence.At(s));
  }

  lemma NoPendingNoRows(db: Db, s: Source)
    requires PendingOf(db) == [] && NoOrphans(db.archive.At(s), PendingOf(db))
    ensures db.archive.At(s) == [] && Contents(db, s) == RowsOf(db.live.At(s))
  {
    NoMembers(db.archive.At(s));
  }

  lemma StillFresh(e: Env, db: Db, between: Db, down: string, up: string, reset: Resets)
    requires Ready(e, db) && db.revision == HEAD && FreshId(db, down)
    requires FreshId(db, up) && up != down
    requires Downgrade(e, db, down, reset) == Ok(between)
    ensures FreshId(between, up)
    ensures between.manifests.Some? <==> db.manifests.Some? || !NothingCaptured(e, db)
  {
    ReadyCanCapture(e, db);
    DowngradeReaches(e, db, down, reset);
    ManifestsAfter(e, db, down, up);
  }

  lemma ManifestsAfter(e: Env, db: Db, down: string, up: string)
    requires FreshId(db, up) && up != down
    ensures FreshId(AfterCapture(e, db, HEAD, down), up)
  {
    if !NothingCaptured(e, db) {
      MoreIds(OldManifests(e, db), NewManifest(e, db, HEAD, down), up);
    }
  }

  lemma MoreIds(manifests: seq<Manifest>, m: Manifest, other: string)
    requires other !in ArchiveIds(manifests) && other != m.archiveId
    ensures other !in ArchiveIds(manifests + [m])
  {
    assert ArchiveIds(manifests + [m]) == ArchiveIds(manifests) + [m.archiveId];
  }
}

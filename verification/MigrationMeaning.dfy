/**
 Upgrade and downgrade in terms of rows, dates and sequence values alone, and the checks
 they make on the way: when each would fail, whether or not it can be reached.
 */
module MigrationMeaning {
  import opened Results
  import opened Sequences
  import opened RetryArchive
  import opened ArchiveDigests
  import opened ArchiveReading
  import opened ArchiveCapture
  import opened ArchiveRestore
  import opened ArchiveMeaning
  import opened ReadingMeaning
  import opened TimestampMigration
  import opened MigrationRuns

  // ---------- the steps of a migration ----------

  /** Narrowing original_created_at fails exactly on a row that has none. */
  lemma NarrowingMeans(db: Db, executable: bool, reset: Resets)
    ensures AlterDefaults(db, executable, reset).Ok? <==>
      executable || forall id :: id in db.live.dlq && |db.live.dlq[id]| > 6 ==> !db.live.dlq[id][6].Null?
    ensures AlterDefaults(db, executable, reset).Refused? ==> AlterDefaults(db, executable, reset).why == NullViolation
    ensures AlterDefaults(db, executable, reset).Ok? ==>
      var db' := AlterDefaults(db, executable, reset).value;
      && db'.dlqNullable == executable && db'.literalDefaults == !executable
      && db'.live == db.live && db'.archive == db.archive && db'.manifests == db.manifests && db'.revision == db.revision
      && db'.queue.requests.rows == db.queue.requests.rows && db'.queue.history.rows == db.queue.history.rows
  {
  }

  // A sequence after its table was rebuilt, left being the sequence row of the copy.
  ghost predicate RebuiltTo(q: Sequence, left: Option<int>, q': Sequence) {
    match q
    case Postgres(_, _) => q' == q
    case Sqlite(_) =>
      && q'.Sqlite? && q'.seqRow.Some?
      && q'.seqRow.value >= Reached(q) && (left.Some? ==> q'.seqRow.value >= left.value)
      && (q'.seqRow.value == Reached(q) || q'.seqRow == left)
  }

  /** A rebuild leaves the larger of the two marks, in all four tables. */
  lemma RebuildMeans(db: Db, executable: bool, reset: Resets)
    requires AlterDefaults(db, executable, reset).Ok?
    ensures var db' := AlterDefaults(db, executable, reset).value;
      && RebuiltTo(db.sequence.retry, reset.retry, db'.sequence.retry)
      && RebuiltTo(db.sequence.dlq, reset.dlq, db'.sequence.dlq)
      && RebuiltTo(db.queue.requests.sequence, reset.requests, db'.queue.requests.sequence)
      && RebuiltTo(db.queue.history.sequence, reset.history, db'.queue.history.sequence)
  {
  }

  /** A sequence is advanced to the greatest of its value, the mark and the live ids. */
  lemma AdvanceMeans(q: Sequence, t: Table, highWater: int) returns (value: int)
    requires ValidSequence(q)
    ensures Advanced(q, Advance(q, t, highWater), value)
    ensures Reached(q) <= value && highWater <= value && forall id :: id in t ==> id <= value
    ensures value == Reached(q) || value == highWater || value == 0 || value in t
  {
    HighWaterIsMark(q, t);
    var mark := HighWater(q, t);
    value := if highWater < mark then mark else highWater;
  }

  // No more than a bound that the sequence, the ids of the table and all marks respect.
  ghost predicate Within(q: Sequence, t: Table, bound: int) {
    0 <= bound && Reached(q) <= bound && forall id :: id in t ==> id <= bound
  }

  lemma SideWithin(e: Env, db: Db, b: Batch, s: Source, bound: int)
    requires Restorable(e, db, b, s) && ValidSequence(db.sequence.At(s))
    requires Within(db.sequence.At(s), db.live.At(s), bound) && b.manifest.sides.At(s).highWater <= bound
    ensures Within(SideRestored(db, b, s).sequence.At(s), SideRestored(db, b, s).live.At(s), bound)
    ensures ValidSequence(SideRestored(db, b, s).sequence.At(s))
  {
    var rows := Raws(b.rows.At(s));
    var t, mark := Merged(db.live.At(s), rows), b.manifest.sides.At(s).highWater;
    MergedMembers(db.live.At(s), rows);
    MaxBelow(b.rows.At(s), mark);
    forall id | id in t ensures id <= bound {
      if id !in db.live.At(s) {
        var k :| 0 <= k < |rows| && RowIds(rows)[k] == id;
        assert b.rows.At(s)[k] in b.rows.At(s);
      }
    }
    var value := AdvanceMeans(db.sequence.At(s), t, mark);
    AdvanceValid(db.sequence.At(s), t, mark);
  }

  lemma {:induction false} BatchesWithin(e: Env, db: Db, batches: seq<Batch>, s: Source, bound: int)
    requires AllRestorable(e, db, batches) && ValidSequence(db.sequence.At(s))
    requires Within(db.sequence.At(s), db.live.At(s), bound)
    requires forall b :: b in batches ==> b.manifest.sides.At(s).highWater <= bound
    ensures RestoreBatches(e, db, batches).Ok? && Reached(RestoreBatches(e, db, batches).value.sequence.At(s)) <= bound
    decreases batches
  {
    if batches != [] {
      var b := batches[0];
      FirstRestorable(e, db, batches);
      RestoreSideExact(e, db, b, Retry);
      RestoreSideExact(e, SideRestored(db, b, Retry), b, Dlq);
      if s == Retry {
        SideWithin(e, db, b, s, bound);
      } else {
        SideWithin(e, SideRestored(db, b, Retry), b, s, bound);
      }
      BatchesWithin(e, BatchRestored(db, b), batches[1..], s, bound);
    }
  }

  /**
   And no further than needed: a restore leaves no sequence past what it had reached,
   the live ids and the marks of the batches.
   */
  lemma RestoreStaysWithin(e: Env, db: Db, db': Db, s: Source, bound: int)
    requires Shaped(db) && Restore(e, db) == Ok(db')
    requires Within(db.sequence.At(s), db.live.At(s), bound)
    requires forall m :: IsBatch(db, m) ==> m.sides.At(s).highWater <= bound
    ensures Reached(db'.sequence.At(s)) <= bound
  {
    RestoreExact(e, db);
    ReadArchiveExact(e, db);
    PendingRestorable(e, db);
    BatchIsPending(db);
    assert ValidSequence(db.sequence.At(s));
    forall b | b in PendingBatches(db) ensures b.manifest.sides.At(s).highWater <= bound {
      var i :| 0 <= i < |PendingBatches(db)| && PendingBatches(db)[i] == b;
      assert PendingOf(db)[i] in PendingOf(db);
    }
    BatchesWithin(e, db, PendingBatches(db), s, bound);
    if PendingBatches(db) != [] {
      RestoreBatchesExact(e, db, PendingBatches(db));
      AcknowledgeLeavesMarker(e, db, RestoreBatches(e, db, PendingBatches(db)).value);
    }
  }

  /** The next id is one past the last issued, where the sequence covers the table. */
  lemma NextIdMeans(q: Sequence, t: Table)
    requires ValidSequence(q) && Covers(q, t)
    ensures NextId(q, t) == LastIssued(q) + 1
  {
    HighWaterIsMark(q, t);
  }

  /** Rows go in exactly when their ids are new and different. */
  lemma {:induction false} InsertMeans(t: Table, rows: seq<Row>)
    ensures InsertEach(t, rows).Ok? <==> Insertable(t, rows)
    ensures InsertEach(t, rows).Refused? ==> InsertEach(t, rows).why == DuplicateKey
    decreases rows
  {
    if rows != [] {
      assert RowIds(rows) == [IdOf(rows[0])] + RowIds(rows[1..]);
      var u := t[IdOf(rows[0]) := rows[0]];
      InsertMeans(u, rows[1..]);
      if Insertable(t, rows) {
        InsertableTail(t, rows);
      } else if IdOf(rows[0]) !in t {
        NotInsertableTail(t, rows);
      }
    }
  }

  lemma NotInsertableTail(t: Table, rows: seq<Row>)
    requires rows != [] && IdOf(rows[0]) !in t && !Insertable(t, rows)
    ensures !Insertable(t[IdOf(rows[0]) := rows[0]], rows[1..])
  {
    var rest, u := rows[1..], t[IdOf(rows[0]) := rows[0]];
    if Insertable(u, rest) {
      forall i | 0 <= i < |rows| ensures IdOf(rows[i]) !in t {
        assert i > 0 ==> rows[i] == rest[i - 1];
      }
      forall i, j | 0 <= i < j < |rows| ensures RowIds(rows)[i] != RowIds(rows)[j] {
        assert rows[j] == rest[j - 1];
        if i > 0 {
          assert RowIds(rest)[i - 1] != RowIds(rest)[j - 1];
        }
      }
    }
  }

  /** Rows are deleted one by one exactly when each is there, once. */
  lemma {:induction false} DeleteMeans(t: Table, rows: seq<Row>)
    ensures DeleteEach(t, rows).Ok? <==> Distinct(RowIds(rows)) && forall i :: 0 <= i < |rows| ==> IdOf(rows[i]) in t
    ensures DeleteEach(t, rows).Refused? ==> DeleteEach(t, rows).why == OwnershipChanged
    decreases rows
  {
    if rows != [] {
      var first, rest := rows[0], rows[1..];
      DeleteMeans(t - {IdOf(first)}, rest);
      assert RowIds(rows) == [IdOf(first)] + RowIds(rest);
      if Distinct(RowIds(rows)) {
        DistinctParts([IdOf(first)], RowIds(rest));
        forall i | 0 <= i < |rest| ensures rest[i] == rows[i + 1] && IdOf(rest[i]) != IdOf(first) {
          assert RowIds(rows)[i + 1] != RowIds(rows)[0];
        }
      }
      if Distinct(RowIds(rest)) && forall i :: 0 <= i < |rest| ==> IdOf(rest[i]) in t - {IdOf(first)} {
        forall i, j | 0 <= i < j < |rows| ensures RowIds(rows)[i] != RowIds(rows)[j] {
          assert rows[j] == rest[j - 1];
          if i > 0 {
            assert RowIds(rest)[i - 1] != RowIds(rest)[j - 1];
          }
        }
      }
    }
  }

  /** Copying rows under an id the archive has already fails. */
  lemma CopyNeedsUnusedId(e: Env, archive: seq<Archived>, archiveId: string, rows: seq<Row>, r: Archived)
    requires rows != [] && r in archive && r.archiveId == archiveId
    ensures CopyRows(e, archive, archiveId, rows) == Refused(CopyFailed)
  {
    var added := ArchiveRows(e, archiveId, rows);
    RowsForAppend(archive, added, archiveId);
    FilterAll((x: Archived) => x.archiveId == archiveId, added);
    RowsForMembers(archive, archiveId);
    assert r in RowsFor(archive, archiveId);
  }

  /**
   One source of a batch goes back exactly when the table can hold its rows, their ids
   are free, and what is read back has the digest of the manifest.
   */
  lemma RestoreSideMeans(e: Env, db: Db, b: Batch, s: Source)
    requires forall i :: 0 <= i < |b.rows.At(s)| ==> Plain(s, b.rows.At(s)[i].raw, true)
    ensures RestoreSide(e, db, b, s).Ok? <==>
      var rows := Raws(b.rows.At(s));
      && (s == Dlq && !db.dlqNullable ==> forall i :: 0 <= i < |rows| && |rows[i]| > 6 ==> !rows[i][6].Null?)
      && Insertable(db.live.At(s), rows)
      && (rows == [] || BatchDigest(e, b.manifest, s, rows) == b.manifest.sides.At(s).digest)
  {
    var rows := Raws(b.rows.At(s));
    StorableRows(s, rows, db.dlqNullable);
    InsertMeans(db.live.At(s), rows);
    if Insertable(db.live.At(s), rows) {
      InsertEachExact(db.live.At(s), rows);
      MergedMembers(db.live.At(s), rows);
      SelectByIdsMerged(Merged(db.live.At(s), rows), rows);
    }
  }

  lemma StorableRows(s: Source, rows: seq<Row>, nullable: bool)
    requires forall i :: 0 <= i < |rows| ==> Plain(s, rows[i], true)
    ensures (forall row :: row in rows ==> Storable(s, row, nullable)) <==>
      (s == Dlq && !nullable ==> forall i :: 0 <= i < |rows| && |rows[i]| > 6 ==> !rows[i][6].Null?)
  {
    forall i | 0 <= i < |rows|
      ensures Storable(s, rows[i], nullable) <==> (s == Dlq && !nullable ==> |rows[i]| > 6 && !rows[i][6].Null?)
    {
      PlainIsStorable(s, rows[i], nullable);
    }
    forall row | row in rows ensures exists i :: 0 <= i < |rows| && rows[i] == row {
    }
  }

  lemma PlainIsStorable(s: Source, row: Row, nullable: bool)
    requires Plain(s, row, true)
    ensures Storable(s, row, nullable) <==> (s == Dlq && !nullable ==> |row| > 6 && !row[6].Null?)
  {
    var columns := Columns(s, nullable);
    if s == Dlq {
      assert columns[6].nullable == nullable && columns[7].nullable;
    } else {
      assert columns[7].nullable && columns[8].nullable;
    }
  }

  // ---------- the date repair ----------

  // A column set to the repair time where it held the literal.
  function Repaired(v: Value, now: Value): Value {
    if v == Str("CURRENT_TIMESTAMP") then now else v
  }

  ghost predicate RetryRowsRepaired(before: Table, after: Table, now: Value) {
    && (forall id :: id in after <==> id in before)
    && forall id :: id in before && id in after ==> after[id] == RetryRepaired(before[id], now)
  }

  ghost predicate DlqRowsRepaired(before: Table, after: Table, now: Value) {
    && (forall id :: id in after <==> id in before)
    && forall id :: id in before && id in after ==> after[id] == DlqRepaired(before[id], now)
  }

  ghost predicate QueueRowsRepaired(before: map<int, QueueRow>, after: map<int, QueueRow>, now: Value) {
    && (forall id :: id in after <==> id in before)
    && forall id :: id in before && id in after ==>
         after[id] == before[id].(createdAt := Repaired(before[id].createdAt, now))
  }

  /** The repair, value by value, in all four tables. */
  lemma RepairMeans(db: Db, repairedAt: string)
    requires repairedAt != "CURRENT_TIMESTAMP"
    requires Wide(Retry, db.live.retry) && Wide(Dlq, db.live.dlq)
    ensures var db', now := Repair(db, repairedAt), Str(repairedAt);
      && RetryRowsRepaired(db.live.retry, db'.live.retry, now)
      && DlqRowsRepaired(db.live.dlq, db'.live.dlq, now)
      && QueueRowsRepaired(db.queue.requests.rows, db'.queue.requests.rows, now)
      && QueueRowsRepaired(db.queue.history.rows, db'.queue.history.rows, now)
      && db'.queue.requests.sequence == db.queue.requests.sequence && db'.queue.history.sequence == db.queue.history.sequence
      && db' == db.(live := db'.live, queue := db'.queue)
  {
    var db', now := Repair(db, repairedAt), Str(repairedAt);
    forall id | id in db.live.dlq ensures db'.live.dlq[id] == DlqRepaired(db.live.dlq[id], now) {
      DlqRowRepaired(db.live.dlq, id, now);
    }
  }

  function RetryRepaired(row: Row, now: Value): Row {
    if |row| == 9 then row[8 := Repaired(row[8], now)] else row
  }

  function DlqRepaired(row: Row, now: Value): Row {
    if |row| == 8 then
      row[6 := Repaired(row[6], now)][7 := if row[7].Null? then now else Repaired(row[7], now)]
    else row
  }

  lemma DlqRowRepaired(t: Table, id: int, now: Value)
    requires id in t && |t[id]| == 8 && now.Str? && now != LITERAL
    ensures var original := RepairColumn(RepairColumn(t, MOVED_TO_DLQ, LITERAL, now), ORIGINAL_CREATED, LITERAL, now);
      RepairColumn(original, MOVED_TO_DLQ, Null, now)[id] == DlqRepaired(t[id], now)
  {
    var row := t[id];
    var moved := if row[7] == LITERAL then row[7 := now] else row;
    var original := if moved[6] == LITERAL then moved[6 := now] else moved;
    assert RepairColumn(t, MOVED_TO_DLQ, LITERAL, now)[id] == moved;
    assert RepairColumn(RepairColumn(t, MOVED_TO_DLQ, LITERAL, now), ORIGINAL_CREATED, LITERAL, now)[id] == original;
    var after := if original[7] == Null then original[7 := now] else original;
    assert after == DlqRepaired(row, now);
  }

  // ---------- whole migrations ----------

  /**
   A downgrade succeeds exactly on a capturable database at the nullable schema, and the
   old runtime is left with exactly the rows whose dates can be read; the others are in
   the archive as they were.
   */
  lemma DowngradeMeans(e: Env, db: Db, archiveId: string, reset: Resets)
    requires Shaped(db) && FreshId(db, archiveId)
    ensures Downgrade(e, db, archiveId, reset).Ok? <==> CapturableAt(e, db, "a7b8c9d0e1f2")
    ensures Downgrade(e, db, archiveId, reset).Ok? ==>
      var db' := Downgrade(e, db, archiveId, reset).value;
      && db'.revision == "f6a7b8c9d0e1" && !db'.dlqNullable
      && exists captured ::
           && HasCaptured(e, db, captured, "a7b8c9d0e1f2", archiveId)
           && db'.live == captured.live && db'.archive == captured.archive && db'.manifests == captured.manifests
    ensures Downgrade(e, db, archiveId, reset).Ok? ==>
      var db' := Downgrade(e, db, archiveId, reset).value;
      KeepsDated(e, Retry, db.live.retry, db'.live.retry) && KeepsDated(e, Dlq, db.live.dlq, db'.live.dlq)
  {
    DowngradeExact(e, db, archiveId, reset);
    CanCaptureMeans(e, db, HEAD);
    if Downgrade(e, db, archiveId, reset).Ok? {
      CaptureExact(e, db, HEAD, archiveId);
      DowngradeReaches(e, db, archiveId, reset);
      CaptureMeans(e, db, HEAD, archiveId, AfterCapture(e, db, HEAD, archiveId));
    }
  }

  // The database an upgrade restores into: its live rows are those whose dates can be
  // read, all others are archived.
  ghost predicate Narrowed(e: Env, db: Db, archiveId: string, mid: Db) {
    exists captured ::
      && HasCaptured(e, db, captured, "f6a7b8c9d0e1", archiveId)
      && KeepsDated(e, Retry, db.live.retry, captured.live.retry) && KeepsDated(e, Dlq, db.live.dlq, captured.live.dlq)
      && mid.live == captured.live && mid.archive == captured.archive && mid.manifests == captured.manifests
  }

  /**
   An upgrade succeeds exactly on a capturable database. While it repairs and rebuilds,
   only rows whose dates can be read are live; it ends with the restore of everything
   archived.
   */
  lemma UpgradeMeans(e: Env, db: Db, archiveId: string, repairedAt: string, reset: Resets)
    requires Shaped(db) && FreshId(db, archiveId)
    ensures Upgrade(e, db, archiveId, repairedAt, reset).Ok? <==> CapturableAt(e, db, "f6a7b8c9d0e1")
    ensures Upgrade(e, db, archiveId, repairedAt, reset).Ok? ==>
      var db' := Upgrade(e, db, archiveId, repairedAt, reset).value;
      && db'.revision == "a7b8c9d0e1f2" && db'.dlqNullable
      && exists mid ::
           && Narrowed(e, db, archiveId, mid)
           && Reunited(mid.live.retry, mid.archive.retry, db'.live.retry)
           && Reunited(mid.live.dlq, mid.archive.dlq, db'.live.dlq)
  {
    UpgradeExact(e, db, archiveId, repairedAt, reset);
    CanCaptureMeans(e, db, PREVIOUS);
    if Upgrade(e, db, archiveId, repairedAt, reset).Ok? {
      UpgradePasses(e, db, archiveId, repairedAt, reset);
    }
  }

  lemma UpgradePasses(e: Env, db: Db, archiveId: string, repairedAt: string, reset: Resets)
    requires Shaped(db) && FreshId(db, archiveId) && CanCapture(e, db, PREVIOUS)
    ensures Upgrade(e, db, archiveId, repairedAt, reset).Ok?
    ensures var db', mid := Upgrade(e, db, archiveId, repairedAt, reset).value, Altered(e, db, archiveId, repairedAt, reset);
      && Narrowed(e, db, archiveId, mid) && db'.revision == HEAD && db'.dlqNullable
      && Reunited(mid.live.retry, mid.archive.retry, db'.live.retry)
      && Reunited(mid.live.dlq, mid.archive.dlq, db'.live.dlq)
  {
    var mid, captured := Altered(e, db, archiveId, repairedAt, reset), AfterCapture(e, db, PREVIOUS, archiveId);
    CaptureExact(e, db, PREVIOUS, archiveId);
    CaptureMeans(e, db, PREVIOUS, archiveId, captured);
    UpgradeReachesRestore(e, db, archiveId, repairedAt, reset);
    AlteredRestorable(e, db, archiveId, repairedAt, reset);
    RestoreMeans(e, mid);
    RestoreExact(e, mid);
  }

  // ---------- the runtime ----------

  /** What the writes of a run do to the tables and to the ledger: the same. */
  lemma WritesMean(e: Env, st: System, s: Source, id: int, cells: seq<Value>)
    ensures id in st.db.live.At(s) ==>
      Next(e, st, Delete(s, id)) ==
        Ok(st.(db := st.db.(live := st.db.live.With(s, st.db.live.At(s) - {id})),
               ledger := st.ledger.With(s, st.ledger.At(s) - {id})))
    ensures Next(e, st, Update(s, id, cells)) ==
      Ok(st.(db := st.db.(live := st.db.live.With(s, st.db.live.At(s)[id := [Int(id)] + cells])),
             ledger := st.ledger.With(s, st.ledger.At(s)[id := [Int(id)] + cells])))
  {
  }

  lemma InsertWrites(e: Env, st: System, s: Source, cells: seq<Value>)
    requires MigrationRuns.Inv(e, st)
    ensures var id := LastIssued(st.db.sequence.At(s)) + 1;
      Covers(st.db.sequence.At(s), st.db.live.At(s)) ==>
        && Next(e, st, Insert(s, cells)).Ok?
        && var st' := Next(e, st, Insert(s, cells)).value;
           && st'.db.live == st.db.live.With(s, st.db.live.At(s)[id := [Int(id)] + cells])
           && st'.ledger == st.ledger.With(s, st.ledger.At(s)[id := [Int(id)] + cells])
           && LastIssued(st'.db.sequence.At(s)) == id && id in st'.issued.At(s)
  {
    NewIdIsNew(e, st, s, cells);
    assert ValidSequence(st.db.sequence.At(s));
    if Covers(st.db.sequence.At(s), st.db.live.At(s)) {
      NextIdMeans(st.db.sequence.At(s), st.db.live.At(s));
    }
  }
}

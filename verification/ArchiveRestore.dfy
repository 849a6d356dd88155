/**
 What restore does, as one closed form: every pending batch comes back or none
 does, and the identity sequences never move down.
 */
module ArchiveRestore {
  import opened Results
  import opened Sequences
  import opened RetryArchive
  import opened ArchiveDigests
  import opened ArchiveReading
  import opened ArchiveCapture

  // ---------- putting rows back ----------

  function Merged(t: Table, rows: seq<Row>): Table
    decreases rows
  {
    if rows == [] then t else Merged(t[IdOf(rows[0]) := rows[0]], rows[1..])
  }

  // Rows that may be inserted into t: their ids are new and distinct.
  ghost predicate Insertable(t: Table, rows: seq<Row>) {
    && Distinct(RowIds(rows))
    && forall i :: 0 <= i < |rows| ==> IdOf(rows[i]) !in t
  }

  lemma InsertableTail(t: Table, rows: seq<Row>)
    requires rows != [] && Insertable(t, rows)
    ensures IdOf(rows[0]) !in t
    ensures Insertable(t[IdOf(rows[0]) := rows[0]], rows[1..])
  {
    forall i | 0 <= i < |rows[1..]| ensures IdOf(rows[1..][i]) !in t[IdOf(rows[0]) := rows[0]] {
      assert RowIds(rows)[0] != RowIds(rows)[i + 1];
    }
    forall i, j | 0 <= i < j < |rows[1..]| ensures RowIds(rows[1..])[i] != RowIds(rows[1..])[j] {
      assert RowIds(rows)[i + 1] != RowIds(rows)[j + 1];
    }
  }

  lemma {:induction false} InsertEachExact(t: Table, rows: seq<Row>)
    requires Insertable(t, rows)
    ensures InsertEach(t, rows) == Ok(Merged(t, rows))
    decreases rows
  {
    if rows != [] {
      InsertableTail(t, rows);
      InsertEachExact(t[IdOf(rows[0]) := rows[0]], rows[1..]);
    }
  }

  lemma {:induction false} MergedMembers(t: Table, rows: seq<Row>)
    requires Insertable(t, rows)
    ensures forall id :: id in t ==> id in Merged(t, rows) && Merged(t, rows)[id] == t[id]
    ensures forall i :: 0 <= i < |rows| ==> IdOf(rows[i]) in Merged(t, rows) && Merged(t, rows)[IdOf(rows[i])] == rows[i]
    ensures forall id :: id in Merged(t, rows) ==> id in t || id in RowIds(rows)
    decreases rows
  {
    if rows != [] {
      var u := t[IdOf(rows[0]) := rows[0]];
      InsertableTail(t, rows);
      MergedMembers(u, rows[1..]);
      assert RowIds(rows) == [IdOf(rows[0])] + RowIds(rows[1..]);
      assert rows == [rows[0]] + rows[1..];
      forall i | 0 <= i < |rows|
        ensures IdOf(rows[i]) in Merged(t, rows) && Merged(t, rows)[IdOf(rows[i])] == rows[i]
      {
        if i > 0 {
          assert rows[1..][i - 1] == rows[i];
        }
      }
    }
  }

  lemma MergedRows(t: Table, rows: seq<Row>)
    requires Insertable(t, rows)
    ensures RowsOf(Merged(t, rows)) == RowsOf(t) + set row | row in rows
  {
    MergedMembers(t, rows);
    var u := Merged(t, rows);
    forall row | row in RowsOf(u) ensures row in RowsOf(t) || row in rows {
      var id :| id in u && u[id] == row;
      if id !in t {
        var i :| 0 <= i < |rows| && RowIds(rows)[i] == id;
        assert u[IdOf(rows[i])] == rows[i];
      }
    }
    forall row | row in rows ensures row in RowsOf(u) {
      var i :| 0 <= i < |rows| && rows[i] == row;
      assert IdOf(rows[i]) in u;
    }
  }

  lemma MergedKeyed(t: Table, rows: seq<Row>)
    requires Insertable(t, rows) && KeyedTable(t)
    requires forall row: Row :: row in rows ==> row != [] && row[0].Int?
    ensures KeyedTable(Merged(t, rows))
  {
    MergedMembers(t, rows);
    var u := Merged(t, rows);
    forall id | id in u ensures u[id] != [] && u[id][0] == Int(id) {
      if id !in t {
        var i :| 0 <= i < |rows| && RowIds(rows)[i] == id;
        assert u[IdOf(rows[i])] == rows[i] && rows[i] in rows;
      }
    }
  }

  lemma {:induction false} SelectByIdsMerged(u: Table, rows: seq<Row>)
    requires forall i :: 0 <= i < |rows| ==> IdOf(rows[i]) in u && u[IdOf(rows[i])] == rows[i]
    ensures SelectByIds(u, rows) == rows
  {
    if rows != [] {
      forall i | 0 <= i < |rows[1..]| ensures IdOf(rows[1..][i]) in u && u[IdOf(rows[1..][i])] == rows[1..][i] {
        assert rows[1..][i] == rows[i + 1];
      }
      SelectByIdsMerged(u, rows[1..]);
      assert rows == [rows[0]] + rows[1..];
    }
  }

  lemma {:induction false} MergedAppend(t: Table, p: seq<Row>, q: seq<Row>)
    ensures Merged(Merged(t, p), q) == Merged(t, p + q)
    decreases p
  {
    if p == [] {
      assert p + q == q;
    } else {
      assert (p + q)[0] == p[0] && (p + q)[1..] == p[1..] + q;
      MergedAppend(t[IdOf(p[0]) := p[0]], p[1..], q);
    }
  }

  // ---------- one source of one batch ----------

  ghost predicate Restorable(e: Env, db: Db, b: Batch, s: Source) {
    SoundSide(e, b, s) && db.dlqNullable && Insertable(db.live.At(s), Raws(b.rows.At(s)))
  }

  function SideRestored(db: Db, b: Batch, s: Source): Db {
    var t := Merged(db.live.At(s), Raws(b.rows.At(s)));
    db.(live := db.live.With(s, t),
        sequence := db.sequence.With(s, Advance(db.sequence.At(s), t, b.manifest.sides.At(s).highWater)))
  }

  lemma TypedIsStorable(s: Source, row: Row, original: bool)
    requires TypedRow(s, row, original)
    ensures Storable(s, row, true)
  {
    var recorded, current := Columns(s, original), Columns(s, true);
    forall i | 0 <= i < |row| && i < |current| && row[i].Null? ensures current[i].nullable {
      assert TypedValue(row[i], recorded[i]);
    }
  }

  lemma RestoreSideExact(e: Env, db: Db, b: Batch, s: Source)
    requires Restorable(e, db, b, s)
    ensures RestoreSide(e, db, b, s) == Ok(SideRestored(db, b, s))
  {
    var rows := Raws(b.rows.At(s));
    forall row | row in rows ensures Storable(s, row, db.dlqNullable) {
      TypedIsStorable(s, row, RecordedNullable(b.manifest));
    }
    InsertEachExact(db.live.At(s), rows);
    MergedMembers(db.live.At(s), rows);
    SelectByIdsMerged(Merged(db.live.At(s), rows), rows);
  }

  // ---------- all batches ----------

  ghost predicate AllRestorable(e: Env, db: Db, batches: seq<Batch>) {
    && db.dlqNullable
    && (forall b :: b in batches ==> SoundBatch(e, b))
    && Insertable(db.live.retry, Raws(AllRows(batches, Retry)))
    && Insertable(db.live.dlq, Raws(AllRows(batches, Dlq)))
  }

  lemma InsertableParts(t: Table, p: seq<Row>, q: seq<Row>)
    requires Insertable(t, p + q)
    ensures Insertable(t, p) && Insertable(Merged(t, p), q)
  {
    assert RowIds(p + q) == RowIds(p) + RowIds(q);
    DistinctParts(RowIds(p), RowIds(q));
    forall i | 0 <= i < |p| ensures IdOf(p[i]) !in t {
      assert (p + q)[i] == p[i];
    }
    MergedMembers(t, p);
    forall i | 0 <= i < |q| ensures IdOf(q[i]) !in Merged(t, p) {
      assert (p + q)[|p| + i] == q[i];
      assert RowIds(q)[i] in RowIds(q);
    }
  }

  lemma AllRowsHead(batches: seq<Batch>, s: Source)
    requires batches != []
    ensures Raws(AllRows(batches, s)) == Raws(batches[0].rows.At(s)) + Raws(AllRows(batches[1..], s))
  {
    RawsAppend(batches[0].rows.At(s), AllRows(batches[1..], s));
  }

  lemma RawsAppend(p: seq<Archived>, q: seq<Archived>)
    ensures Raws(p + q) == Raws(p) + Raws(q)
  {
    assert |Raws(p + q)| == |Raws(p) + Raws(q)|;
  }

  function BatchRestored(db: Db, b: Batch): Db {
    SideRestored(SideRestored(db, b, Retry), b, Dlq)
  }

  lemma FirstRestorable(e: Env, db: Db, batches: seq<Batch>)
    requires batches != [] && AllRestorable(e, db, batches)
    ensures Restorable(e, db, batches[0], Retry)
    ensures Restorable(e, SideRestored(db, batches[0], Retry), batches[0], Dlq)
    ensures AllRestorable(e, BatchRestored(db, batches[0]), batches[1..])
  {
    AllRowsHead(batches, Retry);
    AllRowsHead(batches, Dlq);
    InsertableParts(db.live.retry, Raws(batches[0].rows.At(Retry)), Raws(AllRows(batches[1..], Retry)));
    InsertableParts(db.live.dlq, Raws(batches[0].rows.At(Dlq)), Raws(AllRows(batches[1..], Dlq)));
    assert batches[0] in batches && SoundBatch(e, batches[0]);
    assert forall b :: b in batches[1..] ==> b in batches;
  }

  /** Restoring sound batches with free ids cannot fail half way. */
  lemma {:induction false} RestoreBatchesExact(e: Env, db: Db, batches: seq<Batch>)
    requires AllRestorable(e, db, batches)
    ensures RestoreBatches(e, db, batches).Ok?
    ensures var db' := RestoreBatches(e, db, batches).value;
      db'.live.retry == Merged(db.live.retry, Raws(AllRows(batches, Retry))) &&
      db'.live.dlq == Merged(db.live.dlq, Raws(AllRows(batches, Dlq))) &&
      db' == db.(live := db'.live, sequence := db'.sequence)
    decreases batches
  {
    if batches != [] {
      FirstRestorable(e, db, batches);
      RestoreSideExact(e, db, batches[0], Retry);
      RestoreSideExact(e, SideRestored(db, batches[0], Retry), batches[0], Dlq);
      RestoreBatchesExact(e, BatchRestored(db, batches[0]), batches[1..]);
      AllRowsHead(batches, Retry);
      AllRowsHead(batches, Dlq);
      MergedAppend(db.live.retry, Raws(batches[0].rows.At(Retry)), Raws(AllRows(batches[1..], Retry)));
      MergedAppend(db.live.dlq, Raws(batches[0].rows.At(Dlq)), Raws(AllRows(batches[1..], Dlq)));
    }
  }

  // ---------- acknowledging ----------

  lemma {:induction false} AcknowledgeMembers(db: Db, batches: seq<Batch>)
    requires db.manifests.Some?
    ensures var db' := Acknowledge(db, batches);
      && db'.manifests.Some?
      && db' == db.(archive := db'.archive, manifests := db'.manifests)
      && (forall r :: r in db'.archive.retry <==> r in db.archive.retry && NotAmong(batches, r.archiveId))
      && (forall r :: r in db'.archive.dlq <==> r in db.archive.dlq && NotAmong(batches, r.archiveId))
      && (forall m :: m in db'.manifests.value <==> m in db.manifests.value && NotAmong(batches, m.archiveId))
      && (DistinctOn(ManifestId, db.manifests.value) ==> DistinctOn(ManifestId, db'.manifests.value))
    decreases batches
  {
    if batches != [] {
      var id := batches[0].manifest.archiveId;
      var next := db.(archive := Pair(RowsExcept(db.archive.retry, id), RowsExcept(db.archive.dlq, id)),
                      manifests := Some(ManifestsExcept(db.manifests.value, id)));
      FilterMembers((r: Archived) => r.archiveId != id, db.archive.retry);
      FilterMembers((r: Archived) => r.archiveId != id, db.archive.dlq);
      FilterMembers((m: Manifest) => m.archiveId != id, db.manifests.value);
      if DistinctOn(ManifestId, db.manifests.value) {
        FilterDistinctOn((m: Manifest) => m.archiveId != id, ManifestId, db.manifests.value);
      }
      NotAmongTail(batches);
      AcknowledgeMembers(next, batches[1..]);
    }
  }

  function ManifestId(m: Manifest): string {
    m.archiveId
  }

  ghost predicate NotAmong(batches: seq<Batch>, archiveId: string) {
    forall i :: 0 <= i < |batches| ==> batches[i].manifest.archiveId != archiveId
  }

  lemma NotAmongTail(batches: seq<Batch>)
    requires batches != []
    ensures forall id :: NotAmong(batches, id) <==> id != batches[0].manifest.archiveId && NotAmong(batches[1..], id)
  {
    forall id ensures NotAmong(batches, id) <==> id != batches[0].manifest.archiveId && NotAmong(batches[1..], id) {
      if id != batches[0].manifest.archiveId && NotAmong(batches[1..], id) {
        forall i | 0 <= i < |batches| ensures batches[i].manifest.archiveId != id {
          if i > 0 {
            assert batches[1..][i - 1] == batches[i];
          }
        }
      }
      if NotAmong(batches, id) {
        forall i | 0 <= i < |batches[1..]| ensures batches[1..][i].manifest.archiveId != id {
          assert batches[1..][i] == batches[i + 1];
        }
      }
    }
  }

  lemma PendingIsNotAmong(db: Db, archiveId: string)
    ensures NotAmong(PendingBatches(db), archiveId) <==> archiveId !in ArchiveIds(PendingOf(db))
  {
    var p := PendingOf(db);
    assert forall i :: 0 <= i < |p| ==> PendingBatches(db)[i].manifest.archiveId == ArchiveIds(p)[i];
  }

  lemma NoMembers<T(!new)>(xs: seq<T>)
    requires forall x :: x !in xs
    ensures xs == []
  {
    Nonempty(xs);
  }

  /** Acknowledging every pending batch leaves the control marker and nothing else. */
  lemma AcknowledgeLeavesMarker(e: Env, db: Db, db': Db)
    requires Shaped(db) && Acceptable(e, db) && CheckMarker(e, db).Ok? && db.manifests.Some?
    requires db'.archive == db.archive && db'.manifests == db.manifests
    ensures Acknowledge(db', PendingBatches(db)) == db'.(archive := Pair([], []), manifests := Some([ControlManifest(e)]))
  {
    var batches, p := PendingBatches(db), PendingOf(db);
    var done := Acknowledge(db', batches);
    AcknowledgeMembers(db', batches);
    forall id {:trigger NotAmong(batches, id)} ensures NotAmong(batches, id) <==> id !in ArchiveIds(p) {
      PendingIsNotAmong(db, id);
    }
    NoMembers(done.archive.retry);
    NoMembers(done.archive.dlq);
    PendingMembers(db.manifests.value);
    forall m | m in db.manifests.value && m.archiveId != CONTROL_ID ensures m.archiveId in ArchiveIds(p) {
      var i :| 0 <= i < |p| && p[i] == m;
      assert ArchiveIds(p)[i] == m.archiveId;
    }
    ControlNotPending(db);
    assert ControlManifest(e) in done.manifests.value;
    ManifestsDistinct(db);
    OnlyOne(done.manifests.value, ControlManifest(e));
  }

  lemma ControlNotPending(db: Db)
    ensures CONTROL_ID !in ArchiveIds(PendingOf(db))
  {
    if db.manifests.Some? {
      PendingMembers(db.manifests.value);
      var p := PendingOf(db);
      forall i | 0 <= i < |p| ensures ArchiveIds(p)[i] != CONTROL_ID {
        assert p[i] in p;
      }
    }
  }

  lemma ManifestsDistinct(db: Db)
    requires Shaped(db) && db.manifests.Some?
    ensures DistinctOn(ManifestId, db.manifests.value)
  {
    var ms := db.manifests.value;
    forall i, j | 0 <= i < j < |ms| ensures ManifestId(ms[i]) != ManifestId(ms[j]) {
      assert ArchiveIds(ms)[i] != ArchiveIds(ms)[j];
    }
  }

  lemma OnlyOne(ms: seq<Manifest>, m: Manifest)
    requires DistinctOn(ManifestId, ms) && m in ms
    requires forall i :: 0 <= i < |ms| ==> ms[i].archiveId == m.archiveId
    ensures ms == [m]
  {
    assert 1 < |ms| ==> ManifestId(ms[0]) != ManifestId(ms[1]);
    assert ms[0] == m;
  }

  // ---------- restore as a whole ----------

  ghost predicate CanRestore(e: Env, db: Db) {
    CheckSources(db, HEAD).Ok? && CheckMarker(e, db).Ok? && Acceptable(e, db)
  }

  function ArchivedRows(db: Db, s: Source): seq<Row> {
    Raws(AllRows(PendingBatches(db), s))
  }

  lemma PreviousIsNotHead()
    ensures PREVIOUS != HEAD
  {
    assert PREVIOUS[0] != HEAD[0];
  }

  lemma PendingRestorable(e: Env, db: Db)
    requires Shaped(db) && Acceptable(e, db) && db.dlqNullable
    ensures AllRestorable(e, db, PendingBatches(db))
  {
    PendingInsertable(db, Retry);
    PendingInsertable(db, Dlq);
  }

  lemma PendingInsertable(db: Db, s: Source)
    requires SeparateIds(db, PendingBatches(db), s)
    ensures Insertable(db.live.At(s), ArchivedRows(db, s))
  {
    var all := AllRows(PendingBatches(db), s);
    assert RowIds(Raws(all)) == Ids(all);
    forall i | 0 <= i < |all| ensures IdOf(Raws(all)[i]) !in db.live.At(s) {
      assert Ids(all)[i] in Ids(all);
    }
  }

  /**
   Restore brings back every pending batch or none: it refuses exactly when the schema
   is not the newer one, the marker missing or the archive unreadable, and then before any write; the
   primary keys and the check after insertion cannot fail.
   */
  lemma RestoreExact(e: Env, db: Db)
    requires Shaped(db)
    ensures !CanRestore(e, db) ==> Restore(e, db).Refused? && Restore(e, db).why.BeforeWrites()
    ensures CanRestore(e, db) ==> Restore(e, db).Ok? && Restored(e, db, Restore(e, db).value)
  {
    ReadArchiveExact(e, db);
    PreviousIsNotHead();
    if CanRestore(e, db) {
      if PendingBatches(db) == [] {
        NothingPending(e, db);
      } else {
        PendingRestorable(e, db);
        RestoreBatchesExact(e, db, PendingBatches(db));
        AcknowledgeLeavesMarker(e, db, RestoreBatches(e, db, PendingBatches(db)).value);
      }
    }
  }

  // The result of restoring db: all rows live again, no batch pending, marker kept.
  ghost predicate Restored(e: Env, db: Db, db': Db) {
    && db'.live.retry == Merged(db.live.retry, ArchivedRows(db, Retry))
    && db'.live.dlq == Merged(db.live.dlq, ArchivedRows(db, Dlq))
    && db'.archive == Pair([], [])
    && db'.manifests == (if db.manifests.None? then None else Some([ControlManifest(e)]))
    && db' == db.(live := db'.live, sequence := db'.sequence, archive := db'.archive, manifests := db'.manifests)
  }

  lemma NothingPending(e: Env, db: Db)
    requires Shaped(db) && CanRestore(e, db) && PendingBatches(db) == []
    ensures Restored(e, db, db)
  {
    assert ArchivedRows(db, Retry) == [] && ArchivedRows(db, Dlq) == [];
    assert PendingOf(db) == [];
    assert forall r :: r !in db.archive.retry;
    assert forall r :: r !in db.archive.dlq;
    NoMembers(db.archive.retry);
    NoMembers(db.archive.dlq);
    if db.manifests.Some? {
      AcknowledgeLeavesMarker(e, db, db);
      assert Acknowledge(db, []) == db;
    }
  }

  /** A second restore changes nothing. */
  lemma RestoreTwice(e: Env, db: Db, db': Db)
    requires Shaped(db) && Restore(e, db) == Ok(db')
    ensures Restore(e, db') == Ok(db')
  {
    RestoreExact(e, db);
    EmptyArchiveRestores(e, db');
  }

  lemma EmptyArchiveRestores(e: Env, db: Db)
    requires db.archive == Pair([], []) && (db.manifests.None? || db.manifests == Some([ControlManifest(e)]))
    requires db.dlqNullable
    ensures Restore(e, db) == Ok(db)
  {
    PreviousIsNotHead();
    if db.manifests.Some? {
      var control := ControlManifest(e);
      FilterNone((m: Manifest) => m.archiveId != CONTROL_ID, [control]);
      assert Pending(db.manifests.value) == [];
      assert CheckBatches(e, db, []) == Ok([]);
      assert AllRows([], Retry) == [] && AllRows([], Dlq) == [];
      assert Ids([]) == [];
    }
  }

  lemma AllRowsAreArchive(e: Env, db: Db, s: Source)
    requires Acceptable(e, db)
    ensures forall r :: r in AllRows(PendingBatches(db), s) <==> r in db.archive.At(s)
  {
    assert NoOrphans(db.archive.At(s), PendingOf(db));
    forall r | r in db.archive.At(s) ensures r in AllRows(PendingBatches(db), s) {
      ArchivedIsPending(db, s, r);
    }
    forall r | r in AllRows(PendingBatches(db), s) ensures r in db.archive.At(s) {
      PendingIsArchived(db, s, r);
    }
  }

  lemma ArchivedIsPending(db: Db, s: Source, r: Archived)
    requires r in db.archive.At(s) && r.archiveId in ArchiveIds(PendingOf(db))
    ensures r in AllRows(PendingBatches(db), s)
  {
    var p := PendingOf(db);
    var i :| 0 <= i < |p| && ArchiveIds(p)[i] == r.archiveId;
    BatchRows(db, p[i], s);
    assert PendingBatches(db)[i] in PendingBatches(db);
    AllRowsMembers(PendingBatches(db), s);
  }

  lemma PendingIsArchived(db: Db, s: Source, r: Archived)
    requires r in AllRows(PendingBatches(db), s)
    ensures r in db.archive.At(s)
  {
    AllRowsMembers(PendingBatches(db), s);
    var b :| b in PendingBatches(db) && r in b.rows.At(s);
    BatchRows(db, b.manifest, s);
  }

  lemma ArchivedNotLive(e: Env, db: Db, s: Source)
    requires Acceptable(e, db)
    ensures forall r :: r in db.archive.At(s) ==> IdOf(r.raw) !in db.live.At(s)
  {
    var all := AllRows(PendingBatches(db), s);
    AllRowsAreArchive(e, db, s);
    assert SeparateIds(db, PendingBatches(db), s);
    forall r | r in db.archive.At(s) ensures IdOf(r.raw) !in db.live.At(s) {
      var i :| 0 <= i < |all| && all[i] == r;
      assert Ids(all)[i] in Ids(all);
    }
  }

  /** One archived id that is occupied, by whatever row, stops the whole restore. */
  lemma OccupiedIdIsRefused(e: Env, db: Db, s: Source, r: Archived)
    requires Shaped(db) && r in db.archive.At(s) && IdOf(r.raw) in db.live.At(s)
    ensures ReadArchive(e, db).Refused? && Restore(e, db).Refused? && Restore(e, db).why.BeforeWrites()
  {
    ReadArchiveExact(e, db);
    if Acceptable(e, db) {
      ArchivedNotLive(e, db, s);
    }
  }

  lemma ArchivedRowsAreArchive(e: Env, db: Db, s: Source)
    requires Acceptable(e, db)
    ensures (set row | row in ArchivedRows(db, s)) == RawSet(db.archive.At(s))
  {
    var all := AllRows(PendingBatches(db), s);
    AllRowsAreArchive(e, db, s);
    RawsOfAll(all);
    assert RawSet(all) == RawSet(db.archive.At(s));
  }

  lemma RowOfSomeBatch(db: Db, s: Source, row: Row)
    requires row in ArchivedRows(db, s)
    ensures exists b :: b in PendingBatches(db) && row in Raws(b.rows.At(s))
  {
    var batches, all := PendingBatches(db), AllRows(PendingBatches(db), s);
    AllRowsMembers(batches, s);
    var i :| 0 <= i < |all| && Raws(all)[i] == row;
    assert all[i] in all;
    var b :| b in batches && all[i] in b.rows.At(s);
    var j :| 0 <= j < |b.rows.At(s)| && b.rows.At(s)[j] == all[i];
    assert Raws(b.rows.At(s))[j] == row;
  }

  lemma RawsOfAll(all: seq<Archived>)
    ensures (set row | row in Raws(all)) == RawSet(all)
  {
    forall r | r in all ensures r.raw in Raws(all) {
      var i :| 0 <= i < |all| && all[i] == r;
      assert Raws(all)[i] == r.raw;
    }
  }

  /** Restore keeps every row of both sources, and all of them are live. */
  lemma RestoreConserves(e: Env, db: Db, db': Db, s: Source)
    requires Shaped(db) && Restore(e, db) == Ok(db')
    ensures Contents(db', s) == RowsOf(db'.live.At(s)) == Contents(db, s)
  {
    RestoreExact(e, db);
    assert SeparateIds(db, PendingBatches(db), s);
    PendingInsertable(db, s);
    MergedRows(db.live.At(s), ArchivedRows(db, s));
    ArchivedRowsAreArchive(e, db, s);
    assert db'.live.At(s) == Merged(db.live.At(s), ArchivedRows(db, s));
    assert db'.archive.At(s) == [];
  }

  lemma ArchivedRowsTyped(e: Env, db: Db, s: Source)
    requires Acceptable(e, db)
    ensures forall row :: row in ArchivedRows(db, s) ==> TypedRow(s, row, true)
  {
    forall row | row in ArchivedRows(db, s) ensures TypedRow(s, row, true) {
      RowOfSomeBatch(db, s, row);
      var b :| b in PendingBatches(db) && row in Raws(b.rows.At(s));
      assert SoundSide(e, b, s);
      TypedWidens(s, row, RecordedNullable(b.manifest));
    }
  }

  lemma TypedWidens(s: Source, row: Row, original: bool)
    requires TypedRow(s, row, original)
    ensures TypedRow(s, row, true)
  {
    var recorded, current := Columns(s, original), Columns(s, true);
    forall i | 0 <= i < |row| ensures TypedValue(row[i], current[i]) {
      assert TypedValue(row[i], recorded[i]);
    }
  }

  /** After restore the tables are keyed and typed for the newer schema. */
  lemma RestoreKeepsShape(e: Env, db: Db, db': Db, s: Source)
    requires Shaped(db) && Restore(e, db) == Ok(db') && TypedTable(s, db.live.At(s), true)
    ensures KeyedTable(db'.live.At(s)) && TypedTable(s, db'.live.At(s), true)
  {
    RestoreExact(e, db);
    var t, rows := db.live.At(s), ArchivedRows(db, s);
    assert SeparateIds(db, PendingBatches(db), s);
    PendingInsertable(db, s);
    ArchivedRowsTyped(e, db, s);
    MergedTyped(s, t, rows);
    assert db'.live.At(s) == Merged(t, rows);
  }

  lemma MergedTyped(s: Source, t: Table, rows: seq<Row>)
    requires Insertable(t, rows) && KeyedTable(t) && TypedTable(s, t, true)
    requires forall row :: row in rows ==> TypedRow(s, row, true)
    ensures KeyedTable(Merged(t, rows)) && TypedTable(s, Merged(t, rows), true)
  {
    forall row: Row | row in rows ensures row != [] && row[0].Int? {
      assert TypedValue(row[0], Columns(s, true)[0]);
    }
    MergedKeyed(t, rows);
    MergedMembers(t, rows);
    var u := Merged(t, rows);
    forall id | id in u ensures TypedRow(s, u[id], true) {
      if id !in t {
        var i :| 0 <= i < |rows| && RowIds(rows)[i] == id;
        assert u[IdOf(rows[i])] == rows[i] && rows[i] in rows;
      }
    }
  }

  // ---------- sequences ----------

  // The greatest id the sequence has handed out so far.
  function LastIssued(q: Sequence): int {
    match q
    case Sqlite(None) => 0
    case Sqlite(Some(v)) => v
    case Postgres(last, called) => if called then last else last - 1
  }

  ghost predicate Covers(q: Sequence, t: Table) {
    forall id :: id in t ==> id <= LastIssued(q)
  }

  /** Advancing never moves a sequence down, and puts it past the table and the mark. */
  lemma AdvanceCovers(q: Sequence, t: Table, highWater: int)
    requires ValidSequence(q)
    ensures LastIssued(Advance(q, t, highWater)) >= LastIssued(q)
    ensures LastIssued(Advance(q, t, highWater)) >= highWater
    ensures Covers(Advance(q, t, highWater), t)
  {
    MaxIdBounds(t);
  }

  /** The next id is past everything the sequence has handed out. */
  lemma NextIdIsNew(q: Sequence, t: Table)
    ensures NextId(q, t) > LastIssued(q)
  {
  }

  // The sequence of one source is past the mark of every one of the batches.
  ghost predicate PastMarks(q: Sequence, batches: seq<Batch>, s: Source) {
    forall b :: b in batches ==> b.manifest.sides.At(s).highWater <= LastIssued(q)
  }

  lemma {:induction false} RestoreBatchesSequence(e: Env, db: Db, batches: seq<Batch>, s: Source)
    requires AllRestorable(e, db, batches)
    requires ValidSequence(db.sequence.At(s))
    ensures RestoreBatches(e, db, batches).Ok?
    ensures ValidSequence(RestoreBatches(e, db, batches).value.sequence.At(s))
    ensures LastIssued(RestoreBatches(e, db, batches).value.sequence.At(s)) >= LastIssued(db.sequence.At(s))
    ensures PastMarks(RestoreBatches(e, db, batches).value.sequence.At(s), batches, s)
    ensures batches != [] || Covers(db.sequence.At(s), db.live.At(s)) ==>
      Covers(RestoreBatches(e, db, batches).value.sequence.At(s), RestoreBatches(e, db, batches).value.live.At(s))
    decreases batches
  {
    if batches != [] {
      var b := batches[0];
      FirstRestorable(e, db, batches);
      RestoreSideExact(e, db, b, Retry);
      RestoreSideExact(e, SideRestored(db, b, Retry), b, Dlq);
      var t := Merged(db.live.At(s), Raws(b.rows.At(s)));
      AdvanceCovers(db.sequence.At(s), t, b.manifest.sides.At(s).highWater);
      AdvanceValid(db.sequence.At(s), t, b.manifest.sides.At(s).highWater);
      var next := BatchRestored(db, b);
      assert next.live.At(s) == t;
      RestoreBatchesSequence(e, next, batches[1..], s);
      assert batches == [b] + batches[1..];
    }
  }

  /**
   Restore lowers no sequence, and leaves each past every id it put back and past
   the high-water mark of every batch, whatever the sequence was before.
   */
  lemma RestoreSequence(e: Env, db: Db, db': Db, s: Source)
    requires Shaped(db) && Restore(e, db) == Ok(db')
    ensures ValidSequence(db'.sequence.At(s))
    ensures LastIssued(db'.sequence.At(s)) >= LastIssued(db.sequence.At(s))
    ensures PastMarks(db'.sequence.At(s), PendingBatches(db), s)
    ensures PendingBatches(db) != [] || Covers(db.sequence.At(s), db.live.At(s)) ==> Covers(db'.sequence.At(s), db'.live.At(s))
  {
    RestoreExact(e, db);
    ReadArchiveExact(e, db);
    assert ValidSequence(db.sequence.At(s));
    PendingRestorable(e, db);
    RestoreBatchesSequence(e, db, PendingBatches(db), s);
    if PendingBatches(db) != [] {
      RestoreBatchesExact(e, db, PendingBatches(db));
      AcknowledgeLeavesMarker(e, db, RestoreBatches(e, db, PendingBatches(db)).value);
    }
  }

  // The mark a capture writes is past everything issued and everything live.
  lemma MarkRemembers(e: Env, db: Db, revision: string, archiveId: string, s: Source)
    requires Shaped(db)
    ensures var mark := NewManifest(e, db, revision, archiveId).sides.At(s).highWater;
      mark >= LastIssued(db.sequence.At(s)) && forall id :: id in db.live.At(s) ==> id <= mark
  {
    NewManifestSide(e, db, revision, archiveId, s);
    assert ValidSequence(db.sequence.At(s));
    HighWaterBounds(db.sequence.At(s), db.live.At(s));
  }

  /**
   The archive alone remembers the identities: once a capture has stored anything,
   the tables and sequences may be lost and made anew, with whatever rows they hold;
   after restoring, no id issued before the capture is issued again.
   */
  lemma IdentitiesSurviveTheArchive(e: Env, db: Db, revision: string, archiveId: string, later: Db, db': Db, s: Source)
    requires Shaped(db) && FreshId(db, archiveId) && CanCapture(e, db, revision) && !NothingCaptured(e, db)
    requires Shaped(later)
    requires later.manifests == AfterCapture(e, db, revision, archiveId).manifests
    requires Restore(e, later) == Ok(db')
    ensures LastIssued(db'.sequence.At(s)) >= LastIssued(db.sequence.At(s))
    ensures Covers(db'.sequence.At(s), db.live.At(s))
  {
    PendingAfterCapture(e, db, revision, archiveId);
    RestoreSequence(e, later, db', s);
    var m, p := NewManifest(e, db, revision, archiveId), PendingOf(later);
    assert p == PendingOf(db) + [m];
    assert PendingBatches(later)[|p| - 1] == BatchOf(later, m);
    assert BatchOf(later, m) in PendingBatches(later);
    MarkRemembers(e, db, revision, archiveId, s);
  }
}

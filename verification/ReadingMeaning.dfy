/**
 Which archives are read and when capture and restore go ahead, in terms of the stored
 values alone.
 */
module ReadingMeaning {
  import opened Sequences
  import opened RetryArchive
  import opened ArchiveDigests
  import opened ArchiveReading
  import opened ArchiveCapture
  import opened ArchiveRestore
  import opened ArchiveEvidence
  import opened ArchiveMeaning
  import JsonText

  // A batch and not the marker.
  ghost predicate IsBatch(db: Db, m: Manifest) {
    db.manifests.Some? && m in db.manifests.value && m.archiveId != "__contract_v1__"
  }

  // Written by this format, at one of the two revisions, under a schema that had.
  ghost predicate GoodHeader(m: Manifest) {
    && m.owner == "gitlab_queue.retry_rollback" && m.formatVersion == 1 && m.targetRevision == "f6a7b8c9d0e1"
    && (m.sourceRevision == "a7b8c9d0e1f2" || m.sourceRevision == "f6a7b8c9d0e1")
    && (m.sourceSchema == SchemaText(true) || (m.sourceRevision == "f6a7b8c9d0e1" && m.sourceSchema == SchemaText(false)))
  }

  // A row as the manifest's schema has it, with its own digest, and not past the mark.
  ghost predicate GoodRow(e: Env, m: Manifest, s: Source, r: Archived) {
    && Plain(s, r.raw, m.sourceSchema == SchemaText(true))
    && r.rowDigest == e.hash(JsonText.Text(RowsJson([r.raw])))
    && IdOf(r.raw) <= m.sides.At(s).highWater
  }

  ghost predicate GoodSide(e: Env, db: Db, m: Manifest, s: Source) {
    var rows := RowsFor(db.archive.At(s), m.archiveId);
    && (forall r :: r in db.archive.At(s) && r.archiveId == m.archiveId ==> GoodRow(e, m, s, r))
    && |rows| == m.sides.At(s).count
    && BatchDigest(e, m, s, Raws(rows)) == m.sides.At(s).digest
    && (rows == [] ==> 0 <= m.sides.At(s).highWater)
  }

  // Every archived row has a batch.
  ghost predicate AllOwned(db: Db, s: Source) {
    forall r :: r in db.archive.At(s) ==> exists m :: IsBatch(db, m) && m.archiveId == r.archiveId
  }

  // No id is archived twice, or archived and live.
  ghost predicate IdsApart(db: Db, s: Source) {
    && (forall i, j :: 0 <= i < j < |db.archive.At(s)| ==> IdOf(db.archive.At(s)[i].raw) != IdOf(db.archive.At(s)[j].raw))
    && forall r :: r in db.archive.At(s) ==> IdOf(r.raw) !in db.live.At(s)
  }

  ghost predicate GoodArchive(e: Env, db: Db) {
    && AllOwned(db, Retry) && AllOwned(db, Dlq)
    && (forall m :: IsBatch(db, m) ==> GoodHeader(m) && GoodSide(e, db, m, Retry) && GoodSide(e, db, m, Dlq))
    && IdsApart(db, Retry) && IdsApart(db, Dlq)
  }

  // ---------- batches ----------

  lemma BatchIsPending(db: Db)
    ensures forall m :: IsBatch(db, m) <==> m in PendingOf(db)
  {
    if db.manifests.Some? {
      PendingMembers(db.manifests.value);
    }
  }

  lemma IdsOfPending(db: Db, id: string)
    ensures id in ArchiveIds(PendingOf(db)) <==> exists m :: IsBatch(db, m) && m.archiveId == id
  {
    BatchIsPending(db);
    var p := PendingOf(db);
    if id in ArchiveIds(p) {
      var i :| 0 <= i < |p| && ArchiveIds(p)[i] == id;
      assert p[i] in p;
    }
    if exists m :: IsBatch(db, m) && m.archiveId == id {
      var m :| IsBatch(db, m) && m.archiveId == id;
      var i :| 0 <= i < |p| && p[i] == m;
      assert ArchiveIds(p)[i] == id;
    }
  }

  lemma OwnedIsNoOrphans(db: Db, s: Source)
    ensures AllOwned(db, s) <==> NoOrphans(db.archive.At(s), PendingOf(db))
  {
    forall r | r in db.archive.At(s)
      ensures r.archiveId in ArchiveIds(PendingOf(db)) <==> exists m :: IsBatch(db, m) && m.archiveId == r.archiveId
    {
      IdsOfPending(db, r.archiveId);
    }
  }

  lemma MaxBelow(rows: seq<Archived>, mark: int)
    ensures MaxOf(Ids(rows)) <= mark <==> (rows == [] ==> 0 <= mark) && forall r :: r in rows ==> IdOf(r.raw) <= mark
  {
    var ids := Ids(rows);
    if rows != [] {
      MaxOfMembers(ids);
      forall r | r in rows ensures IdOf(r.raw) <= MaxOf(ids) {
        var i :| 0 <= i < |rows| && rows[i] == r;
        assert ids[i] in ids;
      }
      var k :| 0 <= k < |ids| && ids[k] == MaxOf(ids);
      assert rows[k] in rows;
    }
  }

  lemma TypedRowsArePlain(s: Source, rows: seq<Archived>, nullable: bool)
    ensures TypedRows(s, Raws(rows), nullable) <==> forall r :: r in rows ==> Plain(s, r.raw, nullable)
  {
    forall r | r in rows ensures r.raw in Raws(rows) {
      var i :| 0 <= i < |rows| && rows[i] == r;
      assert Raws(rows)[i] == r.raw;
    }
    forall r | r in rows ensures TypedRow(s, r.raw, nullable) <==> Plain(s, r.raw, nullable) {
      TypedIsPlain(s, r.raw, nullable);
    }
    forall row | row in Raws(rows) ensures exists r :: r in rows && r.raw == row {
      var i :| 0 <= i < |rows| && Raws(rows)[i] == row;
      assert rows[i] in rows;
    }
  }

  lemma RowDigests(e: Env, rows: seq<Archived>)
    ensures forall r :: r in rows ==> Digest(e, [r.raw]) == e.hash(JsonText.Text(RowsJson([r.raw])))
  {
    forall r | r in rows ensures Digest(e, [r.raw]) == e.hash(JsonText.Text(RowsJson([r.raw]))) {
      SortOne(r.raw);
    }
  }

  lemma SideMeans(e: Env, db: Db, m: Manifest, s: Source)
    ensures SoundSide(e, BatchOf(db, m), s) <==> GoodSide(e, db, m, s)
  {
    var rows := RowsFor(db.archive.At(s), m.archiveId);
    BatchRows(db, m, s);
    TypedRowsArePlain(s, rows, m.sourceSchema == SchemaText(true));
    RowDigests(e, rows);
    MaxBelow(rows, m.sides.At(s).highWater);
  }

  lemma HeaderMeans(m: Manifest)
    ensures SupportedHeader(m) <==> GoodHeader(m)
  {
  }

  lemma BatchesMean(e: Env, db: Db)
    ensures (forall b :: b in PendingBatches(db) ==> SoundBatch(e, b)) <==>
      forall m :: IsBatch(db, m) ==> GoodHeader(m) && GoodSide(e, db, m, Retry) && GoodSide(e, db, m, Dlq)
  {
    BatchIsPending(db);
    forall m | m in PendingOf(db)
      ensures SoundBatch(e, BatchOf(db, m)) <==> GoodHeader(m) && GoodSide(e, db, m, Retry) && GoodSide(e, db, m, Dlq)
      ensures BatchOf(db, m) in PendingBatches(db)
    {
      HeaderMeans(m);
      SideMeans(e, db, m, Retry);
      SideMeans(e, db, m, Dlq);
      var i :| 0 <= i < |PendingOf(db)| && PendingOf(db)[i] == m;
      assert PendingBatches(db)[i] == BatchOf(db, m);
    }
    forall b | b in PendingBatches(db) ensures b.manifest in PendingOf(db) && b == BatchOf(db, b.manifest) {
      var i :| 0 <= i < |PendingBatches(db)| && PendingBatches(db)[i] == b;
      assert PendingOf(db)[i] in PendingOf(db);
    }
  }

  // ---------- ids ----------

  lemma FilterKeepsBoth<T>(keep: T -> bool, xs: seq<T>, i: nat, j: nat) returns (p: nat, q: nat)
    requires i < j < |xs| && xs[i] == xs[j] && keep(xs[i])
    ensures p < q < |Filter(keep, xs)| && Filter(keep, xs)[p] == Filter(keep, xs)[q] == xs[i]
  {
    var a, b := xs[..j], xs[j..];
    assert xs == a + b && a[i] == xs[i] && b[0] == xs[j];
    FilterAppend(keep, a, b);
    p := FilterHas(keep, a, i);
    q := |Filter(keep, a)|;
    assert Filter(keep, b)[0] == xs[j];
  }

  lemma {:induction false} FilterHas<T>(keep: T -> bool, xs: seq<T>, i: nat) returns (p: nat)
    requires i < |xs| && keep(xs[i])
    ensures p < |Filter(keep, xs)| && Filter(keep, xs)[p] == xs[i]
  {
    if i == 0 {
      p := 0;
    } else {
      var k := FilterHas(keep, xs[1..], i - 1);
      p := if keep(xs[0]) then k + 1 else k;
    }
  }

  lemma OnceInBatches(db: Db, s: Source, i: nat, j: nat)
    requires NoOrphans(db.archive.At(s), PendingOf(db)) && Distinct(Ids(AllRows(PendingBatches(db), s)))
    requires i < j < |db.archive.At(s)|
    ensures IdOf(db.archive.At(s)[i].raw) != IdOf(db.archive.At(s)[j].raw)
  {
    var archive, all := db.archive.At(s), AllRows(PendingBatches(db), s);
    var r, r' := archive[i], archive[j];
    assert r in archive && r' in archive;
    ArchivedIsPending(db, s, r);
    ArchivedIsPending(db, s, r');
    var k :| 0 <= k < |all| && all[k] == r;
    var l :| 0 <= l < |all| && all[l] == r';
    if IdOf(r.raw) == IdOf(r'.raw) {
      assert Ids(all)[k] == Ids(all)[l];
      assert r == r';
      NotTwice(db, s, i, j);
    }
  }

  lemma NotTwice(db: Db, s: Source, i: nat, j: nat)
    requires NoOrphans(db.archive.At(s), PendingOf(db)) && Distinct(Ids(AllRows(PendingBatches(db), s)))
    requires i < j < |db.archive.At(s)|
    ensures db.archive.At(s)[i] != db.archive.At(s)[j]
  {
    var archive, p := db.archive.At(s), PendingOf(db);
    var id := archive[i].archiveId;
    assert archive[i] in archive;
    var k :| 0 <= k < |p| && ArchiveIds(p)[k] == id;
    BatchIdsDistinct(PendingBatches(db), s, k);
    BatchRows(db, p[k], s);
    if archive[i] == archive[j] {
      TwiceInBatch(archive, i, j);
    }
  }

  lemma TwiceInBatch(archive: seq<Archived>, i: nat, j: nat)
    requires i < j < |archive| && archive[i] == archive[j]
    ensures !Distinct(RowIds(Raws(RowsFor(archive, archive[i].archiveId))))
  {
    var id := archive[i].archiveId;
    var rows := RowsFor(archive, id);
    var a, b := FilterKeepsBoth((r: Archived) => r.archiveId == id, archive, i, j);
    assert RowIds(Raws(rows))[a] == RowIds(Raws(rows))[b];
  }

  lemma ApartMeansSeparate(db: Db, s: Source)
    requires Shaped(db) && IdsApart(db, s)
    ensures SeparateIds(db, PendingBatches(db), s)
  {
    var archive, all := db.archive.At(s), AllRows(PendingBatches(db), s);
    assert KeyedArchive(archive);
    forall r, r' | r in archive && r' in archive && IdOf(r.raw) == IdOf(r'.raw) ensures r == r' {
      var i :| 0 <= i < |archive| && archive[i] == r;
      var j :| 0 <= j < |archive| && archive[j] == r';
      assert i == j;
    }
    PendingIdsDistinct(db);
    BatchesApart(db, PendingOf(db), s);
    forall id | id in Ids(all) ensures id !in db.live.At(s) {
      var i :| 0 <= i < |all| && Ids(all)[i] == id;
      PendingIsArchived(db, s, all[i]);
    }
  }

  lemma SeparateMeansApart(db: Db, s: Source)
    requires NoOrphans(db.archive.At(s), PendingOf(db)) && SeparateIds(db, PendingBatches(db), s)
    ensures IdsApart(db, s)
  {
    var archive, all := db.archive.At(s), AllRows(PendingBatches(db), s);
    forall i, j | 0 <= i < j < |archive| ensures IdOf(archive[i].raw) != IdOf(archive[j].raw) {
      OnceInBatches(db, s, i, j);
    }
    forall r | r in archive ensures IdOf(r.raw) !in db.live.At(s) {
      ArchivedIsPending(db, s, r);
      var k :| 0 <= k < |all| && all[k] == r;
      assert Ids(all)[k] in Ids(all);
    }
  }

  // ---------- main results ----------

  lemma AcceptableMeans(e: Env, db: Db)
    requires Shaped(db)
    ensures Acceptable(e, db) <==> GoodArchive(e, db)
  {
    OwnedIsNoOrphans(db, Retry);
    OwnedIsNoOrphans(db, Dlq);
    BatchesMean(e, db);
    if Acceptable(e, db) {
      SeparateMeansApart(db, Retry);
      SeparateMeansApart(db, Dlq);
    }
    if GoodArchive(e, db) {
      ApartMeansSeparate(db, Retry);
      ApartMeansSeparate(db, Dlq);
    }
  }

  /**
   An archive is read exactly when every row has a batch, every batch a supported
   header, the counts, digests and marks its rows call for, and no id occurs twice or
   is live; otherwise reading refuses.
   */
  lemma ReadMeans(e: Env, db: Db)
    requires Shaped(db)
    ensures ReadArchive(e, db).Ok? <==> GoodArchive(e, db)
  {
    ReadArchiveExact(e, db);
    AcceptableMeans(e, db);
  }

  // The marker is there whenever the archive tables are.
  ghost predicate Marked(e: Env, db: Db) {
    db.manifests.None? || exists m :: m in db.manifests.value && IsMarker(e, m)
  }

  lemma MarkerMeans(e: Env, db: Db)
    ensures CheckMarker(e, db).Ok? <==> Marked(e, db)
  {
    ControlIsMarker(e);
  }

  // Every row of a table has the columns of its schema.
  ghost predicate PlainTable(s: Source, t: Table, nullable: bool) {
    forall id :: id in t ==> Plain(s, t[id], nullable)
  }

  lemma PlainIsTyped(s: Source, t: Table, nullable: bool)
    ensures PlainTable(s, t, nullable) <==> TypedTable(s, t, nullable)
  {
    forall id | id in t ensures TypedRow(s, t[id], nullable) <==> Plain(s, t[id], nullable) {
      TypedIsPlain(s, t[id], nullable);
    }
  }

  // What a database must be like for its rows to be captured at a revision.
  ghost predicate CapturableAt(e: Env, db: Db, revision: string) {
    && (revision != "f6a7b8c9d0e1" ==> db.dlqNullable)
    && Marked(e, db) && GoodArchive(e, db)
    && PlainTable(Retry, db.live.retry, db.dlqNullable) && PlainTable(Dlq, db.live.dlq, db.dlqNullable)
  }

  lemma CanCaptureMeans(e: Env, db: Db, revision: string)
    requires Shaped(db)
    ensures CanCapture(e, db, revision) <==> CapturableAt(e, db, revision)
  {
    MarkerMeans(e, db);
    AcceptableMeans(e, db);
    PlainIsTyped(Retry, db.live.retry, db.dlqNullable);
    PlainIsTyped(Dlq, db.live.dlq, db.dlqNullable);
  }

  /** Capture succeeds exactly on such a database, with a fresh archive id. */
  lemma CaptureSucceeds(e: Env, db: Db, revision: string, archiveId: string)
    requires Shaped(db) && FreshId(db, archiveId)
    ensures Capture(e, db, revision, archiveId).Ok? <==> CapturableAt(e, db, revision)
  {
    CaptureExact(e, db, revision, archiveId);
    CanCaptureMeans(e, db, revision);
  }

  // One table after a restore: what was live, and what was archived under its id.
  ghost predicate Reunited(live: Table, archive: seq<Archived>, after: Table) {
    && (forall id :: id in after <==> id in live || exists r :: r in archive && IdOf(r.raw) == id)
    && (forall id :: id in live && id in after ==> after[id] == live[id])
    && forall r :: r in archive ==> IdOf(r.raw) in after && after[IdOf(r.raw)] == r.raw
  }

  /**
   Restore succeeds exactly on the newer schema with the marker and a good archive, and
   then every archived row is live under its id exactly as it was stored, every live row
   unchanged, nothing archived, and only the marker left of the manifests.
   */
  lemma RestoreMeans(e: Env, db: Db)
    requires Shaped(db)
    ensures Restore(e, db).Ok? <==> db.dlqNullable && Marked(e, db) && GoodArchive(e, db)
    ensures Restore(e, db).Ok? ==>
      var db' := Restore(e, db).value;
      && Reunited(db.live.retry, db.archive.retry, db'.live.retry) && Reunited(db.live.dlq, db.archive.dlq, db'.live.dlq)
      && db'.archive == Pair([], []) && RestSame(db, db')
      && (db.manifests.None? <==> db'.manifests.None?)
      && (db'.manifests.Some? ==> |db'.manifests.value| == 1 && IsMarker(e, db'.manifests.value[0]))
  {
    RestoreExact(e, db);
    PreviousIsNotHead();
    MarkerMeans(e, db);
    AcceptableMeans(e, db);
    ControlIsMarker(e);
    if Restore(e, db).Ok? {
      RestoredTable(e, db, Retry);
      RestoredTable(e, db, Dlq);
    }
  }

  lemma RestoredTable(e: Env, db: Db, s: Source)
    requires Shaped(db) && Acceptable(e, db)
    ensures Reunited(db.live.At(s), db.archive.At(s), Merged(db.live.At(s), ArchivedRows(db, s)))
  {
    var live, rows, all := db.live.At(s), ArchivedRows(db, s), AllRows(PendingBatches(db), s);
    assert SeparateIds(db, PendingBatches(db), s);
    PendingInsertable(db, s);
    MergedMembers(live, rows);
    AllRowsAreArchive(e, db, s);
    forall r | r in db.archive.At(s) ensures IdOf(r.raw) in Merged(live, rows) && Merged(live, rows)[IdOf(r.raw)] == r.raw {
      var k :| 0 <= k < |all| && all[k] == r;
      assert rows[k] == r.raw;
    }
    forall id | id in Merged(live, rows) && id !in live ensures exists r :: r in db.archive.At(s) && IdOf(r.raw) == id {
      var k :| 0 <= k < |rows| && RowIds(rows)[k] == id;
      assert all[k] in all;
    }
  }
}

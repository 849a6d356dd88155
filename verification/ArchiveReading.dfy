/**
 When the archive is readable, and what a readable archive excludes.
 */
module ArchiveReading {
  import opened Sequences
  import opened RetryArchive
  import opened ArchiveDigests

  // What the database itself enforces: primary keys, and that the archive
  // tables are created and exist together.
  ghost predicate KeyedTable(t: Table) {
    forall id :: id in t ==> t[id] != [] && t[id][0] == Int(id)
  }

  // No sequence is below its start: 0 issued in SQLite, 1 next in PostgreSQL.
  ghost predicate ValidSequence(q: Sequence) {
    match q
    case Sqlite(None) => true
    case Sqlite(Some(v)) => v >= 0
    case Postgres(last, _) => last >= 1
  }

  ghost predicate Shaped(db: Db) {
    && KeyedTable(db.live.retry)
    && KeyedTable(db.live.dlq)
    && ValidSequence(db.sequence.retry)
    && ValidSequence(db.sequence.dlq)
    && (db.manifests.None? ==> db.archive == Pair([], []))
    && (db.manifests.Some? ==> Distinct(ArchiveIds(db.manifests.value)))
  }

  function PendingOf(db: Db): seq<Manifest> {
    if db.manifests.None? then [] else Pending(db.manifests.value)
  }

  function BatchesOf(db: Db, pending: seq<Manifest>): seq<Batch> {
    seq(|pending|, i requires 0 <= i < |pending| => BatchOf(db, pending[i]))
  }

  function PendingBatches(db: Db): seq<Batch> {
    BatchesOf(db, PendingOf(db))
  }

  ghost predicate SoundSide(e: Env, b: Batch, s: Source) {
    && TypedRows(s, Raws(b.rows.At(s)), RecordedNullable(b.manifest))
    && IntactSide(e, b.manifest, s, b.rows.At(s))
  }

  ghost predicate SoundBatch(e: Env, b: Batch) {
    SupportedHeader(b.manifest) && SoundSide(e, b, Retry) && SoundSide(e, b, Dlq)
  }

  ghost predicate SeparateIds(db: Db, batches: seq<Batch>, s: Source) {
    var ids := Ids(AllRows(batches, s));
    Distinct(ids) && forall id :: id in ids ==> id !in db.live.At(s)
  }

  // Everything _read_archive asks of an archive, as one condition.
  ghost predicate Acceptable(e: Env, db: Db) {
    && NoOrphans(db.archive.retry, PendingOf(db))
    && NoOrphans(db.archive.dlq, PendingOf(db))
    && (forall b :: b in PendingBatches(db) ==> SoundBatch(e, b))
    && SeparateIds(db, PendingBatches(db), Retry)
    && SeparateIds(db, PendingBatches(db), Dlq)
  }

  lemma CheckSideExact(e: Env, b: Batch, s: Source)
    ensures CheckSide(e, b.manifest, s, b.rows.At(s)).Ok? <==> SoundSide(e, b, s)
    ensures CheckSide(e, b.manifest, s, b.rows.At(s)).Refused? ==> CheckSide(e, b.manifest, s, b.rows.At(s)).why.BeforeWrites()
  {
  }

  lemma CheckBatchExact(e: Env, b: Batch)
    ensures CheckBatch(e, b).Ok? <==> SoundBatch(e, b)
    ensures CheckBatch(e, b).Ok? ==> CheckBatch(e, b).value == b
    ensures CheckBatch(e, b).Refused? ==> CheckBatch(e, b).why.BeforeWrites()
  {
    CheckSideExact(e, b, Retry);
    CheckSideExact(e, b, Dlq);
  }

  lemma BatchesHead(db: Db, pending: seq<Manifest>)
    requires pending != []
    ensures BatchesOf(db, pending) == [BatchOf(db, pending[0])] + BatchesOf(db, pending[1..])
  {
  }

  lemma {:induction false} CheckBatchesExact(e: Env, db: Db, pending: seq<Manifest>)
    ensures CheckBatches(e, db, pending).Ok? <==> forall b :: b in BatchesOf(db, pending) ==> SoundBatch(e, b)
    ensures CheckBatches(e, db, pending).Ok? ==> CheckBatches(e, db, pending).value == BatchesOf(db, pending)
    ensures CheckBatches(e, db, pending).Refused? ==> CheckBatches(e, db, pending).why.BeforeWrites()
  {
    if pending != [] {
      CheckBatchesExact(e, db, pending[1..]);
      CheckBatchExact(e, BatchOf(db, pending[0]));
      BatchesHead(db, pending);
    }
  }

  /** The archive is read, in full, exactly when it is acceptable. */
  lemma ReadArchiveExact(e: Env, db: Db)
    requires Shaped(db)
    ensures ReadArchive(e, db).Ok? <==> Acceptable(e, db)
    ensures ReadArchive(e, db).Ok? ==> ReadArchive(e, db).value == PendingBatches(db)
    ensures ReadArchive(e, db).Refused? ==> ReadArchive(e, db).why.BeforeWrites()
  {
    if db.manifests.Some? {
      CheckBatchesExact(e, db, PendingOf(db));
    } else {
      assert Ids(AllRows([], Retry)) == [] && Ids(AllRows([], Dlq)) == [];
    }
  }

  // ---------- membership ----------

  lemma RowsForMembers(archive: seq<Archived>, archiveId: string)
    ensures forall r :: r in RowsFor(archive, archiveId) <==> r in archive && r.archiveId == archiveId
  {
    FilterMembers((r: Archived) => r.archiveId == archiveId, archive);
  }

  lemma {:induction false} AllRowsMembers(batches: seq<Batch>, s: Source)
    ensures forall r :: r in AllRows(batches, s) <==> exists b :: b in batches && r in b.rows.At(s)
  {
    if batches != [] {
      AllRowsMembers(batches[1..], s);
      assert batches == [batches[0]] + batches[1..];
    }
  }

  lemma IdsSplit(p: seq<Archived>, q: seq<Archived>)
    ensures Ids(p + q) == Ids(p) + Ids(q)
  {
  }

  lemma {:induction false} BatchIdsDistinct(batches: seq<Batch>, s: Source, i: nat)
    requires i < |batches| && Distinct(Ids(AllRows(batches, s)))
    ensures Distinct(RowIds(Raws(batches[i].rows.At(s))))
  {
    var first, rest := batches[0].rows.At(s), AllRows(batches[1..], s);
    IdsSplit(first, rest);
    DistinctParts(Ids(first), Ids(rest));
    if i == 0 {
      assert RowIds(Raws(first)) == Ids(first);
    } else {
      BatchIdsDistinct(batches[1..], s, i - 1);
    }
  }

  lemma PendingIsChecked(e: Env, db: Db, m: Manifest)
    requires Acceptable(e, db) && m in PendingOf(db)
    ensures SoundBatch(e, BatchOf(db, m))
  {
    var i :| 0 <= i < |PendingOf(db)| && PendingOf(db)[i] == m;
    assert PendingBatches(db)[i] == BatchOf(db, m);
  }

  /** A batch of another owner, format, revision or target is never adopted. */
  lemma ForeignBatchIsRefused(e: Env, db: Db, m: Manifest)
    requires Shaped(db) && m in PendingOf(db)
    requires m.owner != OWNER || m.formatVersion != 1 || m.targetRevision != PREVIOUS ||
      (m.sourceRevision != HEAD && m.sourceRevision != PREVIOUS)
    ensures ReadArchive(e, db).Refused? && ReadArchive(e, db).why.BeforeWrites()
  {
    ReadArchiveExact(e, db);
    if Acceptable(e, db) {
      PendingIsChecked(e, db, m);
    }
  }

  // ---------- tamper evidence ----------

  // The rows of one batch: distinct ids, all carrying the batch's archive id.
  ghost predicate ProperRows(b: Batch, s: Source) {
    && Distinct(RowIds(Raws(b.rows.At(s))))
    && forall r :: r in b.rows.At(s) ==> r.archiveId == b.manifest.archiveId
  }

  ghost predicate AcceptedBatch(e: Env, b: Batch) {
    SoundBatch(e, b) && ProperRows(b, Retry) && ProperRows(b, Dlq)
  }

  lemma SameSide(e: Env, b: Batch, b': Batch, s: Source)
    requires Injective(e.hash)
    requires AcceptedBatch(e, b) && AcceptedBatch(e, b')
    requires b.manifest.sides.At(s).digest == b'.manifest.sides.At(s).digest
    ensures SameContext(b.manifest, b'.manifest)
    ensures SameElements(b.rows.At(s), b'.rows.At(s))
  {
    assert SoundSide(e, b, s) && SoundSide(e, b', s) && ProperRows(b, s) && ProperRows(b', s);
    BatchDigestBinds(e, b.manifest, s, Raws(b.rows.At(s)), b'.manifest, s, Raws(b'.rows.At(s)));
    RowsFollow(e, b.rows.At(s), b'.rows.At(s));
    RowsFollow(e, b'.rows.At(s), b.rows.At(s));
  }

  lemma RowsFollow(e: Env, p: seq<Archived>, q: seq<Archived>)
    requires SameElements(Raws(p), Raws(q))
    requires forall r, r' :: r in p && r' in q ==> r.archiveId == r'.archiveId
    requires forall r :: r in p ==> Digest(e, [r.raw]) == r.rowDigest
    requires forall r :: r in q ==> Digest(e, [r.raw]) == r.rowDigest
    ensures forall r :: r in p ==> r in q
  {
    forall r | r in p ensures r in q {
      var i :| 0 <= i < |p| && p[i] == r;
      assert Raws(p)[i] == r.raw;
      assert r.raw in Raws(q);
      var j :| 0 <= j < |q| && Raws(q)[j] == r.raw;
      assert q[j] == r;
    }
  }

  /** Two accepted batches with the same two digests are the same batch. */
  lemma DigestsDetermineBatch(e: Env, b: Batch, b': Batch)
    requires Injective(e.hash)
    requires AcceptedBatch(e, b) && AcceptedBatch(e, b')
    requires b.manifest.sides.retry.digest == b'.manifest.sides.retry.digest
    requires b.manifest.sides.dlq.digest == b'.manifest.sides.dlq.digest
    ensures b.manifest == b'.manifest
    ensures SameElements(b.rows.retry, b'.rows.retry) && SameElements(b.rows.dlq, b'.rows.dlq)
  {
    SameSide(e, b, b', Retry);
    SameSide(e, b, b', Dlq);
    assert b.manifest.sides.At(Retry).count == b'.manifest.sides.At(Retry).count;
    assert b.manifest.sides.At(Dlq).count == b'.manifest.sides.At(Dlq).count;
  }

  ghost predicate SameDigests(m: Manifest, m': Manifest) {
    m.sides.retry.digest == m'.sides.retry.digest && m.sides.dlq.digest == m'.sides.dlq.digest
  }

  // Every manifest of p has its two digests in some manifest of q, in whatever order.
  ghost predicate DigestsOccur(p: seq<Manifest>, q: seq<Manifest>) {
    forall m :: m in p ==> exists n :: n in q && SameDigests(m, n)
  }

  ghost predicate RowsOfBatches(archive: seq<Archived>, left: seq<Archived>, pending: seq<Manifest>) {
    forall r :: r in left <==> r in archive && r.archiveId in ArchiveIds(pending)
  }

  // What is pending in db' are whole batches of db, unchanged, and nothing else.
  ghost predicate WholeBatchesOf(db: Db, db': Db) {
    && (forall m :: m in PendingOf(db') ==> m in PendingOf(db))
    && RowsOfBatches(db.archive.retry, db'.archive.retry, PendingOf(db'))
    && RowsOfBatches(db.archive.dlq, db'.archive.dlq, PendingOf(db'))
  }

  ghost predicate SamePending(db: Db, db': Db) {
    && SameElements(PendingOf(db), PendingOf(db'))
    && SameElements(db.archive.retry, db'.archive.retry)
    && SameElements(db.archive.dlq, db'.archive.dlq)
  }

  lemma BatchRows(db: Db, m: Manifest, s: Source)
    ensures BatchOf(db, m).rows.At(s) == RowsFor(db.archive.At(s), m.archiveId)
    ensures forall r :: r in BatchOf(db, m).rows.At(s) <==> r in db.archive.At(s) && r.archiveId == m.archiveId
  {
    RowsForMembers(db.archive.At(s), m.archiveId);
  }

  lemma PendingBatchRows(e: Env, db: Db, i: nat, s: Source)
    requires Acceptable(e, db) && i < |PendingOf(db)|
    ensures ProperRows(BatchOf(db, PendingOf(db)[i]), s)
  {
    assert PendingBatches(db)[i] == BatchOf(db, PendingOf(db)[i]);
    assert SeparateIds(db, PendingBatches(db), s);
    BatchIdsDistinct(PendingBatches(db), s, i);
    BatchRows(db, PendingOf(db)[i], s);
  }

  lemma PendingBatchAccepted(e: Env, db: Db, i: nat)
    requires Acceptable(e, db) && i < |PendingOf(db)|
    ensures AcceptedBatch(e, BatchOf(db, PendingOf(db)[i]))
  {
    assert PendingBatches(db)[i] == BatchOf(db, PendingOf(db)[i]);
    PendingBatchRows(e, db, i, Retry);
    PendingBatchRows(e, db, i, Dlq);
  }

  lemma SameBatch(e: Env, db: Db, db': Db, m: Manifest, m': Manifest)
    requires Injective(e.hash) && Acceptable(e, db) && Acceptable(e, db')
    requires m in PendingOf(db) && m' in PendingOf(db') && SameDigests(m, m')
    ensures m == m'
    ensures SameElements(RowsFor(db.archive.retry, m.archiveId), RowsFor(db'.archive.retry, m.archiveId))
    ensures SameElements(RowsFor(db.archive.dlq, m.archiveId), RowsFor(db'.archive.dlq, m.archiveId))
  {
    var i :| 0 <= i < |PendingOf(db)| && PendingOf(db)[i] == m;
    var j :| 0 <= j < |PendingOf(db')| && PendingOf(db')[j] == m';
    PendingBatchAccepted(e, db, i);
    PendingBatchAccepted(e, db', j);
    DigestsDetermineBatch(e, BatchOf(db, m), BatchOf(db', m'));
  }

  lemma SameBatches(e: Env, db: Db, db': Db)
    requires Injective(e.hash) && Acceptable(e, db) && Acceptable(e, db')
    requires DigestsOccur(PendingOf(db'), PendingOf(db))
    ensures forall m :: m in PendingOf(db') ==>
      && m in PendingOf(db)
      && SameElements(RowsFor(db.archive.retry, m.archiveId), RowsFor(db'.archive.retry, m.archiveId))
      && SameElements(RowsFor(db.archive.dlq, m.archiveId), RowsFor(db'.archive.dlq, m.archiveId))
  {
    forall m' | m' in PendingOf(db')
      ensures m' in PendingOf(db)
      ensures SameElements(RowsFor(db.archive.retry, m'.archiveId), RowsFor(db'.archive.retry, m'.archiveId))
      ensures SameElements(RowsFor(db.archive.dlq, m'.archiveId), RowsFor(db'.archive.dlq, m'.archiveId))
    {
      var m :| m in PendingOf(db) && SameDigests(m', m);
      SameBatch(e, db, db', m, m');
    }
  }

  lemma RowsFollowBatches(archive: seq<Archived>, left: seq<Archived>, pending: seq<Manifest>)
    requires NoOrphans(left, pending)
    requires forall m :: m in pending ==> SameElements(RowsFor(archive, m.archiveId), RowsFor(left, m.archiveId))
    ensures RowsOfBatches(archive, left, pending)
  {
    forall r: Archived | r.archiveId in ArchiveIds(pending) ensures r in left <==> r in archive {
      var i :| 0 <= i < |pending| && ArchiveIds(pending)[i] == r.archiveId;
      assert pending[i] in pending;
      RowsForMembers(archive, r.archiveId);
      RowsForMembers(left, r.archiveId);
    }
  }

  lemma AcceptedAreWholeBatches(e: Env, db: Db, db': Db)
    requires Injective(e.hash) && Acceptable(e, db) && Acceptable(e, db')
    requires DigestsOccur(PendingOf(db'), PendingOf(db))
    ensures WholeBatchesOf(db, db')
  {
    SameBatches(e, db, db');
    RowsFollowBatches(db.archive.retry, db'.archive.retry, PendingOf(db'));
    RowsFollowBatches(db.archive.dlq, db'.archive.dlq, PendingOf(db'));
  }

  /**
   An archive made with the digests of an accepted one, in any order and number, is
   refused unless it consists of whole batches of that one: a changed value, row
   digest, count, high-water mark, revision, schema or archive id, a row added or
   dropped all make reading refuse.
   */
  lemma OnlyWholeBatchesAreRead(e: Env, db: Db, db': Db)
    requires Injective(e.hash) && Shaped(db) && Shaped(db')
    requires Acceptable(e, db)
    requires DigestsOccur(PendingOf(db'), PendingOf(db))
    requires !WholeBatchesOf(db, db')
    ensures ReadArchive(e, db').Refused? && ReadArchive(e, db').why.BeforeWrites()
  {
    ReadArchiveExact(e, db');
    if Acceptable(e, db') {
      AcceptedAreWholeBatches(e, db, db');
    }
  }

  /** And if no digest is lost either, any change at all makes it refuse. */
  lemma TamperingIsRefused(e: Env, db: Db, db': Db)
    requires Injective(e.hash) && Shaped(db) && Shaped(db')
    requires Acceptable(e, db)
    requires DigestsOccur(PendingOf(db'), PendingOf(db)) && DigestsOccur(PendingOf(db), PendingOf(db'))
    requires !SamePending(db, db')
    ensures ReadArchive(e, db').Refused? && ReadArchive(e, db').why.BeforeWrites()
  {
    ReadArchiveExact(e, db');
    if Acceptable(e, db') {
      AcceptedAreWholeBatches(e, db, db');
      AcceptedAreWholeBatches(e, db', db);
    }
  }
}

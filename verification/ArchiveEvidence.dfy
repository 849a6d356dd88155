/**
 What the digests leave open: whole batches may be missing. An archive made of some
 batches of an accepted one, in any order, is accepted again.
 */
module ArchiveEvidence {
  import opened Sequences
  import opened RetryArchive
  import opened ArchiveDigests
  import opened ArchiveReading
  import opened ArchiveRestore

  // The primary key (archive_id, id) of an archive table.
  ghost predicate KeyedArchive(archive: seq<Archived>) {
    DistinctOn((r: Archived) => (r.archiveId, IdOf(r.raw)), archive)
  }

  lemma BatchIdsOnce(archive: seq<Archived>, archiveId: string)
    requires KeyedArchive(archive)
    ensures Distinct(Ids(RowsFor(archive, archiveId)))
  {
    var key := (r: Archived) => (r.archiveId, IdOf(r.raw));
    var rows := RowsFor(archive, archiveId);
    FilterDistinctOn((r: Archived) => r.archiveId == archiveId, key, archive);
    RowsForMembers(archive, archiveId);
    forall i, j | 0 <= i < j < |rows| ensures Ids(rows)[i] != Ids(rows)[j] {
      assert rows[i] in rows && rows[j] in rows;
      assert key(rows[i]) != key(rows[j]);
    }
  }

  // ---------- one batch read in another order ----------

  lemma SameRaws(p: seq<Archived>, q: seq<Archived>)
    requires SameElements(p, q)
    ensures SameElements(Raws(p), Raws(q))
  {
    RawsFollow(p, q);
    RawsFollow(q, p);
  }

  lemma RawsFollow(p: seq<Archived>, q: seq<Archived>)
    requires forall r :: r in p ==> r in q
    ensures forall row :: row in Raws(p) ==> row in Raws(q)
  {
    forall row | row in Raws(p) ensures row in Raws(q) {
      var i :| 0 <= i < |p| && Raws(p)[i] == row;
      assert p[i] in p;
      var j :| 0 <= j < |q| && q[j] == p[i];
      assert Raws(q)[j] == row;
    }
  }

  lemma {:induction false} MaxOfMembers(ids: seq<int>)
    requires ids != []
    ensures MaxOf(ids) in ids && forall x :: x in ids ==> x <= MaxOf(ids)
  {
    if |ids| > 1 {
      MaxOfMembers(ids[1..]);
      assert ids == [ids[0]] + ids[1..];
    }
  }

  lemma SameMax(p: seq<int>, q: seq<int>)
    requires SameElements(p, q)
    ensures MaxOf(p) == MaxOf(q)
  {
    Nonempty(p);
    Nonempty(q);
    if p != [] {
      MaxOfMembers(p);
      MaxOfMembers(q);
    }
  }

  lemma SameIds(p: seq<Archived>, q: seq<Archived>)
    requires SameElements(p, q)
    ensures SameElements(Ids(p), Ids(q))
  {
    IdsFollow(p, q);
    IdsFollow(q, p);
  }

  lemma IdsFollow(p: seq<Archived>, q: seq<Archived>)
    requires forall r :: r in p ==> r in q
    ensures forall id :: id in Ids(p) ==> id in Ids(q)
  {
    forall id | id in Ids(p) ensures id in Ids(q) {
      var i :| 0 <= i < |p| && Ids(p)[i] == id;
      assert p[i] in p;
      var j :| 0 <= j < |q| && q[j] == p[i];
      assert Ids(q)[j] == id;
    }
  }

  // Rows of distinct ids are as many in one order as in the other.
  lemma SameCount(p: seq<Row>, q: seq<Row>)
    requires Distinct(RowIds(p)) && Distinct(RowIds(q)) && SameElements(p, q)
    ensures |p| == |q|
  {
    NoMoreThan(p, q);
    NoMoreThan(q, p);
  }

  lemma {:induction false} NoMoreThan(p: seq<Row>, q: seq<Row>)
    requires Distinct(RowIds(p)) && forall x :: x in p ==> x in q
    ensures |p| <= |q|
    decreases p
  {
    if p != [] {
      var rest := p[1..];
      assert p[0] in p;
      var i :| 0 <= i < |q| && q[i] == p[0];
      var others := q[..i] + q[i + 1..];
      assert RowIds(p) == [IdOf(p[0])] + RowIds(rest);
      DistinctParts([IdOf(p[0])], RowIds(rest));
      forall x | x in rest ensures x in others {
        var k :| 0 <= k < |rest| && rest[k] == x;
        assert RowIds(p)[0] != RowIds(p)[k + 1];
        assert x in p && x in q && q == q[..i] + [q[i]] + q[i + 1..];
      }
      NoMoreThan(rest, others);
    }
  }

  lemma SideStaysSound(e: Env, b: Batch, b': Batch, s: Source)
    requires SoundSide(e, b, s) && b'.manifest == b.manifest
    requires SameElements(b.rows.At(s), b'.rows.At(s))
    requires Distinct(Ids(b.rows.At(s))) && Distinct(Ids(b'.rows.At(s)))
    ensures SoundSide(e, b', s)
  {
    var p, q := b.rows.At(s), b'.rows.At(s);
    assert RowIds(Raws(p)) == Ids(p) && RowIds(Raws(q)) == Ids(q);
    SameRaws(p, q);
    SameCount(Raws(p), Raws(q));
    DigestIgnoresOrder(e, Raws(p), Raws(q));
    SameIds(p, q);
    SameMax(Ids(p), Ids(q));
  }

  // ---------- all of them ----------

  lemma KeptRows(db: Db, db': Db, m: Manifest, s: Source)
    requires WholeBatchesOf(db, db') && m in PendingOf(db')
    ensures SameElements(BatchOf(db, m).rows.At(s), BatchOf(db', m).rows.At(s))
  {
    BatchRows(db, m, s);
    BatchRows(db', m, s);
    var i :| 0 <= i < |PendingOf(db')| && PendingOf(db')[i] == m;
    assert ArchiveIds(PendingOf(db'))[i] == m.archiveId;
    assert RowsOfBatches(db.archive.At(s), db'.archive.At(s), PendingOf(db'));
  }

  lemma KeptSide(e: Env, db: Db, db': Db, m: Manifest, s: Source)
    requires Acceptable(e, db) && WholeBatchesOf(db, db') && m in PendingOf(db')
    requires KeyedArchive(db'.archive.At(s))
    ensures SoundSide(e, BatchOf(db', m), s)
  {
    var i :| 0 <= i < |PendingOf(db)| && PendingOf(db)[i] == m;
    PendingIsChecked(e, db, m);
    PendingBatchRows(e, db, i, s);
    assert RowIds(Raws(BatchOf(db, m).rows.At(s))) == Ids(BatchOf(db, m).rows.At(s));
    KeptRows(db, db', m, s);
    BatchIdsOnce(db'.archive.At(s), m.archiveId);
    BatchRows(db', m, s);
    SideStaysSound(e, BatchOf(db, m), BatchOf(db', m), s);
  }

  // In an accepted archive an id belongs to one row.
  lemma OneRowPerId(e: Env, db: Db, s: Source, r: Archived, r': Archived)
    requires Acceptable(e, db) && r in db.archive.At(s) && r' in db.archive.At(s)
    requires IdOf(r.raw) == IdOf(r'.raw)
    ensures r == r'
  {
    var all := AllRows(PendingBatches(db), s);
    AllRowsAreArchive(e, db, s);
    assert SeparateIds(db, PendingBatches(db), s);
    var i :| 0 <= i < |all| && all[i] == r;
    var j :| 0 <= j < |all| && all[j] == r';
    assert Ids(all)[i] == Ids(all)[j];
  }

  // The batches of a list of manifests hold different ids, if an id has one row.
  lemma {:induction false} BatchesApart(db: Db, pending: seq<Manifest>, s: Source)
    requires KeyedArchive(db.archive.At(s)) && Distinct(ArchiveIds(pending))
    requires forall r, r' :: r in db.archive.At(s) && r' in db.archive.At(s) && IdOf(r.raw) == IdOf(r'.raw) ==> r == r'
    ensures Distinct(Ids(AllRows(BatchesOf(db, pending), s)))
  {
    if pending != [] {
      var m, rest := pending[0], pending[1..];
      assert ArchiveIds(pending) == [m.archiveId] + ArchiveIds(rest);
      DistinctParts([m.archiveId], ArchiveIds(rest));
      BatchesApart(db, rest, s);
      BatchesHead(db, pending);
      BatchIdsOnce(db.archive.At(s), m.archiveId);
      BatchRows(db, m, s);
      var first, others := BatchOf(db, m).rows.At(s), AllRows(BatchesOf(db, rest), s);
      FirstApart(db, m, rest, s);
      IdsSplit(first, others);
      JoinDistinct(Ids(first), Ids(others));
    }
  }

  lemma FirstApart(db: Db, m: Manifest, rest: seq<Manifest>, s: Source)
    requires m.archiveId !in ArchiveIds(rest)
    requires forall r, r' :: r in db.archive.At(s) && r' in db.archive.At(s) && IdOf(r.raw) == IdOf(r'.raw) ==> r == r'
    ensures forall id :: id in Ids(BatchOf(db, m).rows.At(s)) ==> id !in Ids(AllRows(BatchesOf(db, rest), s))
  {
    var first, others := BatchOf(db, m).rows.At(s), AllRows(BatchesOf(db, rest), s);
    BatchRows(db, m, s);
    forall i, j | 0 <= i < |first| && 0 <= j < |others| ensures Ids(first)[i] != Ids(others)[j] {
      assert first[i] in first && others[j] in others;
      RowOfListed(db, rest, s, others[j]);
    }
  }

  lemma RowOfListed(db: Db, pending: seq<Manifest>, s: Source, r: Archived)
    requires r in AllRows(BatchesOf(db, pending), s)
    ensures r in db.archive.At(s) && r.archiveId in ArchiveIds(pending)
  {
    var batches := BatchesOf(db, pending);
    AllRowsMembers(batches, s);
    var b :| b in batches && r in b.rows.At(s);
    var i :| 0 <= i < |batches| && batches[i] == b;
    BatchRows(db, pending[i], s);
    assert ArchiveIds(pending)[i] == r.archiveId;
  }

  lemma PendingIdsDistinct(db: Db)
    requires Shaped(db)
    ensures Distinct(ArchiveIds(PendingOf(db)))
  {
    if db.manifests.Some? {
      ManifestsDistinct(db);
      FilterDistinctOn((m: Manifest) => m.archiveId != CONTROL_ID, ManifestId, db.manifests.value);
      var p := PendingOf(db);
      forall i, j | 0 <= i < j < |p| ensures ArchiveIds(p)[i] != ArchiveIds(p)[j] {
        assert ManifestId(p[i]) != ManifestId(p[j]);
      }
    }
  }

  // No archived id is live.
  ghost predicate NoneOccupied(db: Db, s: Source) {
    forall r :: r in db.archive.At(s) ==> IdOf(r.raw) !in db.live.At(s)
  }

  lemma StillSeparate(e: Env, db: Db, db': Db, s: Source)
    requires Acceptable(e, db) && Shaped(db') && WholeBatchesOf(db, db') && NoneOccupied(db', s)
    requires KeyedArchive(db'.archive.At(s))
    ensures SeparateIds(db', PendingBatches(db'), s)
  {
    assert RowsOfBatches(db.archive.At(s), db'.archive.At(s), PendingOf(db'));
    forall r, r' | r in db'.archive.At(s) && r' in db'.archive.At(s) && IdOf(r.raw) == IdOf(r'.raw) ensures r == r' {
      OneRowPerId(e, db, s, r, r');
    }
    PendingIdsDistinct(db');
    BatchesApart(db', PendingOf(db'), s);
    var all := AllRows(PendingBatches(db'), s);
    forall id | id in Ids(all) ensures id !in db'.live.At(s) {
      var i :| 0 <= i < |all| && Ids(all)[i] == id;
      assert all[i] in all;
      RowOfListed(db', PendingOf(db'), s, all[i]);
    }
  }

  lemma NoOrphansLeft(db: Db, db': Db, s: Source)
    requires WholeBatchesOf(db, db')
    ensures NoOrphans(db'.archive.At(s), PendingOf(db'))
  {
    assert RowsOfBatches(db.archive.At(s), db'.archive.At(s), PendingOf(db'));
  }

  lemma AllStillSound(e: Env, db: Db, db': Db)
    requires Acceptable(e, db) && WholeBatchesOf(db, db')
    requires KeyedArchive(db'.archive.retry) && KeyedArchive(db'.archive.dlq)
    ensures forall b :: b in PendingBatches(db') ==> SoundBatch(e, b)
  {
    forall b | b in PendingBatches(db') ensures SoundBatch(e, b) {
      var i :| 0 <= i < |PendingBatches(db')| && PendingBatches(db')[i] == b;
      var m := PendingOf(db')[i];
      PendingIsChecked(e, db, m);
      KeptSide(e, db, db', m, Retry);
      KeptSide(e, db, db', m, Dlq);
    }
  }

  /**
   Exactly what the digests protect: with every digest taken from an accepted archive,
   an archive is read if and only if it consists of whole batches of that one and
   none of its ids is live. What goes unnoticed is a batch missing with its manifest and all its rows.
   */
  lemma ReadExactlyWholeBatches(e: Env, db: Db, db': Db)
    requires Injective(e.hash) && Shaped(db) && Shaped(db') && Acceptable(e, db)
    requires KeyedArchive(db'.archive.retry) && KeyedArchive(db'.archive.dlq)
    requires DigestsOccur(PendingOf(db'), PendingOf(db))
    ensures ReadArchive(e, db').Ok? <==>
      WholeBatchesOf(db, db') && NoneOccupied(db', Retry) && NoneOccupied(db', Dlq)
  {
    ReadArchiveExact(e, db');
    if Acceptable(e, db') {
      AcceptedAreWholeBatches(e, db, db');
      ArchivedNotLive(e, db', Retry);
      ArchivedNotLive(e, db', Dlq);
    } else if WholeBatchesOf(db, db') && NoneOccupied(db', Retry) && NoneOccupied(db', Dlq) {
      NoOrphansLeft(db, db', Retry);
      NoOrphansLeft(db, db', Dlq);
      AllStillSound(e, db, db');
      StillSeparate(e, db, db', Retry);
      StillSeparate(e, db, db', Dlq);
    }
  }
}

/**
 What capture does, as one closed form, and what it keeps: nothing is lost, the
 archive stays readable, and no later check of the same run can fail.
 */
module ArchiveCapture {
  import opened Results
  import opened Sequences
  import opened RetryArchive
  import opened ArchiveDigests
  import opened ArchiveReading

  // ---------- tables ----------

  function RowsOf(t: Table): set<Row> {
    set id | id in t :: t[id]
  }

  function RawSet(rows: seq<Archived>): set<Row> {
    set r | r in rows :: r.raw
  }

  // Every row of one source, live or archived.
  function Contents(db: Db, s: Source): set<Row> {
    RowsOf(db.live.At(s)) + RawSet(db.archive.At(s))
  }

  function Known(e: Env, s: Source, t: Table): Table {
    map id | id in t && !HasUnknown(e, s, t[id]) :: t[id]
  }

  ghost predicate TypedTable(s: Source, t: Table, original: bool) {
    forall id :: id in t ==> TypedRow(s, t[id], original)
  }

  lemma KeyedTablesEqual(t: Table, u: Table)
    requires KeyedTable(t) && KeyedTable(u) && RowsOf(t) == RowsOf(u)
    ensures t == u
  {
    RowsFollowKeys(t, u);
    RowsFollowKeys(u, t);
    assert forall id :: id in t <==> id in u;
    assert forall id :: id in t ==> t[id] == u[id];
  }

  lemma RowsFollowKeys(t: Table, u: Table)
    requires KeyedTable(t) && KeyedTable(u) && RowsOf(t) <= RowsOf(u)
    ensures t.Keys <= u.Keys && forall id :: id in t ==> u[id] == t[id]
  {
    forall id | id in t ensures id in u && u[id] == t[id] {
      assert t[id] in RowsOf(t);
      var k :| k in u && u[k] == t[id];
    }
  }

  lemma SelectOrderedFacts(t: Table)
    requires KeyedTable(t)
    ensures RowIds(SelectOrdered(t)) == Ordered(t.Keys)
    ensures Distinct(RowIds(SelectOrdered(t)))
    ensures forall row :: row in SelectOrdered(t) <==> IdOf(row) in t && t[IdOf(row)] == row
  {
    var rows, ids := SelectOrdered(t), Ordered(t.Keys);
    OrderedMembers(t.Keys);
    OrderedIncreases(t.Keys);
    forall i | 0 <= i < |rows| ensures IdOf(rows[i]) == ids[i] {
      assert ids[i] in ids;
    }
    forall row ensures row in rows <==> IdOf(row) in t && t[IdOf(row)] == row {
      if IdOf(row) in t && t[IdOf(row)] == row {
        var i :| 0 <= i < |ids| && ids[i] == IdOf(row);
        assert rows[i] == row;
      }
    }
  }

  lemma TypedTableSelected(s: Source, t: Table, original: bool)
    requires KeyedTable(t)
    ensures TypedRows(s, SelectOrdered(t), original) <==> TypedTable(s, t, original)
  {
    SelectOrderedFacts(t);
    forall id | id in t ensures t[id] in SelectOrdered(t) {
      assert IdOf(t[id]) == id;
    }
  }

  lemma CapturedFacts(e: Env, s: Source, t: Table)
    requires KeyedTable(t)
    ensures forall row :: row in Captured(e, s, t) <==> IdOf(row) in t && t[IdOf(row)] == row && HasUnknown(e, s, row)
    ensures Distinct(RowIds(Captured(e, s, t)))
  {
    var unknown := (row: Row) => HasUnknown(e, s, row);
    SelectOrderedFacts(t);
    FilterMembers(unknown, SelectOrdered(t));
    assert DistinctOn(IdOf, SelectOrdered(t)) by {
      forall i, j | 0 <= i < j < |SelectOrdered(t)| ensures IdOf(SelectOrdered(t)[i]) != IdOf(SelectOrdered(t)[j]) {
        assert RowIds(SelectOrdered(t))[i] != RowIds(SelectOrdered(t))[j];
      }
    }
    FilterDistinctOn(unknown, IdOf, SelectOrdered(t));
  }

  // ---------- deleting the captured rows ----------

  function IdSet(rows: seq<Row>): set<int> {
    set row | row in rows :: IdOf(row)
  }

  lemma {:induction false} DeleteEachExact(t: Table, rows: seq<Row>)
    requires Distinct(RowIds(rows)) && forall row :: row in rows ==> IdOf(row) in t
    ensures DeleteEach(t, rows) == Ok(t - IdSet(rows))
    decreases rows
  {
    if rows == [] {
      assert t - IdSet(rows) == t;
    } else {
      var u := t - {IdOf(rows[0])};
      DeleteTail(t, rows);
      DeleteEachExact(u, rows[1..]);
      IdSetHead(rows);
      assert u - IdSet(rows[1..]) == t - IdSet(rows);
    }
  }

  lemma IdSetHead(rows: seq<Row>)
    requires rows != []
    ensures IdSet(rows) == {IdOf(rows[0])} + IdSet(rows[1..])
  {
    assert rows == [rows[0]] + rows[1..];
  }

  lemma DeleteTail(t: Table, rows: seq<Row>)
    requires rows != [] && Distinct(RowIds(rows)) && forall row :: row in rows ==> IdOf(row) in t
    ensures IdOf(rows[0]) in t && Distinct(RowIds(rows[1..]))
    ensures forall row :: row in rows[1..] ==> IdOf(row) in t - {IdOf(rows[0])}
  {
    assert RowIds(rows) == [IdOf(rows[0])] + RowIds(rows[1..]);
    DistinctParts([IdOf(rows[0])], RowIds(rows[1..]));
    forall row | row in rows[1..] ensures IdOf(row) in t - {IdOf(rows[0])} {
      var i :| 0 <= i < |rows[1..]| && rows[1..][i] == row;
      assert RowIds(rows[1..])[i] == IdOf(row) && rows[i + 1] == row;
      assert IdOf(rows[0]) in [IdOf(rows[0])] && IdOf(row) in RowIds(rows[1..]);
    }
  }

  lemma DeleteCaptured(e: Env, s: Source, t: Table)
    requires KeyedTable(t)
    ensures DeleteEach(t, Captured(e, s, t)) == Ok(Known(e, s, t))
  {
    CapturedFacts(e, s, t);
    var rows := Captured(e, s, t);
    DeleteEachExact(t, rows);
    forall id | id in t ensures id in IdSet(rows) <==> HasUnknown(e, s, t[id]) {
      assert IdOf(t[id]) == id;
      if HasUnknown(e, s, t[id]) {
        assert t[id] in rows;
      }
    }
    assert t - IdSet(rows) == Known(e, s, t);
  }

  // ---------- copying ----------

  lemma RowsForAppend(p: seq<Archived>, q: seq<Archived>, archiveId: string)
    ensures RowsFor(p + q, archiveId) == RowsFor(p, archiveId) + RowsFor(q, archiveId)
  {
    FilterAppend((r: Archived) => r.archiveId == archiveId, p, q);
  }

  ghost predicate UnusedId(archive: seq<Archived>, archiveId: string) {
    forall r :: r in archive ==> r.archiveId != archiveId
  }

  lemma CopiedRows(e: Env, archive: seq<Archived>, archiveId: string, rows: seq<Row>)
    requires UnusedId(archive, archiveId)
    ensures RowsFor(archive + ArchiveRows(e, archiveId, rows), archiveId) == ArchiveRows(e, archiveId, rows)
    ensures Raws(ArchiveRows(e, archiveId, rows)) == rows
    ensures CopyRows(e, archive, archiveId, rows) == Ok(archive + ArchiveRows(e, archiveId, rows))
  {
    var added := ArchiveRows(e, archiveId, rows);
    RowsForAppend(archive, added, archiveId);
    FilterNone((r: Archived) => r.archiveId == archiveId, archive);
    FilterAll((r: Archived) => r.archiveId == archiveId, added);
    assert Raws(added) == rows;
  }

  // ---------- the closed form ----------

  // A fresh archive id, as uuid4 gives it.
  ghost predicate FreshId(db: Db, archiveId: string) {
    && archiveId != CONTROL_ID
    && (db.manifests.Some? ==> archiveId !in ArchiveIds(db.manifests.value))
  }

  ghost predicate CanCapture(e: Env, db: Db, revision: string) {
    && CheckSources(db, revision).Ok?
    && CheckMarker(e, db).Ok?
    && Acceptable(e, db)
    && TypedTable(Retry, db.live.retry, SchemaAt(db, revision))
    && TypedTable(Dlq, db.live.dlq, SchemaAt(db, revision))
  }

  function CapturedRows(e: Env, db: Db): Pair<seq<Row>> {
    Pair(Captured(e, Retry, db.live.retry), Captured(e, Dlq, db.live.dlq))
  }

  predicate NothingCaptured(e: Env, db: Db) {
    Captured(e, Retry, db.live.retry) == [] && Captured(e, Dlq, db.live.dlq) == []
  }

  function NewManifest(e: Env, db: Db, revision: string, archiveId: string): Manifest {
    var rows := CapturedRows(e, db);
    BoundManifest(e, UnboundManifest(e, db, revision, archiveId, rows), rows)
  }

  function OldManifests(e: Env, db: Db): seq<Manifest> {
    if db.manifests.None? then [ControlManifest(e)] else db.manifests.value
  }

  function ArchiveAfter(e: Env, db: Db, s: Source, archiveId: string): seq<Archived> {
    db.archive.At(s) + ArchiveRows(e, archiveId, Captured(e, s, db.live.At(s)))
  }

  function SequenceAfter(e: Env, db: Db, s: Source): Sequence {
    Advance(db.sequence.At(s), Known(e, s, db.live.At(s)), HighWater(db.sequence.At(s), db.live.At(s)))
  }

  function AfterCapture(e: Env, db: Db, revision: string, archiveId: string): Db {
    if NothingCaptured(e, db) then db else
      db.(live := Pair(Known(e, Retry, db.live.retry), Known(e, Dlq, db.live.dlq)),
          sequence := Pair(SequenceAfter(e, db, Retry), SequenceAfter(e, db, Dlq)),
          archive := Pair(ArchiveAfter(e, db, Retry, archiveId), ArchiveAfter(e, db, Dlq, archiveId)),
          manifests := Some(OldManifests(e, db) + [NewManifest(e, db, revision, archiveId)]))
  }

  lemma FreshMeansUnused(e: Env, db: Db, archiveId: string)
    requires Shaped(db) && Acceptable(e, db) && FreshId(db, archiveId)
    ensures UnusedId(db.archive.retry, archiveId) && UnusedId(db.archive.dlq, archiveId)
    ensures archiveId !in ArchiveIds(PendingOf(db)) && archiveId !in ArchiveIds(OldManifests(e, db))
  {
    if db.manifests.Some? {
      PendingMembers(db.manifests.value);
      forall i | 0 <= i < |PendingOf(db)| ensures ArchiveIds(PendingOf(db))[i] != archiveId {
        var j :| 0 <= j < |db.manifests.value| && db.manifests.value[j] == PendingOf(db)[i];
        assert ArchiveIds(db.manifests.value)[j] == ArchiveIds(PendingOf(db))[i];
      }
    }
  }

  lemma PendingMembers(manifests: seq<Manifest>)
    ensures forall m :: m in Pending(manifests) <==> m in manifests && m.archiveId != CONTROL_ID
  {
    FilterMembers((m: Manifest) => m.archiveId != CONTROL_ID, manifests);
  }

  lemma LiveTyped(db: Db, revision: string)
    requires Shaped(db)
    ensures TypedRows(Retry, SelectOrdered(db.live.retry), SchemaAt(db, revision)) <==>
      TypedTable(Retry, db.live.retry, SchemaAt(db, revision))
    ensures TypedRows(Dlq, SelectOrdered(db.live.dlq), SchemaAt(db, revision)) <==>
      TypedTable(Dlq, db.live.dlq, SchemaAt(db, revision))
  {
    TypedTableSelected(Retry, db.live.retry, SchemaAt(db, revision));
    TypedTableSelected(Dlq, db.live.dlq, SchemaAt(db, revision));
  }

  lemma GuardExact(e: Env, db: Db, revision: string)
    requires Shaped(db)
    ensures CaptureGuard(e, db, revision).Ok? <==> CanCapture(e, db, revision)
    ensures CaptureGuard(e, db, revision).Refused? ==> CaptureGuard(e, db, revision).why.BeforeWrites()
  {
    ReadArchiveExact(e, db);
    LiveTyped(db, revision);
  }

  lemma StoreExact(e: Env, db: Db, revision: string, archiveId: string)
    requires Shaped(db) && FreshId(db, archiveId) && Acceptable(e, db)
    requires !NothingCaptured(e, db)
    ensures StoreSpec(e, db, revision, archiveId, CapturedRows(e, db)) == Ok(AfterCapture(e, db, revision, archiveId))
  {
    var rows := CapturedRows(e, db);
    FreshMeansUnused(e, db, archiveId);
    CopiedRows(e, db.archive.retry, archiveId, rows.retry);
    CopiedRows(e, db.archive.dlq, archiveId, rows.dlq);
    DeleteCaptured(e, Retry, db.live.retry);
    DeleteCaptured(e, Dlq, db.live.dlq);
  }

  /**
   Capture succeeds exactly when the schema is the revision's, the marker in place,
   the archive readable and the live rows typed. It refuses only before its first write: the copy check,
   the row count check and the primary keys cannot fail.
   */
  lemma CaptureExact(e: Env, db: Db, revision: string, archiveId: string)
    requires Shaped(db) && FreshId(db, archiveId)
    ensures CanCapture(e, db, revision) ==>
      Capture(e, db, revision, archiveId) == Ok(AfterCapture(e, db, revision, archiveId))
    ensures !CanCapture(e, db, revision) ==>
      Capture(e, db, revision, archiveId).Refused? && Capture(e, db, revision, archiveId).why.BeforeWrites()
  {
    GuardExact(e, db, revision);
    if CanCapture(e, db, revision) && !NothingCaptured(e, db) {
      StoreExact(e, db, revision, archiveId);
    }
  }

  /** With every date readable capture leaves the database exactly as it is. */
  lemma CaptureOfKnownIsIdentity(e: Env, db: Db, revision: string, archiveId: string)
    requires Shaped(db) && FreshId(db, archiveId) && CanCapture(e, db, revision)
    requires forall id :: id in db.live.retry ==> !HasUnknown(e, Retry, db.live.retry[id])
    requires forall id :: id in db.live.dlq ==> !HasUnknown(e, Dlq, db.live.dlq[id])
    ensures Capture(e, db, revision, archiveId) == Ok(db)
  {
    CaptureExact(e, db, revision, archiveId);
    CapturedFacts(e, Retry, db.live.retry);
    CapturedFacts(e, Dlq, db.live.dlq);
    var retry, dlq := Captured(e, Retry, db.live.retry), Captured(e, Dlq, db.live.dlq);
    Nonempty(retry);
    Nonempty(dlq);
  }

  // ---------- what capture keeps ----------

  lemma SideConserves(e: Env, s: Source, t: Table, archive: seq<Archived>, archiveId: string)
    requires KeyedTable(t)
    ensures RowsOf(Known(e, s, t)) + RawSet(archive + ArchiveRows(e, archiveId, Captured(e, s, t)))
      == RowsOf(t) + RawSet(archive)
  {
    SplitByDates(e, s, t);
    RawSetAppend(archive, ArchiveRows(e, archiveId, Captured(e, s, t)));
    ArchivedRaws(e, archiveId, Captured(e, s, t));
  }

  lemma NoneUnknown(e: Env, s: Source, t: Table)
    requires KeyedTable(t) && Captured(e, s, t) == []
    ensures Known(e, s, t) == t
  {
    CapturedFacts(e, s, t);
    forall id | id in t ensures !HasUnknown(e, s, t[id]) {
      assert IdOf(t[id]) == id;
      assert t[id] !in Captured(e, s, t);
    }
  }

  lemma AfterCaptureAt(e: Env, db: Db, revision: string, archiveId: string, s: Source)
    requires !NothingCaptured(e, db)
    ensures var db' := AfterCapture(e, db, revision, archiveId);
      && db'.live.At(s) == Known(e, s, db.live.At(s))
      && db'.archive.At(s) == ArchiveAfter(e, db, s, archiveId)
      && db'.sequence.At(s) == SequenceAfter(e, db, s)
  {
  }

  /** Rows move, none is lost: the live ones left are those with readable dates. */
  lemma CaptureConserves(e: Env, db: Db, revision: string, archiveId: string, s: Source)
    requires Shaped(db)
    ensures Contents(AfterCapture(e, db, revision, archiveId), s) == Contents(db, s)
    ensures AfterCapture(e, db, revision, archiveId).live.At(s) == Known(e, s, db.live.At(s))
  {
    if NothingCaptured(e, db) {
      NoneUnknown(e, s, db.live.At(s));
    } else {
      AfterCaptureAt(e, db, revision, archiveId, s);
      SideConserves(e, s, db.live.At(s), db.archive.At(s), archiveId);
    }
  }

  lemma RawSetAppend(p: seq<Archived>, q: seq<Archived>)
    ensures RawSet(p + q) == RawSet(p) + RawSet(q)
  {
  }

  lemma ArchivedRaws(e: Env, archiveId: string, rows: seq<Row>)
    ensures RawSet(ArchiveRows(e, archiveId, rows)) == set row | row in rows
  {
    var added := ArchiveRows(e, archiveId, rows);
    forall row | row in rows ensures row in RawSet(added) {
      var i :| 0 <= i < |rows| && rows[i] == row;
      assert added[i] in added;
    }
  }

  lemma SplitByDates(e: Env, s: Source, t: Table)
    requires KeyedTable(t)
    ensures RowsOf(t) == RowsOf(Known(e, s, t)) + set row | row in Captured(e, s, t)
  {
    CapturedFacts(e, s, t);
    forall row | row in RowsOf(t) ensures row in RowsOf(Known(e, s, t)) || row in Captured(e, s, t) {
      var id :| id in t && t[id] == row;
      assert IdOf(row) == id;
      if !HasUnknown(e, s, row) {
        assert Known(e, s, t)[id] == row;
      }
    }
  }

  // ---------- the archive stays readable ----------

  lemma {:induction false} AllRowsAppend(p: seq<Batch>, q: seq<Batch>, s: Source)
    ensures AllRows(p + q, s) == AllRows(p, s) + AllRows(q, s)
  {
    if p == [] {
      assert p + q == q;
    } else {
      assert (p + q)[0] == p[0] && (p + q)[1..] == p[1..] + q;
      AllRowsAppend(p[1..], q, s);
      Assoc(p[0].rows.At(s), AllRows(p[1..], s), AllRows(q, s));
    }
  }

  function NewBatch(e: Env, db: Db, revision: string, archiveId: string): Batch {
    var rows := CapturedRows(e, db);
    Batch(NewManifest(e, db, revision, archiveId),
      Pair(ArchiveRows(e, archiveId, rows.retry), ArchiveRows(e, archiveId, rows.dlq)))
  }

  lemma PendingAfterCapture(e: Env, db: Db, revision: string, archiveId: string)
    requires FreshId(db, archiveId) && !NothingCaptured(e, db)
    ensures PendingOf(AfterCapture(e, db, revision, archiveId)) == PendingOf(db) + [NewManifest(e, db, revision, archiveId)]
  {
    var m := NewManifest(e, db, revision, archiveId);
    assert m.archiveId == archiveId;
    FilterAppend((x: Manifest) => x.archiveId != CONTROL_ID, OldManifests(e, db), [m]);
    assert Pending([m]) == [m];
    if db.manifests.None? {
      assert Pending([ControlManifest(e)]) == [];
    }
  }

  lemma BatchesAfterCapture(e: Env, db: Db, revision: string, archiveId: string)
    requires Shaped(db) && Acceptable(e, db) && FreshId(db, archiveId)
    requires !NothingCaptured(e, db)
    ensures PendingBatches(AfterCapture(e, db, revision, archiveId)) ==
      PendingBatches(db) + [NewBatch(e, db, revision, archiveId)]
  {
    var db', m, pending := AfterCapture(e, db, revision, archiveId), NewManifest(e, db, revision, archiveId), PendingOf(db);
    PendingAfterCapture(e, db, revision, archiveId);
    FreshMeansUnused(e, db, archiveId);
    CopiedRows(e, db.archive.retry, archiveId, Captured(e, Retry, db.live.retry));
    CopiedRows(e, db.archive.dlq, archiveId, Captured(e, Dlq, db.live.dlq));
    OldBatches(e, db, db', pending, archiveId);
    assert BatchOf(db', m) == NewBatch(e, db, revision, archiveId);
    BatchesSplit(db', pending, m);
  }

  lemma BatchesSplit(db: Db, pending: seq<Manifest>, m: Manifest)
    ensures BatchesOf(db, pending + [m]) == BatchesOf(db, pending) + [BatchOf(db, m)]
  {
  }

  lemma OldBatches(e: Env, db: Db, db': Db, pending: seq<Manifest>, archiveId: string)
    requires archiveId !in ArchiveIds(pending)
    requires db'.archive == Pair(ArchiveAfter(e, db, Retry, archiveId), ArchiveAfter(e, db, Dlq, archiveId))
    ensures BatchesOf(db', pending) == BatchesOf(db, pending)
  {
    forall i | 0 <= i < |pending| ensures BatchOf(db', pending[i]) == BatchOf(db, pending[i]) {
      assert ArchiveIds(pending)[i] != archiveId;
      OtherRows(e, db.archive.retry, archiveId, Captured(e, Retry, db.live.retry), pending[i].archiveId);
      OtherRows(e, db.archive.dlq, archiveId, Captured(e, Dlq, db.live.dlq), pending[i].archiveId);
    }
  }

  lemma OtherRows(e: Env, archive: seq<Archived>, archiveId: string, rows: seq<Row>, other: string)
    requires other != archiveId
    ensures RowsFor(archive + ArchiveRows(e, archiveId, rows), other) == RowsFor(archive, other)
  {
    RowsForAppend(archive, ArchiveRows(e, archiveId, rows), other);
    FilterNone((r: Archived) => r.archiveId == other, ArchiveRows(e, archiveId, rows));
  }

  lemma MaxIdBounds(t: Table)
    ensures forall id :: id in t ==> id <= MaxId(t)
  {
    var ids := Ordered(t.Keys);
    OrderedMembers(t.Keys);
    OrderedIncreases(t.Keys);
    forall id | id in t ensures id <= MaxId(t) {
      var i :| 0 <= i < |ids| && ids[i] == id;
    }
  }

  lemma {:induction false} MaxOfBound(ids: seq<int>, bound: int)
    requires bound >= 0 && forall i :: 0 <= i < |ids| ==> ids[i] <= bound
    ensures MaxOf(ids) <= bound
  {
    if ids != [] {
      MaxOfBound(ids[1..], bound);
    }
  }

  lemma HighWaterBounds(q: Sequence, t: Table)
    requires ValidSequence(q)
    ensures HighWater(q, t) >= 0 && forall id :: id in t ==> id <= HighWater(q, t)
  {
    MaxIdBounds(t);
  }

  lemma NewRowsIntact(e: Env, db: Db, s: Source, archiveId: string)
    requires Shaped(db)
    ensures MaxOf(Ids(ArchiveRows(e, archiveId, Captured(e, s, db.live.At(s))))) <= HighWater(db.sequence.At(s), db.live.At(s))
  {
    var rows := Captured(e, s, db.live.At(s));
    var ids := Ids(ArchiveRows(e, archiveId, rows));
    CapturedFacts(e, s, db.live.At(s));
    HighWaterBounds(db.sequence.At(s), db.live.At(s));
    forall i | 0 <= i < |ids| ensures ids[i] <= HighWater(db.sequence.At(s), db.live.At(s)) {
      assert rows[i] in rows;
    }
    MaxOfBound(ids, HighWater(db.sequence.At(s), db.live.At(s)));
  }

  lemma BoundDigests(e: Env, m: Manifest, rows: Pair<seq<Row>>, s: Source)
    ensures BoundManifest(e, m, rows).sides.At(s).digest == BatchDigest(e, BoundManifest(e, m, rows), s, rows.At(s))
  {
    assert Context(BoundManifest(e, m, rows)) == Context(m);
  }

  lemma NewRowsTyped(e: Env, db: Db, revision: string, archiveId: string, s: Source)
    requires Shaped(db) && TypedTable(s, db.live.At(s), SchemaAt(db, revision))
    ensures TypedRows(s, Captured(e, s, db.live.At(s)), RecordedNullable(NewManifest(e, db, revision, archiveId)))
  {
    CapturedFacts(e, s, db.live.At(s));
    SchemaTextsDiffer();
    assert RecordedNullable(NewManifest(e, db, revision, archiveId)) == SchemaAt(db, revision);
  }

  lemma NewManifestSide(e: Env, db: Db, revision: string, archiveId: string, s: Source)
    ensures var m := NewManifest(e, db, revision, archiveId);
      && m.sides.At(s).count == |Captured(e, s, db.live.At(s))|
      && m.sides.At(s).highWater == HighWater(db.sequence.At(s), db.live.At(s))
      && m.sides.At(s).digest == BatchDigest(e, m, s, Captured(e, s, db.live.At(s)))
  {
    BoundDigests(e, UnboundManifest(e, db, revision, archiveId, CapturedRows(e, db)), CapturedRows(e, db), s);
  }

  lemma NewBatchAt(e: Env, db: Db, revision: string, archiveId: string, s: Source)
    ensures NewBatch(e, db, revision, archiveId).rows.At(s) == ArchiveRows(e, archiveId, Captured(e, s, db.live.At(s)))
    ensures NewBatch(e, db, revision, archiveId).manifest == NewManifest(e, db, revision, archiveId)
    ensures Raws(ArchiveRows(e, archiveId, Captured(e, s, db.live.At(s)))) == Captured(e, s, db.live.At(s))
  {
    assert Raws(ArchiveRows(e, archiveId, Captured(e, s, db.live.At(s)))) == Captured(e, s, db.live.At(s));
  }

  lemma NewSideSound(e: Env, db: Db, revision: string, archiveId: string, s: Source)
    requires Shaped(db) && TypedTable(s, db.live.At(s), SchemaAt(db, revision))
    ensures SoundSide(e, NewBatch(e, db, revision, archiveId), s)
  {
    var b, rows := NewBatch(e, db, revision, archiveId), Captured(e, s, db.live.At(s));
    NewBatchAt(e, db, revision, archiveId, s);
    NewRowsTyped(e, db, revision, archiveId, s);
    NewRowsIntact(e, db, s, archiveId);
    NewManifestSide(e, db, revision, archiveId, s);
    IntactFromParts(e, b.manifest, s, archiveId, rows);
  }

  lemma IntactFromParts(e: Env, m: Manifest, s: Source, archiveId: string, rows: seq<Row>)
    requires m.sides.At(s).count == |rows| && m.sides.At(s).digest == BatchDigest(e, m, s, rows)
    requires MaxOf(Ids(ArchiveRows(e, archiveId, rows))) <= m.sides.At(s).highWater
    ensures IntactSide(e, m, s, ArchiveRows(e, archiveId, rows))
  {
    assert Raws(ArchiveRows(e, archiveId, rows)) == rows;
  }

  lemma CapturedIdsLeave(e: Env, s: Source, t: Table)
    requires KeyedTable(t)
    ensures forall id :: id in RowIds(Captured(e, s, t)) ==> id in t && id !in Known(e, s, t)
  {
    var rows := Captured(e, s, t);
    CapturedFacts(e, s, t);
    forall id | id in RowIds(rows) ensures id in t && id !in Known(e, s, t) {
      var i :| 0 <= i < |rows| && RowIds(rows)[i] == id;
      assert rows[i] in rows;
    }
  }

  lemma AllRowsOne(b: Batch, s: Source)
    ensures AllRows([b], s) == b.rows.At(s)
  {
    assert [b][1..] == [] && b.rows.At(s) + [] == b.rows.At(s);
  }

  lemma IdsAfterCapture(e: Env, db: Db, revision: string, archiveId: string, s: Source)
    ensures Ids(AllRows(PendingBatches(db) + [NewBatch(e, db, revision, archiveId)], s)) ==
      Ids(AllRows(PendingBatches(db), s)) + RowIds(Captured(e, s, db.live.At(s)))
  {
    var b := NewBatch(e, db, revision, archiveId);
    AllRowsAppend(PendingBatches(db), [b], s);
    AllRowsOne(b, s);
    NewBatchAt(e, db, revision, archiveId, s);
    IdsSplit(AllRows(PendingBatches(db), s), b.rows.At(s));
    assert Ids(b.rows.At(s)) == RowIds(Captured(e, s, db.live.At(s)));
  }

  lemma SeparateAfterCapture(e: Env, db: Db, revision: string, archiveId: string, s: Source)
    requires Shaped(db) && Acceptable(e, db)
    ensures var ids := Ids(AllRows(PendingBatches(db) + [NewBatch(e, db, revision, archiveId)], s));
      Distinct(ids) && forall id :: id in ids ==> id !in Known(e, s, db.live.At(s))
  {
    var t := db.live.At(s);
    IdsAfterCapture(e, db, revision, archiveId, s);
    CapturedFacts(e, s, t);
    CapturedIdsLeave(e, s, t);
    assert SeparateIds(db, PendingBatches(db), s);
    JoinDistinct(Ids(AllRows(PendingBatches(db), s)), RowIds(Captured(e, s, t)));
  }

  lemma NewBatchSound(e: Env, db: Db, revision: string, archiveId: string)
    requires Shaped(db) && CanCapture(e, db, revision)
    requires revision == HEAD || revision == PREVIOUS
    ensures SoundBatch(e, NewBatch(e, db, revision, archiveId))
  {
    NewSideSound(e, db, revision, archiveId, Retry);
    NewSideSound(e, db, revision, archiveId, Dlq);
    var m := NewManifest(e, db, revision, archiveId);
    assert m.sourceSchema == SchemaText(SchemaAt(db, revision));
  }

  lemma NoOrphansAfterCapture(e: Env, db: Db, revision: string, archiveId: string)
    requires Acceptable(e, db) && FreshId(db, archiveId) && !NothingCaptured(e, db)
    ensures var db' := AfterCapture(e, db, revision, archiveId);
      NoOrphans(db'.archive.retry, PendingOf(db')) && NoOrphans(db'.archive.dlq, PendingOf(db'))
  {
    var m := NewManifest(e, db, revision, archiveId);
    PendingAfterCapture(e, db, revision, archiveId);
    NoOrphansAppend(e, db.archive.retry, PendingOf(db), archiveId, Captured(e, Retry, db.live.retry), m);
    NoOrphansAppend(e, db.archive.dlq, PendingOf(db), archiveId, Captured(e, Dlq, db.live.dlq), m);
  }

  lemma AllSound(e: Env, p: seq<Batch>, b: Batch)
    requires (forall x :: x in p ==> SoundBatch(e, x)) && SoundBatch(e, b)
    ensures forall x :: x in p + [b] ==> SoundBatch(e, x)
  {
  }

  lemma SeparateInResult(e: Env, db: Db, revision: string, archiveId: string, s: Source)
    requires Shaped(db) && Acceptable(e, db) && FreshId(db, archiveId) && !NothingCaptured(e, db)
    ensures SeparateIds(AfterCapture(e, db, revision, archiveId), PendingBatches(AfterCapture(e, db, revision, archiveId)), s)
  {
    BatchesAfterCapture(e, db, revision, archiveId);
    SeparateAfterCapture(e, db, revision, archiveId, s);
    AfterCaptureAt(e, db, revision, archiveId, s);
  }

  lemma SoundInResult(e: Env, db: Db, revision: string, archiveId: string)
    requires Shaped(db) && FreshId(db, archiveId) && CanCapture(e, db, revision)
    requires (revision == HEAD || revision == PREVIOUS) && !NothingCaptured(e, db)
    ensures forall b :: b in PendingBatches(AfterCapture(e, db, revision, archiveId)) ==> SoundBatch(e, b)
  {
    BatchesAfterCapture(e, db, revision, archiveId);
    NewBatchSound(e, db, revision, archiveId);
    AllSound(e, PendingBatches(db), NewBatch(e, db, revision, archiveId));
  }

  lemma AcceptableAfterCapture(e: Env, db: Db, revision: string, archiveId: string)
    requires Shaped(db) && FreshId(db, archiveId) && CanCapture(e, db, revision)
    requires (revision == HEAD || revision == PREVIOUS) && !NothingCaptured(e, db)
    ensures Acceptable(e, AfterCapture(e, db, revision, archiveId))
  {
    SoundInResult(e, db, revision, archiveId);
    SeparateInResult(e, db, revision, archiveId, Retry);
    SeparateInResult(e, db, revision, archiveId, Dlq);
    NoOrphansAfterCapture(e, db, revision, archiveId);
  }

  /** After capture the archive is still readable, old batches and new. */
  lemma CaptureKeepsReadable(e: Env, db: Db, revision: string, archiveId: string)
    requires Shaped(db) && FreshId(db, archiveId) && CanCapture(e, db, revision)
    requires revision == HEAD || revision == PREVIOUS
    ensures Shaped(AfterCapture(e, db, revision, archiveId))
    ensures Acceptable(e, AfterCapture(e, db, revision, archiveId))
    ensures CheckMarker(e, AfterCapture(e, db, revision, archiveId)).Ok?
  {
    if !NothingCaptured(e, db) {
      CaptureKeepsShape(e, db, revision, archiveId);
      AcceptableAfterCapture(e, db, revision, archiveId);
    }
  }

  lemma NoOrphansAppend(e: Env, archive: seq<Archived>, pending: seq<Manifest>, archiveId: string, rows: seq<Row>, m: Manifest)
    requires NoOrphans(archive, pending) && m.archiveId == archiveId
    ensures NoOrphans(archive + ArchiveRows(e, archiveId, rows), pending + [m])
  {
    assert ArchiveIds(pending + [m]) == ArchiveIds(pending) + [archiveId];
  }

  lemma CaptureKeepsShape(e: Env, db: Db, revision: string, archiveId: string)
    requires Shaped(db) && Acceptable(e, db) && FreshId(db, archiveId) && CheckMarker(e, db).Ok?
    requires !NothingCaptured(e, db)
    ensures Shaped(AfterCapture(e, db, revision, archiveId))
    ensures CheckMarker(e, AfterCapture(e, db, revision, archiveId)).Ok?
  {
    var m := NewManifest(e, db, revision, archiveId);
    FreshMeansUnused(e, db, archiveId);
    MoreManifests(OldManifests(e, db), m);
    assert ControlManifest(e) in OldManifests(e, db);
    AdvanceValid(db.sequence.retry, Known(e, Retry, db.live.retry), HighWater(db.sequence.retry, db.live.retry));
    AdvanceValid(db.sequence.dlq, Known(e, Dlq, db.live.dlq), HighWater(db.sequence.dlq, db.live.dlq));
  }

  lemma MoreManifests(manifests: seq<Manifest>, m: Manifest)
    requires Distinct(ArchiveIds(manifests)) && m.archiveId !in ArchiveIds(manifests)
    ensures Distinct(ArchiveIds(manifests + [m]))
    ensures forall x :: x in manifests ==> x in manifests + [m]
  {
    assert ArchiveIds(manifests + [m]) == ArchiveIds(manifests) + [m.archiveId];
    JoinDistinct(ArchiveIds(manifests), [m.archiveId]);
  }

  lemma AdvanceValid(q: Sequence, t: Table, highWater: int)
    requires ValidSequence(q)
    ensures ValidSequence(Advance(q, t, highWater))
  {
  }
}

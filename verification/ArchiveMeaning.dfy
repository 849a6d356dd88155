/**
 Capture and reading once more, in terms of columns, dates and stored values alone:
 which rows move, what is written about them, and which archives are read.
 */
module ArchiveMeaning {
  import opened Results
  import opened Sequences
  import opened RetryArchive
  import opened ArchiveDigests
  import opened ArchiveReading
  import opened ArchiveCapture
  import JsonText

  // ---------- dates ----------

  // A date the newer runtime can read.
  ghost predicate Dated(e: Env, v: Value) {
    v.Str? && v.s != "CURRENT_TIMESTAMP" && e.parses(v.s)
  }

  ghost predicate Undated(e: Env, v: Value) {
    v.Null? || v.Int? || (v.Str? && (v.s == "CURRENT_TIMESTAMP" || !e.parses(v.s)))
  }

  // next_attempt_at and created_at, original_created_at and moved_to_dlq_at.
  ghost predicate DatedRow(e: Env, s: Source, row: Row) {
    match s
    case Retry => |row| == 9 && Dated(e, row[6]) && Dated(e, row[8])
    case Dlq => |row| == 8 && Dated(e, row[6]) && Dated(e, row[7])
  }

  ghost predicate UndatedRow(e: Env, s: Source, row: Row) {
    match s
    case Retry => |row| == 9 && (Undated(e, row[6]) || Undated(e, row[8]))
    case Dlq => |row| == 8 && (Undated(e, row[6]) || Undated(e, row[7]))
  }

  // The columns of the two tables, one by one; nullable is original_created_at's.
  ghost predicate Plain(s: Source, row: Row, nullable: bool) {
    match s
    case Retry =>
      && |row| == 9 && row[0].Int? && row[1].Int? && row[2].Str? && row[3].Str? && row[4].Int? && row[5].Int?
      && row[6].Str? && !row[7].Int? && !row[8].Int?
    case Dlq =>
      && |row| == 8 && row[0].Int? && row[1].Int? && row[2].Str? && row[3].Str? && row[4].Int? && row[5].Str?
      && (row[6].Str? || (nullable && row[6].Null?)) && !row[7].Int?
  }

  lemma RetryIsPlain(row: Row, nullable: bool)
    ensures TypedRow(Retry, row, nullable) <==> Plain(Retry, row, nullable)
  {
    var columns := Columns(Retry, nullable);
    if Plain(Retry, row, nullable) {
      assert forall i :: 0 <= i < |row| ==> TypedValue(row[i], columns[i]);
    }
    if TypedRow(Retry, row, nullable) {
      assert TypedValue(row[0], columns[0]) && TypedValue(row[1], columns[1]) && TypedValue(row[2], columns[2]);
      assert TypedValue(row[3], columns[3]) && TypedValue(row[4], columns[4]) && TypedValue(row[5], columns[5]);
      assert TypedValue(row[6], columns[6]) && TypedValue(row[7], columns[7]) && TypedValue(row[8], columns[8]);
    }
  }

  lemma DlqIsPlain(row: Row, nullable: bool)
    ensures TypedRow(Dlq, row, nullable) <==> Plain(Dlq, row, nullable)
  {
    var columns := Columns(Dlq, nullable);
    if Plain(Dlq, row, nullable) {
      assert forall i :: 0 <= i < |row| ==> TypedValue(row[i], columns[i]);
    }
    if TypedRow(Dlq, row, nullable) {
      assert TypedValue(row[0], columns[0]) && TypedValue(row[1], columns[1]) && TypedValue(row[2], columns[2]);
      assert TypedValue(row[3], columns[3]) && TypedValue(row[4], columns[4]) && TypedValue(row[5], columns[5]);
      assert TypedValue(row[6], columns[6]) && TypedValue(row[7], columns[7]);
    }
  }

  lemma TypedIsPlain(s: Source, row: Row, nullable: bool)
    ensures TypedRow(s, row, nullable) <==> Plain(s, row, nullable)
  {
    match s
    case Retry => RetryIsPlain(row, nullable);
    case Dlq => DlqIsPlain(row, nullable);
  }

  lemma DatesMean(e: Env, s: Source, row: Row)
    requires |row| == if s == Retry then 9 else 8
    ensures HasUnknown(e, s, row) <==> UndatedRow(e, s, row)
    ensures !HasUnknown(e, s, row) <==> DatedRow(e, s, row)
  {
  }

  // Every row of a table as wide as its columns say.
  ghost predicate Wide(s: Source, t: Table) {
    forall id :: id in t ==> |t[id]| == if s == Retry then 9 else 8
  }

  lemma TypedIsWide(s: Source, t: Table, nullable: bool)
    requires TypedTable(s, t, nullable)
    ensures Wide(s, t)
  {
    forall id | id in t ensures |t[id]| == if s == Retry then 9 else 8 {
      TypedIsPlain(s, t[id], nullable);
    }
  }

  // ---------- what capture moves ----------

  // after holds exactly the rows of before whose two dates can be read.
  ghost predicate KeepsDated(e: Env, s: Source, before: Table, after: Table) {
    && (forall id :: id in after <==> id in before && DatedRow(e, s, before[id]))
    && forall id :: id in after && id in before ==> after[id] == before[id]
  }

  // One live row under a new archive id, with its own digest.
  ghost predicate ArchivedFrom(e: Env, s: Source, live: Table, archiveId: string, r: Archived) {
    && r.archiveId == archiveId
    && r.rowDigest == e.hash(JsonText.Text(RowsJson([r.raw])))
    && UndatedRow(e, s, r.raw) && r.raw[0].Int?
    && r.raw[0].n in live && live[r.raw[0].n] == r.raw
  }

  // The archive with every row that cannot stay added to it, each once, and no other.
  ghost predicate AddsUndated(e: Env, s: Source, live: Table, before: seq<Archived>, archiveId: string, after: seq<Archived>) {
    && |before| <= |after| && after[..|before|] == before
    && (forall i :: |before| <= i < |after| ==> ArchivedFrom(e, s, live, archiveId, after[i]))
    && (forall i, j :: |before| <= i < j < |after| ==> after[i].raw != after[j].raw)
    && forall id :: id in live && UndatedRow(e, s, live[id]) ==> exists i :: |before| <= i < |after| && after[i].raw == live[id]
  }

  lemma KnownKeepsDated(e: Env, s: Source, t: Table)
    requires Wide(s, t)
    ensures KeepsDated(e, s, t, Known(e, s, t))
  {
    forall id | id in t ensures HasUnknown(e, s, t[id]) <==> !DatedRow(e, s, t[id]) {
      DatesMean(e, s, t[id]);
    }
  }

  lemma CapturedIsUndated(e: Env, s: Source, t: Table, row: Row)
    requires KeyedTable(t) && Wide(s, t)
    ensures row in Captured(e, s, t) <==>
      row != [] && row[0].Int? && row[0].n in t && t[row[0].n] == row && UndatedRow(e, s, row)
  {
    CapturedFacts(e, s, t);
    if row in Captured(e, s, t) {
      assert row[0] == Int(IdOf(row));
    }
    if row != [] && row[0].Int? && row[0].n in t && t[row[0].n] == row {
      DatesMean(e, s, row);
    }
    if IdOf(row) in t && t[IdOf(row)] == row {
      DatesMean(e, s, row);
    }
  }

  lemma ArchiveAddsUndated(e: Env, s: Source, t: Table, before: seq<Archived>, archiveId: string)
    requires KeyedTable(t) && Wide(s, t)
    ensures AddsUndated(e, s, t, before, archiveId, before + ArchiveRows(e, archiveId, Captured(e, s, t)))
  {
    var rows := Captured(e, s, t);
    var added := ArchiveRows(e, archiveId, rows);
    var after := before + added;
    CapturedFacts(e, s, t);
    forall i | |before| <= i < |after| ensures ArchivedFrom(e, s, t, archiveId, after[i]) {
      assert after[i] == added[i - |before|] && rows[i - |before|] in rows;
      CapturedIsUndated(e, s, t, rows[i - |before|]);
      SortOne(rows[i - |before|]);
    }
    forall i, j | |before| <= i < j < |after| ensures after[i].raw != after[j].raw {
      assert RowIds(rows)[i - |before|] != RowIds(rows)[j - |before|];
    }
    forall id | id in t && UndatedRow(e, s, t[id]) ensures exists i :: |before| <= i < |after| && after[i].raw == t[id] {
      CapturedIsUndated(e, s, t, t[id]);
      var k :| 0 <= k < |rows| && rows[k] == t[id];
      assert after[|before| + k].raw == t[id];
    }
  }

  lemma SortOne(row: Row)
    ensures SortById([row]) == [row]
  {
    assert [row][1..] == [];
    assert SortById([]) == [];
  }

  // Some row of either table has to move.
  ghost predicate SomeUndated(e: Env, db: Db) {
    || (exists id :: id in db.live.retry && UndatedRow(e, Retry, db.live.retry[id]))
    || (exists id :: id in db.live.dlq && UndatedRow(e, Dlq, db.live.dlq[id]))
  }

  lemma SideUndated(e: Env, s: Source, t: Table)
    requires KeyedTable(t) && Wide(s, t)
    ensures Captured(e, s, t) != [] <==> exists id :: id in t && UndatedRow(e, s, t[id])
  {
    Nonempty(Captured(e, s, t));
    forall row: Row | row in Captured(e, s, t) ensures exists id :: id in t && UndatedRow(e, s, t[id]) {
      CapturedIsUndated(e, s, t, row);
      assert UndatedRow(e, s, t[row[0].n]);
    }
    forall id | id in t && UndatedRow(e, s, t[id]) ensures t[id] in Captured(e, s, t) {
      CapturedIsUndated(e, s, t, t[id]);
    }
  }

  // The manifest written about rows moved at a revision.
  ghost predicate Describes(e: Env, m: Manifest, revision: string, nullable: bool, archiveId: string) {
    && m.archiveId == archiveId && m.owner == "gitlab_queue.retry_rollback" && m.formatVersion == 1
    && m.sourceRevision == revision && m.targetRevision == "f6a7b8c9d0e1" && m.sourceSchema == SchemaText(nullable)
  }

  // The counts, digests and marks of one source in it.
  ghost predicate Counts(e: Env, m: Manifest, s: Source, live: Table, q: Sequence, before: seq<Archived>, after: seq<Archived>) {
    && m.sides.At(s).count == |after| - |before|
    && |before| <= |after|
    && m.sides.At(s).digest == BatchDigest(e, m, s, Raws(after[|before|..]))
    && Mark(live, q, m.sides.At(s).highWater)
  }

  // The greatest of what the sequence has reached and the ids of the table, or 0.
  ghost predicate Mark(live: Table, q: Sequence, mark: int) {
    && (forall id :: id in live ==> id <= mark)
    && Reached(q) <= mark
    && (mark == Reached(q) || mark == 0 || mark in live)
  }

  // The value stored for the sequence, 0 where SQLite has no row.
  function Reached(q: Sequence): int {
    match q
    case Sqlite(row) => if row.Some? then row.value else 0
    case Postgres(last, _) => last
  }

  lemma HighWaterIsMark(q: Sequence, t: Table)
    requires ValidSequence(q)
    ensures Mark(t, q, HighWater(q, t))
  {
    HighWaterBounds(q, t);
    var ids := Ordered(t.Keys);
    if ids != [] {
      OrderedMembers(t.Keys);
      assert ids[|ids| - 1] in ids;
    }
  }

  // Everything but the two tables, their sequences and the archive is as it was.
  ghost predicate RestSame(db: Db, db': Db) {
    db' == db.(live := db'.live, sequence := db'.sequence, archive := db'.archive, manifests := db'.manifests)
  }

  // The marker that stands for the archive's owner.
  ghost predicate IsMarker(e: Env, m: Manifest) {
    m == Manifest("__contract_v1__", "gitlab_queue.retry_rollback", 1, "a7b8c9d0e1f2", "f6a7b8c9d0e1", SchemaText(true),
           Pair(Side(0, e.hash("[]"), 0), Side(0, e.hash("[]"), 0)))
  }

  lemma ControlIsMarker(e: Env)
    ensures IsMarker(e, ControlManifest(e))
    ensures forall m :: IsMarker(e, m) <==> m == ControlManifest(e)
  {
    assert RowsJson(SortById([])) == JsonText.JArr([]);
    assert JsonText.Text(JsonText.JArr([])) == "[]";
    assert Digest(e, []) == e.hash("[]");
  }

  // The manifests there were, the marker alone if there were none, and one more.
  ghost predicate AddsManifest(e: Env, before: Option<seq<Manifest>>, after: Option<seq<Manifest>>, m: Manifest) {
    && after.Some?
    && match before
       case Some(ms) => after.value == ms + [m]
       case None => |after.value| == 2 && IsMarker(e, after.value[0]) && after.value[1] == m
  }

  // One source after a capture that moved something.
  ghost predicate CapturedSide(e: Env, db: Db, db': Db, archiveId: string, m: Manifest, s: Source) {
    && KeepsDated(e, s, db.live.At(s), db'.live.At(s))
    && AddsUndated(e, s, db.live.At(s), db.archive.At(s), archiveId, db'.archive.At(s))
    && Counts(e, m, s, db.live.At(s), db.sequence.At(s), db.archive.At(s), db'.archive.At(s))
    && Advanced(db.sequence.At(s), db'.sequence.At(s), m.sides.At(s).highWater)
  }

  // Put at the mark, and no further.
  ghost predicate Advanced(q: Sequence, q': Sequence, mark: int) {
    match q
    case Sqlite(_) => q' == Sqlite(Some(mark))
    case Postgres(_, _) => q' == Postgres(mark, true)
  }

  lemma CaptureAdvances(e: Env, s: Source, q: Sequence, t: Table)
    requires ValidSequence(q)
    ensures Advanced(q, Advance(q, Known(e, s, t), HighWater(q, t)), HighWater(q, t))
  {
    var known := Known(e, s, t);
    HighWaterIsMark(q, t);
    HighWaterIsMark(q, known);
    assert forall id :: id in known ==> id in t;
    assert HighWater(q, known) <= HighWater(q, t);
  }

  lemma CaptureSide(e: Env, db: Db, revision: string, archiveId: string, s: Source)
    requires Shaped(db) && Wide(s, db.live.At(s)) && !NothingCaptured(e, db)
    ensures CapturedSide(e, db, AfterCapture(e, db, revision, archiveId), archiveId, NewManifest(e, db, revision, archiveId), s)
  {
    var t, q, archive := db.live.At(s), db.sequence.At(s), db.archive.At(s);
    var db', m := AfterCapture(e, db, revision, archiveId), NewManifest(e, db, revision, archiveId);
    assert KeyedTable(t) && ValidSequence(q);
    AfterCaptureAt(e, db, revision, archiveId, s);
    KnownKeepsDated(e, s, t);
    ArchiveAddsUndated(e, s, t, archive, archiveId);
    CaptureAdvances(e, s, q, t);
    NewManifestSide(e, db, revision, archiveId, s);
    CaptureCounts(e, db, revision, archiveId, s);
  }

  lemma CaptureCounts(e: Env, db: Db, revision: string, archiveId: string, s: Source)
    requires Shaped(db) && !NothingCaptured(e, db)
    ensures Counts(e, NewManifest(e, db, revision, archiveId), s, db.live.At(s), db.sequence.At(s), db.archive.At(s),
      AfterCapture(e, db, revision, archiveId).archive.At(s))
  {
    var archive, rows := db.archive.At(s), Captured(e, s, db.live.At(s));
    var added := ArchiveRows(e, archiveId, rows);
    assert ValidSequence(db.sequence.At(s));
    AfterCaptureAt(e, db, revision, archiveId, s);
    NewManifestSide(e, db, revision, archiveId, s);
    HighWaterIsMark(db.sequence.At(s), db.live.At(s));
    assert (archive + added)[|archive|..] == added;
    assert Raws(added) == rows;
  }

  // What a capture has done that succeeded.
  ghost predicate HasCaptured(e: Env, db: Db, db': Db, revision: string, archiveId: string) {
    if !SomeUndated(e, db) then db' == db
    else
      && RestSame(db, db')
      && exists m :: Describes(e, m, revision, db.dlqNullable, archiveId) && AddsManifest(e, db.manifests, db'.manifests, m)
           && CapturedSide(e, db, db', archiveId, m, Retry) && CapturedSide(e, db, db', archiveId, m, Dlq)
  }

  lemma NothingCapturedMeans(e: Env, db: Db)
    requires Shaped(db) && Wide(Retry, db.live.retry) && Wide(Dlq, db.live.dlq)
    ensures NothingCaptured(e, db) <==> !SomeUndated(e, db)
  {
    SideUndated(e, Retry, db.live.retry);
    SideUndated(e, Dlq, db.live.dlq);
  }

  lemma ManifestDescribes(e: Env, db: Db, revision: string, archiveId: string)
    requires CheckSources(db, revision).Ok?
    ensures Describes(e, NewManifest(e, db, revision, archiveId), revision, db.dlqNullable, archiveId)
  {
  }

  /**
   What capture does, column by column and date by date: the live tables keep exactly
   the rows both of whose dates can be read, the archive gains each of the others once,
   exactly as it was, the new manifest counts and marks them, and nothing else changes.
   */
  lemma CaptureMeans(e: Env, db: Db, revision: string, archiveId: string, db': Db)
    requires Shaped(db) && FreshId(db, archiveId) && Capture(e, db, revision, archiveId) == Ok(db')
    ensures HasCaptured(e, db, db', revision, archiveId)
    ensures KeepsDated(e, Retry, db.live.retry, db'.live.retry) && KeepsDated(e, Dlq, db.live.dlq, db'.live.dlq)
  {
    CaptureExact(e, db, revision, archiveId);
    TypedIsWide(Retry, db.live.retry, SchemaAt(db, revision));
    TypedIsWide(Dlq, db.live.dlq, SchemaAt(db, revision));
    NothingCapturedMeans(e, db);
    CaptureConserves(e, db, revision, archiveId, Retry);
    CaptureConserves(e, db, revision, archiveId, Dlq);
    KnownKeepsDated(e, Retry, db.live.retry);
    KnownKeepsDated(e, Dlq, db.live.dlq);
    if !NothingCaptured(e, db) {
      CapturedSomething(e, db, revision, archiveId);
    }
  }

  lemma CapturedSomething(e: Env, db: Db, revision: string, archiveId: string)
    requires Shaped(db) && CanCapture(e, db, revision) && !NothingCaptured(e, db)
    requires Wide(Retry, db.live.retry) && Wide(Dlq, db.live.dlq)
    ensures HasCaptured(e, db, AfterCapture(e, db, revision, archiveId), revision, archiveId)
  {
    NothingCapturedMeans(e, db);
    CaptureSide(e, db, revision, archiveId, Retry);
    CaptureSide(e, db, revision, archiveId, Dlq);
    ManifestDescribes(e, db, revision, archiveId);
    ManifestAdded(e, db, revision, archiveId);
  }

  lemma ManifestAdded(e: Env, db: Db, revision: string, archiveId: string)
    requires !NothingCaptured(e, db)
    ensures var db' := AfterCapture(e, db, revision, archiveId);
      AddsManifest(e, db.manifests, db'.manifests, NewManifest(e, db, revision, archiveId)) && RestSame(db, db')
  {
    ControlIsMarker(e);
  }
}

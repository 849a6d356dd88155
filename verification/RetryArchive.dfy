/**
 The rollback archive of retry_archive_v1.py as functions over a database value.
 Checks that can only fail after writes have started are kept, as refusals; that
 they never fail is proved in the modules that follow.
 */
module RetryArchive {
  import opened Results
  import opened Sequences
  import Backoff
  import JsonText

  const HEAD := "a7b8c9d0e1f2"
  const PREVIOUS := "f6a7b8c9d0e1"
  const OWNER := "gitlab_queue.retry_rollback"
  const CONTROL_ID := "__contract_v1__"
  const BOUND := "bound-sha256-v1:"

  // Why a step raised; a raised step is rolled back with its whole transaction.
  datatype Refusal =
      // found before the first write
    | UnexpectedSchema
    | NoOwnerMarker
    | OrphanRows
    | UnsupportedManifest
    | IncompatibleValues
    | IntegrityFailed
    | RepeatedIdentities
    | IdentityCollision
      // found only after writes have started
    | CopyFailed
    | OwnershipChanged
    | RestorationFailed
    | DuplicateKey
    | NullViolation
  {
    predicate BeforeWrites() {
      UnexpectedSchema? || NoOwnerMarker? || OrphanRows? || UnsupportedManifest? || IncompatibleValues? ||
      IntegrityFailed? || RepeatedIdentities? || IdentityCollision?
    }
  }

  type Outcome<+T> = Result<T, Refusal>

  // ---------- storage ----------

  datatype Source = Retry | Dlq

  datatype Pair<T> = Pair(retry: T, dlq: T) {
    function At(s: Source): T {
      if s == Retry then retry else dlq
    }

    function With(s: Source, t: T): Pair<T> {
      if s == Retry then Pair(t, dlq) else Pair(retry, t)
    }
  }

  datatype Value = Null | Int(n: int) | Str(s: string)

  // A row lists its values in the order of Columns; the id comes first.
  type Row = seq<Value>

  type Table = map<int, Row>

  datatype Archived = Archived(archiveId: string, raw: Row, rowDigest: string)

  // The identity sequence of one table. SQLite keeps a row of sqlite_sequence,
  // possibly missing; PostgreSQL keeps last_value and whether it was handed out.
  datatype Sequence = Sqlite(seqRow: Option<int>) | Postgres(last: int, called: bool)

  datatype Side = Side(count: int, digest: string, highWater: int)

  datatype Manifest = Manifest(
    archiveId: string,
    owner: string,
    formatVersion: int,
    sourceRevision: string,
    targetRevision: string,
    sourceSchema: string,
    sides: Pair<Side>)

  // A row of one of the two queue tables: created_at, and every other column.
  datatype QueueRow = QueueRow(createdAt: Value, others: seq<Value>)

  datatype QueueTable = QueueTable(rows: map<int, QueueRow>, sequence: Sequence)

  // merge_requests and merge_requests_history, which no archive ever touches.
  datatype Queue = Queue(requests: QueueTable, history: QueueTable)

  // manifests is None while the three archive tables do not exist.
  // dlqNullable is the nullability of webhook_dlq.original_created_at;
  // literalDefaults says that the four date defaults are the text CURRENT_TIMESTAMP
  // and not the expression.
  datatype Db = Db(
    revision: string,
    dlqNullable: bool,
    literalDefaults: bool,
    queue: Queue,
    live: Pair<Table>,
    sequence: Pair<Sequence>,
    archive: Pair<seq<Archived>>,
    manifests: Option<seq<Manifest>>)

  // The two outside functions: SHA-256 as hexadecimal text, and whether
  // datetime.fromisoformat accepts a text.
  datatype Env = Env(hash: string -> string, parses: string -> bool)

  datatype Kind = Integer | Text

  datatype Column = Column(name: string, kind: Kind, nullable: bool)

  function SourceName(s: Source): string {
    match s
    case Retry => "webhook_retry_queue"
    case Dlq => "webhook_dlq"
  }

  // original says whether original_created_at is nullable; nothing else varies.
  function Columns(s: Source, original: bool): seq<Column> {
    match s
    case Retry => [
      Column("id", Integer, false),
      Column("project_id", Integer, false),
      Column("event_type", Text, false),
      Column("payload", Text, false),
      Column("attempt_count", Integer, false),
      Column("max_attempts", Integer, false),
      Column("next_attempt_at", Text, false),
      Column("last_error", Text, true),
      Column("created_at", Text, true)]
    case Dlq => [
      Column("id", Integer, false),
      Column("project_id", Integer, false),
      Column("event_type", Text, false),
      Column("payload", Text, false),
      Column("attempt_count", Integer, false),
      Column("last_error", Text, false),
      Column("original_created_at", Text, original),
      Column("moved_to_dlq_at", Text, true)]
  }

  // Positions of the date columns.
  const NEXT_ATTEMPT := 6
  const RETRY_CREATED := 8
  const ORIGINAL_CREATED := 6
  const MOVED_TO_DLQ := 7

  function Dates(s: Source): (nat, nat) {
    match s
    case Retry => (NEXT_ATTEMPT, RETRY_CREATED)
    case Dlq => (ORIGINAL_CREATED, MOVED_TO_DLQ)
  }

  // ---------- values and digests ----------

  predicate Unknown(e: Env, v: Value) {
    match v
    case Null => true
    case Int(_) => true
    case Str(s) => s == "CURRENT_TIMESTAMP" || !e.parses(s)
  }

  predicate HasUnknown(e: Env, s: Source, row: Row) {
    var (first, second) := Dates(s);
    |row| > second && (Unknown(e, row[first]) || Unknown(e, row[second]))
  }

  predicate TypedValue(v: Value, column: Column) {
    match v
    case Null => column.nullable
    case Int(_) => column.kind.Integer?
    case Str(_) => column.kind.Text?
  }

  predicate TypedRow(s: Source, row: Row, original: bool) {
    var columns := Columns(s, original);
    |row| == |columns| && forall i :: 0 <= i < |row| ==> TypedValue(row[i], columns[i])
  }

  predicate TypedRows(s: Source, rows: seq<Row>, original: bool) {
    forall row :: row in rows ==> TypedRow(s, row, original)
  }

  function IdOf(row: Row): int {
    if row != [] && row[0].Int? then row[0].n else 0
  }

  function InsertSorted(row: Row, sorted: seq<Row>): seq<Row> {
    if sorted == [] then [row]
    else if IdOf(row) <= IdOf(sorted[0]) then [row] + sorted
    else [sorted[0]] + InsertSorted(row, sorted[1..])
  }

  function SortById(rows: seq<Row>): seq<Row> {
    if rows == [] then [] else InsertSorted(rows[0], SortById(rows[1..]))
  }

  function ValueJson(v: Value): JsonText.Json {
    match v
    case Null => JsonText.JNull
    case Int(n) => JsonText.JInt(n)
    case Str(s) => JsonText.JStr(s)
  }

  function RowJson(row: Row): JsonText.Json {
    JsonText.JArr(seq(|row|, i requires 0 <= i < |row| => ValueJson(row[i])))
  }

  function RowsJson(rows: seq<Row>): JsonText.Json {
    JsonText.JArr(seq(|rows|, i requires 0 <= i < |rows| => RowJson(rows[i])))
  }

  function Digest(e: Env, rows: seq<Row>): string {
    e.hash(JsonText.Text(RowsJson(SortById(rows))))
  }

  // Everything in the manifest except the two digests, keys in sorted order.
  function Context(m: Manifest): JsonText.Json {
    JsonText.JObj([
      JsonText.Field("archive_id", JsonText.JStr(m.archiveId)),
      JsonText.Field("dlq_count", JsonText.JInt(m.sides.dlq.count)),
      JsonText.Field("dlq_high_water", JsonText.JInt(m.sides.dlq.highWater)),
      JsonText.Field("format_version", JsonText.JInt(m.formatVersion)),
      JsonText.Field("owner", JsonText.JStr(m.owner)),
      JsonText.Field("retry_count", JsonText.JInt(m.sides.retry.count)),
      JsonText.Field("retry_high_water", JsonText.JInt(m.sides.retry.highWater)),
      JsonText.Field("source_revision", JsonText.JStr(m.sourceRevision)),
      JsonText.Field("source_schema", JsonText.JStr(m.sourceSchema)),
      JsonText.Field("target_revision", JsonText.JStr(m.targetRevision))])
  }

  function BatchDigest(e: Env, m: Manifest, s: Source, rows: seq<Row>): string {
    BOUND + e.hash(JsonText.Text(JsonText.JArr([
      Context(m), JsonText.JStr(SourceName(s)), JsonText.JStr(Digest(e, rows))])))
  }

  function ColumnJson(c: Column): JsonText.Json {
    JsonText.JArr([
      JsonText.JStr(c.name),
      JsonText.JStr(if c.kind.Integer? then "integer" else "text"),
      JsonText.JBool(c.nullable)])
  }

  function ColumnsJson(columns: seq<Column>): JsonText.Json {
    JsonText.JArr(seq(|columns|, i requires 0 <= i < |columns| => ColumnJson(columns[i])))
  }

  function SchemaJson(original: bool): JsonText.Json {
    var sources := [Retry, Dlq];
    JsonText.JObj(seq(2, i requires 0 <= i < 2 =>
      JsonText.Field(SourceName(sources[i]), ColumnsJson(Columns(sources[i], original)))))
  }

  function SchemaText(original: bool): string {
    JsonText.Text(SchemaJson(original))
  }

  function ControlManifest(e: Env): Manifest {
    var side := Side(0, Digest(e, []), 0);
    Manifest(CONTROL_ID, OWNER, 1, HEAD, PREVIOUS, SchemaText(true), Pair(side, side))
  }

  // ---------- sequences ----------

  lemma {:induction false} LeastExists(s: set<int>)
    requires s != {}
    ensures exists m :: m in s && forall x :: x in s ==> m <= x
  {
    assert (forall x :: x !in s) ==> s == {};
    var x :| x in s;
    var rest := s - {x};
    if |rest| == 0 {
      assert forall y :: y in s ==> y == x || y in rest;
    } else {
      LeastExists(rest);
      var m :| m in rest && forall y :: y in rest ==> m <= y;
      assert forall y :: y in s ==> y == x || y in rest;
      assert (if x < m then x else m) in s;
    }
  }

  function Least(s: set<int>): (m: int)
    requires s != {}
    ensures m in s && forall x :: x in s ==> m <= x
  {
    LeastExists(s);
    var m :| m in s && forall x :: x in s ==> m <= x;
    m
  }

  function Ordered(s: set<int>): (ids: seq<int>)
    ensures forall i :: 0 <= i < |ids| ==> ids[i] in s
  {
    if s == {} then [] else [Least(s)] + Ordered(s - {Least(s)})
  }

  lemma {:induction false} OrderedMembers(s: set<int>)
    ensures forall x :: x in Ordered(s) <==> x in s
  {
    if s != {} {
      OrderedMembers(s - {Least(s)});
    }
  }

  lemma {:induction false} OrderedIncreases(s: set<int>)
    ensures forall i, j :: 0 <= i < j < |Ordered(s)| ==> Ordered(s)[i] < Ordered(s)[j]
  {
    if s != {} {
      var rest := Ordered(s - {Least(s)});
      OrderedIncreases(s - {Least(s)});
      OrderedMembers(s - {Least(s)});
      forall k | 0 <= k < |rest| ensures Least(s) < rest[k] {
        assert rest[k] in rest;
      }
    }
  }

  // COALESCE(MAX(id), 0)
  function MaxId(t: Table): int {
    var ids := Ordered(t.Keys);
    if ids == [] then 0 else ids[|ids| - 1]
  }

  // The value the sequence is known to have issued, 0 when there is none.
  function Issued(q: Sequence): int {
    match q
    case Sqlite(None) => 0
    case Sqlite(Some(v)) => v
    case Postgres(last, _) => last
  }

  function HighWater(q: Sequence, t: Table): int {
    Backoff.Max(MaxId(t), Issued(q))
  }

  function Advance(q: Sequence, t: Table, highWater: int): Sequence {
    var value := Backoff.Max(HighWater(q, t), highWater);
    match q
    case Sqlite(None) => Sqlite(Some(value))
    case Sqlite(Some(v)) => Sqlite(Some(Backoff.Max(v, value)))
    case Postgres(_, _) => if value != 0 then Postgres(value, true) else q
  }

  // The id the table's own sequence gives to the next inserted row.
  function NextId(q: Sequence, t: Table): int {
    match q
    case Sqlite(_) => HighWater(q, t) + 1
    case Postgres(last, called) => if called then last + 1 else last
  }

  // ---------- reading the archive ----------

  function RowsFor(archive: seq<Archived>, archiveId: string): seq<Archived> {
    Filter((r: Archived) => r.archiveId == archiveId, archive)
  }

  function Raws(rows: seq<Archived>): seq<Row> {
    seq(|rows|, i requires 0 <= i < |rows| => rows[i].raw)
  }

  function Ids(rows: seq<Archived>): seq<int> {
    seq(|rows|, i requires 0 <= i < |rows| => IdOf(rows[i].raw))
  }

  function MaxOf(ids: seq<int>): int {
    if ids == [] then 0
    else if |ids| == 1 then ids[0]
    else Backoff.Max(ids[0], MaxOf(ids[1..]))
  }

  // All manifests except the permanent control marker.
  function Pending(manifests: seq<Manifest>): seq<Manifest> {
    Filter((m: Manifest) => m.archiveId != CONTROL_ID, manifests)
  }

  function ArchiveIds(manifests: seq<Manifest>): seq<string> {
    seq(|manifests|, i requires 0 <= i < |manifests| => manifests[i].archiveId)
  }

  predicate NoOrphans(archive: seq<Archived>, pending: seq<Manifest>) {
    forall r :: r in archive ==> r.archiveId in ArchiveIds(pending)
  }

  predicate SupportedHeader(m: Manifest) {
    && m.owner == OWNER
    && m.formatVersion == 1
    && (m.sourceRevision == HEAD || m.sourceRevision == PREVIOUS)
    && m.targetRevision == PREVIOUS
    && (m.sourceSchema == SchemaText(true) || (m.sourceRevision == PREVIOUS && m.sourceSchema == SchemaText(false)))
  }

  // The only thing a supported source_schema text leaves open.
  predicate RecordedNullable(m: Manifest) {
    m.sourceSchema == SchemaText(true)
  }

  predicate IntactSide(e: Env, m: Manifest, s: Source, rows: seq<Archived>) {
    && |rows| == m.sides.At(s).count
    && BatchDigest(e, m, s, Raws(rows)) == m.sides.At(s).digest
    && (forall r :: r in rows ==> Digest(e, [r.raw]) == r.rowDigest)
    && MaxOf(Ids(rows)) <= m.sides.At(s).highWater
  }

  function CheckSide(e: Env, m: Manifest, s: Source, rows: seq<Archived>): Outcome<()> {
    if !TypedRows(s, Raws(rows), RecordedNullable(m)) then Refused(IncompatibleValues)
    else if !IntactSide(e, m, s, rows) then Refused(IntegrityFailed)
    else Ok(())
  }

  datatype Batch = Batch(manifest: Manifest, rows: Pair<seq<Archived>>)

  function BatchOf(db: Db, m: Manifest): Batch {
    Batch(m, Pair(RowsFor(db.archive.retry, m.archiveId), RowsFor(db.archive.dlq, m.archiveId)))
  }

  function CheckBatch(e: Env, b: Batch): Outcome<Batch> {
    if !SupportedHeader(b.manifest) then Refused(UnsupportedManifest) else
      var _ :- CheckSide(e, b.manifest, Retry, b.rows.retry);
      var _ :- CheckSide(e, b.manifest, Dlq, b.rows.dlq);
      Ok(b)
  }

  function CheckBatches(e: Env, db: Db, pending: seq<Manifest>): Outcome<seq<Batch>> {
    if pending == [] then Ok([]) else
      var first :- CheckBatch(e, BatchOf(db, pending[0]));
      var rest :- CheckBatches(e, db, pending[1..]);
      Ok([first] + rest)
  }

  // Every archived row of one source, batch by batch.
  function AllRows(batches: seq<Batch>, s: Source): seq<Archived> {
    if batches == [] then [] else batches[0].rows.At(s) + AllRows(batches[1..], s)
  }

  function CheckIdentities(db: Db, batches: seq<Batch>, s: Source): Outcome<()> {
    var ids := Ids(AllRows(batches, s));
    if !Distinct(ids) then Refused(RepeatedIdentities)
    else if exists id :: id in ids && id in db.live.At(s) then Refused(IdentityCollision)
    else Ok(())
  }

  function ReadArchive(e: Env, db: Db): Outcome<seq<Batch>> {
    if db.manifests.None? then Ok([]) else
      var pending := Pending(db.manifests.value);
      if !NoOrphans(db.archive.retry, pending) || !NoOrphans(db.archive.dlq, pending) then Refused(OrphanRows) else
        var batches :- CheckBatches(e, db, pending);
        var _ :- CheckIdentities(db, batches, Retry);
        var _ :- CheckIdentities(db, batches, Dlq);
        Ok(batches)
  }

  // The marker row is looked up by its id and must be exactly the v1 marker.
  function CheckMarker(e: Env, db: Db): Outcome<()> {
    if db.manifests.Some? && ControlManifest(e) !in db.manifests.value then Refused(NoOwnerMarker)
    else Ok(())
  }

  // ---------- capture ----------

  // SELECT * ORDER BY id
  function SelectOrdered(t: Table): seq<Row> {
    var ids := Ordered(t.Keys);
    seq(|ids|, i requires 0 <= i < |ids| => t[ids[i]])
  }

  // The rows with a date nobody can read, in id order.
  function Captured(e: Env, s: Source, t: Table): seq<Row> {
    Filter((row: Row) => HasUnknown(e, s, row), SelectOrdered(t))
  }

  function ArchiveRows(e: Env, archiveId: string, rows: seq<Row>): seq<Archived> {
    seq(|rows|, i requires 0 <= i < |rows| => Archived(archiveId, rows[i], Digest(e, [rows[i]])))
  }

  function CopyRows(e: Env, archive: seq<Archived>, archiveId: string, rows: seq<Row>): Outcome<seq<Archived>> {
    var copied := archive + ArchiveRows(e, archiveId, rows);
    var back := Raws(RowsFor(copied, archiveId));
    if rows != [] && (|back| != |rows| || Digest(e, back) != Digest(e, rows)) then Refused(CopyFailed)
    else Ok(copied)
  }

  // DELETE by id, one row at a time, each expected to hit exactly one row.
  function DeleteEach(t: Table, rows: seq<Row>): Outcome<Table> {
    if rows == [] then Ok(t)
    else if IdOf(rows[0]) !in t then Refused(OwnershipChanged)
    else DeleteEach(t - {IdOf(rows[0])}, rows[1..])
  }

  function SchemaAt(db: Db, revision: string): bool {
    if revision == PREVIOUS then db.dlqNullable else true
  }

  // The manifest before its digests are bound to the rest of it.
  function UnboundManifest(e: Env, db: Db, revision: string, archiveId: string, rows: Pair<seq<Row>>): Manifest {
    Manifest(archiveId, OWNER, 1, revision, PREVIOUS, SchemaText(SchemaAt(db, revision)),
      Pair(
        Side(|rows.retry|, Digest(e, rows.retry), HighWater(db.sequence.retry, db.live.retry)),
        Side(|rows.dlq|, Digest(e, rows.dlq), HighWater(db.sequence.dlq, db.live.dlq))))
  }

  function BoundManifest(e: Env, m: Manifest, rows: Pair<seq<Row>>): Manifest {
    m.(sides := Pair(
      m.sides.retry.(digest := BatchDigest(e, m, Retry, rows.retry)),
      m.sides.dlq.(digest := BatchDigest(e, m, Dlq, rows.dlq))))
  }

  function RemoveCaptured(db: Db, s: Source, rows: seq<Row>, highWater: int): Outcome<Db> {
    var t :- DeleteEach(db.live.At(s), rows);
    Ok(db.(live := db.live.With(s, t), sequence := db.sequence.With(s, Advance(db.sequence.At(s), t, highWater))))
  }

  // The archive tables with the marker, the copied rows and the new manifest.
  function StoreBatch(e: Env, db: Db, m: Manifest, rows: Pair<seq<Row>>): Outcome<Db> {
    var manifests := if db.manifests.None? then [ControlManifest(e)] else db.manifests.value;
    var retryCopy :- CopyRows(e, db.archive.retry, m.archiveId, rows.retry);
    var dlqCopy :- CopyRows(e, db.archive.dlq, m.archiveId, rows.dlq);
    if m.archiveId in ArchiveIds(manifests) then Refused(DuplicateKey) else
      Ok(db.(archive := Pair(retryCopy, dlqCopy), manifests := Some(manifests + [BoundManifest(e, m, rows)])))
  }

  // The writing half of capture.
  function StoreSpec(e: Env, db: Db, revision: string, archiveId: string, rows: Pair<seq<Row>>): Outcome<Db> {
    var m := UnboundManifest(e, db, revision, archiveId, rows);
    var stored :- StoreBatch(e, db, m, rows);
    var without :- RemoveCaptured(stored, Retry, rows.retry, m.sides.retry.highWater);
    RemoveCaptured(without, Dlq, rows.dlq, m.sides.dlq.highWater)
  }

  // The schema of the two sources at a revision: only the older one may have
  // original_created_at in either nullability.
  function CheckSources(db: Db, revision: string): Outcome<()> {
    if db.dlqNullable == SchemaAt(db, revision) then Ok(()) else Refused(UnexpectedSchema)
  }

  // Everything capture looks at before its first write.
  function CaptureGuard(e: Env, db: Db, revision: string): Outcome<()> {
    var _ :- CheckSources(db, revision);
    var _ :- CheckMarker(e, db);
    var _ :- ReadArchive(e, db);
    if !TypedRows(Retry, SelectOrdered(db.live.retry), SchemaAt(db, revision)) ||
       !TypedRows(Dlq, SelectOrdered(db.live.dlq), SchemaAt(db, revision)) then
      Refused(IncompatibleValues)
    else
      Ok(())
  }

  function Capture(e: Env, db: Db, revision: string, archiveId: string): Outcome<Db> {
    var _ :- CaptureGuard(e, db, revision);
    var rows := Pair(Captured(e, Retry, db.live.retry), Captured(e, Dlq, db.live.dlq));
    if rows == Pair([], []) then Ok(db) else StoreSpec(e, db, revision, archiveId, rows)
  }

  // ---------- restore ----------

  // INSERT with explicit ids; the primary key refuses an occupied one. The
  // sequence is left to Advance, which takes the inserted ids into account.
  function InsertEach(t: Table, rows: seq<Row>): Outcome<Table>
    decreases rows
  {
    if rows == [] then Ok(t)
    else if IdOf(rows[0]) in t then Refused(DuplicateKey)
    else InsertEach(t[IdOf(rows[0]) := rows[0]], rows[1..])
  }

  predicate Storable(s: Source, row: Row, original: bool) {
    forall i :: 0 <= i < |row| && i < |Columns(s, original)| && row[i].Null? ==> Columns(s, original)[i].nullable
  }

  function SelectByIds(t: Table, rows: seq<Row>): seq<Row> {
    if rows == [] then []
    else (if IdOf(rows[0]) in t then [t[IdOf(rows[0])]] else []) + SelectByIds(t, rows[1..])
  }

  function RestoreSide(e: Env, db: Db, b: Batch, s: Source): Outcome<Db> {
    var rows := Raws(b.rows.At(s));
    if exists row :: row in rows && !Storable(s, row, db.dlqNullable) then Refused(NullViolation) else
      var t :- InsertEach(db.live.At(s), rows);
      if rows != [] && BatchDigest(e, b.manifest, s, SelectByIds(t, rows)) != b.manifest.sides.At(s).digest then
        Refused(RestorationFailed)
      else
        var q := Advance(db.sequence.At(s), t, b.manifest.sides.At(s).highWater);
        Ok(db.(live := db.live.With(s, t), sequence := db.sequence.With(s, q)))
  }

  function RestoreBatches(e: Env, db: Db, batches: seq<Batch>): Outcome<Db>
    decreases batches
  {
    if batches == [] then Ok(db) else
      var retried :- RestoreSide(e, db, batches[0], Retry);
      var both :- RestoreSide(e, retried, batches[0], Dlq);
      RestoreBatches(e, both, batches[1..])
  }

  function RowsExcept(archive: seq<Archived>, archiveId: string): seq<Archived> {
    Filter((r: Archived) => r.archiveId != archiveId, archive)
  }

  function ManifestsExcept(manifests: seq<Manifest>, archiveId: string): seq<Manifest> {
    Filter((m: Manifest) => m.archiveId != archiveId, manifests)
  }

  function Acknowledge(db: Db, batches: seq<Batch>): Db
    requires db.manifests.Some?
    decreases batches
  {
    if batches == [] then db else
      var id := batches[0].manifest.archiveId;
      Acknowledge(
        db.(archive := Pair(RowsExcept(db.archive.retry, id), RowsExcept(db.archive.dlq, id)),
            manifests := Some(ManifestsExcept(db.manifests.value, id))),
        batches[1..])
  }

  function Restore(e: Env, db: Db): Outcome<Db> {
    var _ :- CheckSources(db, HEAD);
    var _ :- CheckMarker(e, db);
    var batches :- ReadArchive(e, db);
    if batches == [] then Ok(db) else
      var restored :- RestoreBatches(e, db, batches);
      if restored.manifests.None? then Ok(restored) else Ok(Acknowledge(restored, batches))
  }
}

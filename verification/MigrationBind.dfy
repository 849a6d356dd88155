/**
 The same migration as it is written: statements against one database, each
 method proved to compute its specification function on the state before it.
 */
module MigrationBind {
  import opened Results
  import Backoff
  import opened RetryArchive
  import opened ArchiveReading
  import opened ArchiveCapture
  import opened ReadingMeaning
  import opened TimestampMigration

  // The outcome a specification asks for. After a refusal the transaction is
  // rolled back, so the state it leaves behind is of no interest here.
  ghost predicate Done(r: Outcome<()>, spec: Outcome<Db>, after: Db) {
    match spec
    case Ok(db) => r == Ok(()) && after == db
    case Refused(why) => r == Refused(why)
  }

  // The batches read so far, followed by what reading the rest gives.
  function Join(read: seq<Batch>, rest: Outcome<seq<Batch>>): Outcome<seq<Batch>> {
    match rest
    case Ok(batches) => Ok(read + batches)
    case Refused(why) => Refused(why)
  }

  lemma Joined(read: seq<Batch>, rest: Outcome<seq<Batch>>)
    ensures Join([], rest) == rest
  {
    if rest.Ok? {
      assert [] + rest.value == rest.value;
    }
  }

  lemma Joined2(read: seq<Batch>, b: Batch, rest: Outcome<seq<Batch>>)
    ensures Join(read, Join([b], rest)) == Join(read + [b], rest)
  {
    if rest.Ok? {
      assert read + ([b] + rest.value) == read + [b] + rest.value;
    }
  }

  lemma SamePair<T>(p: Pair<T>, s: Source)
    ensures p.With(s, p.At(s)) == p
  {
  }

  class Bind {
    const env: Env
    var revision: string
    var dlqNullable: bool
    var literalDefaults: bool
    var queue: Queue
    var live: Pair<Table>
    var sequence: Pair<Sequence>
    var archive: Pair<seq<Archived>>
    var manifests: Option<seq<Manifest>>

    constructor (env: Env, db: Db)
      ensures this.env == env && State() == db
    {
      this.env := env;
      revision, dlqNullable, literalDefaults := db.revision, db.dlqNullable, db.literalDefaults;
      queue, live, sequence := db.queue, db.live, db.sequence;
      archive, manifests := db.archive, db.manifests;
    }

    function State(): Db
      reads this
    {
      Db(revision, dlqNullable, literalDefaults, queue, live, sequence, archive, manifests)
    }

    method ReadBatches(pending: seq<Manifest>) returns (r: Outcome<seq<Batch>>)
      ensures r == CheckBatches(env, State(), pending)
    {
      var batches: seq<Batch> := [];
      assert pending[0..] == pending;
      Joined([], CheckBatches(env, State(), pending));
      for i := 0 to |pending|
        invariant CheckBatches(env, State(), pending) == Join(batches, CheckBatches(env, State(), pending[i..]))
      {
        assert pending[i..][0] == pending[i] && pending[i..][1..] == pending[i + 1..];
        var b := CheckBatch(env, BatchOf(State(), pending[i]));
        if b.Refused? {
          return Refused(b.why);
        }
        Joined2(batches, b.value, CheckBatches(env, State(), pending[i + 1..]));
        batches := batches + [b.value];
      }
      assert batches + [] == batches;
      return Ok(batches);
    }

    method ReadArchive() returns (r: Outcome<seq<Batch>>)
      ensures r == RetryArchive.ReadArchive(env, State())
    {
      if manifests.None? {
        return Ok([]);
      }
      var pending := Pending(manifests.value);
      if !NoOrphans(archive.retry, pending) || !NoOrphans(archive.dlq, pending) {
        return Refused(OrphanRows);
      }
      r := ReadBatches(pending);
      if r.Refused? {
        return;
      }
      var retry := CheckIdentities(State(), r.value, Retry);
      if retry.Refused? {
        return Refused(retry.why);
      }
      var dlq := CheckIdentities(State(), r.value, Dlq);
      if dlq.Refused? {
        return Refused(dlq.why);
      }
    }

    method Advance(s: Source, highWater: int)
      modifies this`sequence
      ensures sequence == old(sequence).With(s, RetryArchive.Advance(old(sequence.At(s)), live.At(s), highWater))
    {
      var value := Backoff.Max(HighWater(sequence.At(s), live.At(s)), highWater);
      match sequence.At(s) {
        case Sqlite(row) =>
          if row.None? {
            sequence := sequence.With(s, Sqlite(Some(value)));
          }
          sequence := sequence.With(s, Sqlite(Some(Backoff.Max(sequence.At(s).seqRow.value, value))));
        case Postgres(_, _) =>
          if value != 0 {
            sequence := sequence.With(s, Postgres(value, true));
          }
      }
    }

    method InsertArchived(s: Source, archiveId: string, rows: seq<Row>)
      modifies this`archive
      ensures archive == old(archive).With(s, old(archive.At(s)) + ArchiveRows(env, archiveId, rows))
    {
      var added := ArchiveRows(env, archiveId, rows);
      assert archive.At(s) + added[..0] == archive.At(s);
      SamePair(archive, s);
      for i := 0 to |rows|
        invariant archive == old(archive).With(s, old(archive.At(s)) + added[..i])
      {
        assert added[..i + 1] == added[..i] + [added[i]];
        assert old(archive.At(s)) + added[..i + 1] == old(archive.At(s)) + added[..i] + [added[i]];
        archive := archive.With(s, archive.At(s) + [Archived(archiveId, rows[i], Digest(env, [rows[i]]))]);
      }
      assert added[..|rows|] == added;
    }

    method CopyToArchive(s: Source, archiveId: string, rows: seq<Row>) returns (r: Outcome<()>)
      modifies this`archive
      ensures CopyRows(env, old(archive.At(s)), archiveId, rows).Ok? ==>
        r == Ok(()) && archive == old(archive).With(s, CopyRows(env, old(archive.At(s)), archiveId, rows).value)
      ensures CopyRows(env, old(archive.At(s)), archiveId, rows).Refused? ==> r == Refused(CopyFailed)
    {
      if rows == [] {
        assert archive.At(s) + ArchiveRows(env, archiveId, rows) == archive.At(s);
        return Ok(());
      }
      InsertArchived(s, archiveId, rows);
      var copied := Raws(RowsFor(archive.At(s), archiveId));
      if |copied| != |rows| || Digest(env, copied) != Digest(env, rows) {
        return Refused(CopyFailed);
      }
      return Ok(());
    }

    method DeleteRows(s: Source, rows: seq<Row>) returns (r: Outcome<()>)
      modifies this`live
      ensures DeleteEach(old(live.At(s)), rows).Ok? ==>
        r == Ok(()) && live == old(live).With(s, DeleteEach(old(live.At(s)), rows).value)
      ensures DeleteEach(old(live.At(s)), rows).Refused? ==> r == Refused(DeleteEach(old(live.At(s)), rows).why)
    {
      for i := 0 to |rows|
        invariant DeleteEach(live.At(s), rows[i..]) == DeleteEach(old(live.At(s)), rows)
        invariant live == old(live).With(s, live.At(s))
      {
        assert rows[i..][0] == rows[i] && rows[i..][1..] == rows[i + 1..];
        var rowcount := if IdOf(rows[i]) in live.At(s) then 1 else 0;
        if rowcount != 1 {
          assert DeleteEach(live.At(s), rows[i..]) == Refused(OwnershipChanged);
          return Refused(OwnershipChanged);
        }
        live := live.With(s, live.At(s) - {IdOf(rows[i])});
      }
      return Ok(());
    }

    method GuardCapture(sourceRevision: string) returns (r: Outcome<()>)
      ensures r == CaptureGuard(env, State(), sourceRevision)
    {
      r := CheckSources(State(), sourceRevision);
      if r.Refused? {
        return;
      }
      r := CheckMarker(env, State());
      if r.Refused? {
        return;
      }
      var readable := ReadArchive();
      if readable.Refused? {
        return Refused(readable.why);
      }
      var original := SchemaAt(State(), sourceRevision);
      if !TypedRows(Retry, SelectOrdered(live.retry), original) || !TypedRows(Dlq, SelectOrdered(live.dlq), original) {
        return Refused(IncompatibleValues);
      }
    }

    method Capture(sourceRevision: string, archiveId: string) returns (r: Outcome<()>)
      modifies this
      ensures Done(r, RetryArchive.Capture(env, old(State()), sourceRevision, archiveId), State())
      ensures CaptureGuard(env, old(State()), sourceRevision).Refused? ==> State() == old(State())
    {
      r := GuardCapture(sourceRevision);
      if r.Refused? {
        return;
      }
      var rows := Pair(Captured(env, Retry, live.retry), Captured(env, Dlq, live.dlq));
      if rows == Pair([], []) {
        return;
      }
      r := StoreCaptured(sourceRevision, archiveId, rows);
    }

    method RemoveRows(s: Source, rows: seq<Row>, highWater: int) returns (r: Outcome<()>)
      modifies this`live, this`sequence
      ensures Done(r, RemoveCaptured(old(State()), s, rows, highWater), State())
    {
      r := DeleteRows(s, rows);
      if r.Refused? {
        return;
      }
      Advance(s, highWater);
    }

    method ArchiveBatch(m: Manifest, rows: Pair<seq<Row>>) returns (r: Outcome<()>)
      modifies this`archive, this`manifests
      ensures Done(r, StoreBatch(env, old(State()), m, rows), State())
    {
      if manifests.None? {
        manifests := Some([ControlManifest(env)]);
      }
      r := CopyToArchive(Retry, m.archiveId, rows.retry);
      if r.Refused? {
        return;
      }
      r := CopyToArchive(Dlq, m.archiveId, rows.dlq);
      if r.Refused? {
        return;
      }
      if m.archiveId in ArchiveIds(manifests.value) {
        return Refused(DuplicateKey);
      }
      manifests := Some(manifests.value + [BoundManifest(env, m, rows)]);
    }

    // The writing half of capture.
    method StoreCaptured(sourceRevision: string, archiveId: string, rows: Pair<seq<Row>>) returns (r: Outcome<()>)
      modifies this
      ensures Done(r, StoreSpec(env, old(State()), sourceRevision, archiveId, rows), State())
    {
      var m := UnboundManifest(env, State(), sourceRevision, archiveId, rows);
      r := ArchiveBatch(m, rows);
      if r.Refused? {
        return;
      }
      r := RemoveRows(Retry, rows.retry, m.sides.retry.highWater);
      if r.Refused? {
        return;
      }
      r := RemoveRows(Dlq, rows.dlq, m.sides.dlq.highWater);
    }

    method InsertRows(s: Source, rows: seq<Row>) returns (r: Outcome<()>)
      modifies this`live
      ensures InsertEach(old(live.At(s)), rows).Ok? ==>
        r == Ok(()) && live == old(live).With(s, InsertEach(old(live.At(s)), rows).value)
      ensures InsertEach(old(live.At(s)), rows).Refused? ==> r == Refused(InsertEach(old(live.At(s)), rows).why)
    {
      for i := 0 to |rows|
        invariant InsertEach(live.At(s), rows[i..]) == InsertEach(old(live.At(s)), rows)
        invariant live == old(live).With(s, live.At(s))
      {
        assert rows[i..][0] == rows[i] && rows[i..][1..] == rows[i + 1..];
        if IdOf(rows[i]) in live.At(s) {
          assert InsertEach(live.At(s), rows[i..]) == Refused(DuplicateKey);
          return Refused(DuplicateKey);
        }
        live := live.With(s, live.At(s)[IdOf(rows[i]) := rows[i]]);
      }
      return Ok(());
    }

    method RestoreSource(b: Batch, s: Source) returns (r: Outcome<()>)
      modifies this`live, this`sequence
      ensures Done(r, RestoreSide(env, old(State()), b, s), State())
    {
      var rows := Raws(b.rows.At(s));
      if exists row :: row in rows && !Storable(s, row, dlqNullable) {
        return Refused(NullViolation);
      }
      r := InsertRows(s, rows);
      if r.Refused? {
        return;
      }
      if rows != [] {
        var restored := SelectByIds(live.At(s), rows);
        if BatchDigest(env, b.manifest, s, restored) != b.manifest.sides.At(s).digest {
          return Refused(RestorationFailed);
        }
      }
      Advance(s, b.manifest.sides.At(s).highWater);
    }

    method Restore() returns (r: Outcome<()>)
      modifies this
      ensures Done(r, RetryArchive.Restore(env, old(State())), State())
    {
      r := CheckSources(State(), HEAD);
      if r.Refused? {
        return;
      }
      r := CheckMarker(env, State());
      if r.Refused? {
        return;
      }
      var readable := ReadArchive();
      if readable.Refused? {
        return Refused(readable.why);
      }
      var batches := readable.value;
      if batches == [] {
        return;
      }
      r := RestoreAll(batches);
      if r.Ok? && manifests.Some? {
        AcknowledgeAll(batches);
      }
    }

    method RestoreAll(batches: seq<Batch>) returns (r: Outcome<()>)
      modifies this`live, this`sequence
      ensures Done(r, RestoreBatches(env, old(State()), batches), State())
    {
      for i := 0 to |batches|
        invariant RestoreBatches(env, State(), batches[i..]) == RestoreBatches(env, old(State()), batches)
      {
        assert batches[i..][0] == batches[i] && batches[i..][1..] == batches[i + 1..];
        r := RestoreSource(batches[i], Retry);
        if r.Refused? {
          return;
        }
        r := RestoreSource(batches[i], Dlq);
        if r.Refused? {
          return;
        }
      }
      return Ok(());
    }

    method AcknowledgeAll(batches: seq<Batch>)
      requires manifests.Some?
      modifies this`archive, this`manifests
      ensures manifests.Some? && State() == Acknowledge(old(State()), batches)
    {
      for i := 0 to |batches|
        invariant manifests.Some?
        invariant Acknowledge(State(), batches[i..]) == Acknowledge(old(State()), batches)
      {
        assert batches[i..][0] == batches[i] && batches[i..][1..] == batches[i + 1..];
        var id := batches[i].manifest.archiveId;
        archive := Pair(RowsExcept(archive.retry, id), archive.dlq);
        archive := Pair(archive.retry, RowsExcept(archive.dlq, id));
        manifests := Some(ManifestsExcept(manifests.value, id));
      }
    }

    // UPDATE .. WHERE column = target, on one column of one table.
    method RepairDates(s: Source, column: nat, target: Value, repairedAt: string)
      modifies this`live
      ensures live == old(live).With(s, RepairColumn(old(live.At(s)), column, target, Str(repairedAt)))
    {
      live := live.With(s, RepairColumn(live.At(s), column, target, Str(repairedAt)));
    }

    // The UPDATE statements of upgrade, in their order.
    method Repair(repairedAt: string)
      modifies this`queue, this`live
      ensures State() == TimestampMigration.Repair(old(State()), repairedAt)
    {
      var requests := queue.requests.(rows := RepairRows(queue.requests.rows, Str(repairedAt)));
      queue := queue.(requests := requests);
      var history := queue.history.(rows := RepairRows(queue.history.rows, Str(repairedAt)));
      queue := queue.(history := history);
      RepairDates(Retry, RETRY_CREATED, LITERAL, repairedAt);
      RepairDates(Dlq, MOVED_TO_DLQ, LITERAL, repairedAt);
      RepairDates(Dlq, ORIGINAL_CREATED, LITERAL, repairedAt);
      RepairDates(Dlq, MOVED_TO_DLQ, Null, repairedAt);
    }

    // The row of sqlite_sequence that a rebuild has left, with the mark taken before
    // put back as a lower bound.
    method KeepHighWater(left: Option<int>, previous: int) returns (q: Sequence)
      ensures q == Sqlite(Some(Backoff.Max(if left.Some? then left.value else previous, previous)))
    {
      q := Sqlite(left);
      if q.seqRow.None? {
        q := Sqlite(Some(previous));
      }
      q := Sqlite(Some(Backoff.Max(q.seqRow.value, previous)));
    }

    // reset is what each SQLite rebuild leaves in sqlite_sequence.
    method AlterDefaults(executable: bool, reset: Resets) returns (r: Outcome<()>)
      modifies this`sequence, this`dlqNullable, this`literalDefaults, this`queue
      ensures Done(r, TimestampMigration.AlterDefaults(old(State()), executable, reset), State())
    {
      if !executable && exists id :: id in live.dlq && MissingOriginal(live.dlq[id]) {
        return Refused(NullViolation);
      }
      literalDefaults, dlqNullable := !executable, executable;
      KeepQueueMarks(reset);
      KeepSourceMarks(reset);
      return Ok(());
    }

    method KeepQueueMarks(reset: Resets)
      modifies this`queue
      ensures queue == RebuiltQueue(old(queue), reset)
    {
      if queue.requests.sequence.Sqlite? {
        var q := KeepHighWater(reset.requests, Issued(queue.requests.sequence));
        queue := queue.(requests := queue.requests.(sequence := q));
      }
      if queue.history.sequence.Sqlite? {
        var q := KeepHighWater(reset.history, Issued(queue.history.sequence));
        queue := queue.(history := queue.history.(sequence := q));
      }
    }

    method KeepSourceMarks(reset: Resets)
      modifies this`sequence
      ensures sequence == Pair(Rebuilt(old(sequence.retry), reset.retry), Rebuilt(old(sequence.dlq), reset.dlq))
    {
      if sequence.retry.Sqlite? {
        var q := KeepHighWater(reset.retry, Issued(sequence.retry));
        sequence := sequence.With(Retry, q);
      }
      if sequence.dlq.Sqlite? {
        var q := KeepHighWater(reset.dlq, Issued(sequence.dlq));
        sequence := sequence.With(Dlq, q);
      }
    }

    method Upgrade(archiveId: string, repairedAt: string, reset: Resets) returns (r: Outcome<()>)
      modifies this
      ensures Done(r, TimestampMigration.Upgrade(env, old(State()), archiveId, repairedAt, reset), State())
      ensures CaptureGuard(env, old(State()), PREVIOUS).Refused? ==> State() == old(State())
    {
      r := Capture(PREVIOUS, archiveId);
      if r.Refused? {
        return;
      }
      Repair(repairedAt);
      r := AlterDefaults(true, reset);
      if r.Refused? {
        return;
      }
      r := Restore();
      if r.Ok? {
        revision := HEAD;
      }
    }

    method Downgrade(archiveId: string, reset: Resets) returns (r: Outcome<()>)
      modifies this
      ensures Done(r, TimestampMigration.Downgrade(env, old(State()), archiveId, reset), State())
      ensures CaptureGuard(env, old(State()), HEAD).Refused? ==> State() == old(State())
    {
      r := Capture(HEAD, archiveId);
      if r.Refused? {
        return;
      }
      r := AlterDefaults(false, reset);
      if r.Ok? {
        revision := PREVIOUS;
      }
    }

    // One migration inside its transaction. A raised step rolls the tables back;
    // PostgreSQL sequences stay where they were moved to.
    method RunMigrations(up: bool, archiveId: string, repairedAt: string, reset: Resets) returns (r: Outcome<()>)
      requires Shaped(State()) && FreshId(State(), archiveId)
      modifies this
      ensures r.Ok? <==> CapturableAt(env, old(State()), if up then "f6a7b8c9d0e1" else "a7b8c9d0e1f2")
      ensures r.Ok? && up ==> TimestampMigration.Upgrade(env, old(State()), archiveId, repairedAt, reset) == Ok(State())
      ensures r.Ok? && !up ==> TimestampMigration.Downgrade(env, old(State()), archiveId, reset) == Ok(State())
      ensures r.Refused? ==> State() == old(State())
    {
      var before := State();
      UpgradeExact(env, before, archiveId, repairedAt, reset);
      DowngradeExact(env, before, archiveId, reset);
      GuardExact(env, before, PREVIOUS);
      GuardExact(env, before, HEAD);
      CanCaptureMeans(env, before, PREVIOUS);
      CanCaptureMeans(env, before, HEAD);
      if up {
        r := Upgrade(archiveId, repairedAt, reset);
      } else {
        r := Downgrade(archiveId, reset);
      }
      if r.Refused? {
        Rollback(before);
      }
    }

    method Rollback(saved: Db)
      modifies this
      ensures State() == saved.(
        sequence := Pair(Surviving(old(sequence.retry), saved.sequence.retry), Surviving(old(sequence.dlq), saved.sequence.dlq)),
        queue := Queue(
          saved.queue.requests.(sequence := Surviving(old(queue.requests.sequence), saved.queue.requests.sequence)),
          saved.queue.history.(sequence := Surviving(old(queue.history.sequence), saved.queue.history.sequence))))
    {
      revision, dlqNullable, literalDefaults := saved.revision, saved.dlqNullable, saved.literalDefaults;
      live, archive, manifests := saved.live, saved.archive, saved.manifests;
      sequence := Pair(Surviving(sequence.retry, saved.sequence.retry), Surviving(sequence.dlq, saved.sequence.dlq));
      queue := Queue(
        saved.queue.requests.(sequence := Surviving(queue.requests.sequence, saved.queue.requests.sequence)),
        saved.queue.history.(sequence := Surviving(queue.history.sequence, saved.queue.history.sequence)));
    }
  }

  // PostgreSQL sequences are not transactional.
  function Surviving(now: Sequence, saved: Sequence): Sequence {
    if now.Postgres? then now else saved
  }
}

/**
 Whole lifetimes of a database: upgrades and downgrades across the a7/f6 boundary
 in any order, with inserts, edits and deletes by whichever runtime is installed,
 and interrupted migrations in between. The ledger is the same history without any
 archive: it is what the two tables would hold had no migration ever run.
 */
module MigrationRuns {
  import opened Results
  import opened RetryArchive
  import opened ArchiveReading
  import opened ArchiveCapture
  import opened ArchiveRestore
  import opened TimestampMigration

  datatype Step =
    | Insert(s: Source, cells: seq<Value>)
    | Update(s: Source, id: int, cells: seq<Value>)
    | Delete(s: Source, id: int)
    | Up(archiveId: string, repairedAt: string, reset: Resets)
    | Down(archiveId: string, reset: Resets)
      // A migration that was interrupted and rolled back. PostgreSQL sequences
      // are not transactional and may have moved on.
    | RolledBack(skipped: Pair<nat>)

  datatype System = System(db: Db, ledger: Pair<Table>, issued: Pair<set<int>>)

  function RowWith(id: int, cells: seq<Value>): Row {
    [Int(id)] + cells
  }

  // The sequence after it has handed out id.
  function Handed(q: Sequence, id: int): Sequence {
    match q
    case Sqlite(_) => Sqlite(Some(id))
    case Postgres(_, _) => Postgres(id, true)
  }

  // The sequence with n more ids used up.
  function Skipped(q: Sequence, n: nat): Sequence {
    match q
    case Sqlite(_) => q
    case Postgres(last, called) => if n == 0 then q else Postgres(if called then last + n else last + n - 1, true)
  }

  // What a write does to the two tables when nothing is ever archived.
  function Written(tables: Pair<Table>, step: Step, newId: int): Pair<Table> {
    match step
    case Insert(s, cells) => tables.With(s, tables.At(s)[newId := RowWith(newId, cells)])
    case Update(s, id, cells) => tables.With(s, tables.At(s)[id := RowWith(id, cells)])
    case Delete(s, id) => tables.With(s, tables.At(s) - {id})
    case _ => tables
  }

  function NewId(db: Db, step: Step): int {
    if step.Insert? then NextId(db.sequence.At(step.s), db.live.At(step.s)) else 0
  }

  function NextDb(e: Env, db: Db, step: Step): Outcome<Db> {
    match step
    case Insert(s, _) =>
      var id := NewId(db, step);
      if id in db.live.At(s) then Refused(DuplicateKey)
      else Ok(db.(live := Written(db.live, step, id), sequence := db.sequence.With(s, Handed(db.sequence.At(s), id))))
    case Update(_, _, _) => Ok(db.(live := Written(db.live, step, 0)))
    case Delete(_, _) => Ok(db.(live := Written(db.live, step, 0)))
    case Up(archiveId, repairedAt, reset) => Upgrade(e, db, archiveId, repairedAt, reset)
    case Down(archiveId, reset) => Downgrade(e, db, archiveId, reset)
    case RolledBack(n) =>
      Ok(db.(sequence := Pair(Skipped(db.sequence.retry, n.retry), Skipped(db.sequence.dlq, n.dlq))))
  }

  function Next(e: Env, st: System, step: Step): Outcome<System> {
    var db :- NextDb(e, st.db, step);
    var id := NewId(st.db, step);
    Ok(System(db, Written(st.ledger, step, id),
      if step.Insert? then st.issued.With(step.s, st.issued.At(step.s) + {id}) else st.issued))
  }

  // Runtimes write rows of the current schema and touch only rows they can see;
  // migrations come one revision at a time with archive ids nobody has used.
  ghost predicate Admissible(st: System, step: Step) {
    match step
    case Insert(s, cells) => TypedRow(s, RowWith(NewId(st.db, step), cells), st.db.dlqNullable)
    case Update(s, id, cells) => id in st.db.live.At(s) && TypedRow(s, RowWith(id, cells), st.db.dlqNullable)
    case Delete(s, id) => id in st.db.live.At(s)
    case Up(archiveId, _, _) => st.db.revision == PREVIOUS && FreshId(st.db, archiveId)
    case Down(archiveId, _) => st.db.revision == HEAD && FreshId(st.db, archiveId)
    case RolledBack(_) => true
  }

  function Run(e: Env, st: System, steps: seq<Step>): Outcome<System>
    decreases steps
  {
    if steps == [] then Ok(st) else
      var next :- Next(e, st, steps[0]);
      Run(e, next, steps[1..])
  }

  ghost predicate AdmissibleRun(e: Env, st: System, steps: seq<Step>)
    decreases steps
  {
    steps == [] ||
    (Admissible(st, steps[0]) &&
     (Next(e, st, steps[0]).Ok? ==> AdmissibleRun(e, Next(e, st, steps[0]).value, steps[1..])))
  }

  // ---------- the invariant ----------

  // Live and archived rows together are the ledger, and every id of the ledger
  // was issued no later than the sequence says.
  ghost predicate SideInv(st: System, s: Source) {
    && KeyedTable(st.ledger.At(s))
    && Contents(st.db, s) == RowsOf(st.ledger.At(s))
    && st.ledger.At(s).Keys <= st.issued.At(s)
    && forall id :: id in st.issued.At(s) ==> id <= LastIssued(st.db.sequence.At(s))
  }

  ghost predicate Inv(e: Env, st: System) {
    && Ready(e, st.db)
    && (st.db.revision == HEAD ==> PendingOf(st.db) == [])
    && SideInv(st, Retry)
    && SideInv(st, Dlq)
  }

  // ---------- writes ----------

  function RowAt(t: Table, id: int): set<Row> {
    if id in t then {t[id]} else {}
  }

  lemma PutRows(t: Table, id: int, row: Row)
    requires KeyedTable(t) && row != [] && row[0] == Int(id)
    ensures RowsOf(t[id := row]) == (RowsOf(t) - RowAt(t, id)) + {row}
    ensures KeyedTable(t[id := row])
  {
    var u := t[id := row];
    forall x | x in RowsOf(t) - RowAt(t, id) ensures x in RowsOf(u) {
      var k :| k in t && t[k] == x;
      assert u[k] == x;
    }
    forall x | x in RowsOf(u) ensures x == row || x in RowsOf(t) - RowAt(t, id) {
      var k :| k in u && u[k] == x;
      if k != id {
        assert x[0] == Int(k);
      }
    }
    assert u[id] == row;
  }

  lemma DropRows(t: Table, id: int)
    requires KeyedTable(t)
    ensures RowsOf(t - {id}) == RowsOf(t) - RowAt(t, id)
    ensures KeyedTable(t - {id})
  {
    var u := t - {id};
    forall x | x in RowsOf(t) - RowAt(t, id) ensures x in RowsOf(u) {
      var k :| k in t && t[k] == x;
      assert u[k] == x;
    }
    forall x | x in RowsOf(u) ensures x in RowsOf(t) - RowAt(t, id) {
      var k :| k in u && u[k] == x;
      assert x[0] == Int(k);
    }
  }

  lemma LiveInLedger(st: System, s: Source)
    requires SideInv(st, s) && KeyedTable(st.db.live.At(s))
    ensures forall id :: id in st.db.live.At(s) ==>
      id in st.ledger.At(s) && st.ledger.At(s)[id] == st.db.live.At(s)[id]
  {
    RowsFollowKeys(st.db.live.At(s), st.ledger.At(s));
  }

  lemma ArchivedInLedger(st: System, s: Source)
    requires SideInv(st, s)
    ensures forall r :: r in st.db.archive.At(s) ==> IdOf(r.raw) in st.ledger.At(s) && st.ledger.At(s)[IdOf(r.raw)] == r.raw
  {
    forall r | r in st.db.archive.At(s)
      ensures IdOf(r.raw) in st.ledger.At(s) && st.ledger.At(s)[IdOf(r.raw)] == r.raw
    {
      assert r.raw in Contents(st.db, s);
      var k :| k in st.ledger.At(s) && st.ledger.At(s)[k] == r.raw;
    }
  }

  // Writing one live table, keeping its other ids, keeps the archive readable as
  // long as a new id is not an archived one.
  lemma WriteKeepsReading(e: Env, db: Db, db': Db, s: Source, id: int)
    requires Acceptable(e, db) && CheckMarker(e, db).Ok?
    requires db'.archive == db.archive && db'.manifests == db.manifests
    requires db'.live == db.live.With(s, db'.live.At(s))
    requires db'.live.At(s).Keys <= db.live.At(s).Keys + {id}
    requires forall r :: r in db.archive.At(s) ==> IdOf(r.raw) != id || id in db.live.At(s)
    ensures Acceptable(e, db') && CheckMarker(e, db').Ok? && PendingOf(db') == PendingOf(db)
  {
    var batches := PendingBatches(db);
    assert PendingBatches(db') == batches;
    SeparateAfterWrite(e, db, db', s, id, Retry);
    SeparateAfterWrite(e, db, db', s, id, Dlq);
  }

  lemma SeparateAfterWrite(e: Env, db: Db, db': Db, s: Source, id: int, other: Source)
    requires Acceptable(e, db)
    requires db'.live == db.live.With(s, db'.live.At(s))
    requires db'.live.At(s).Keys <= db.live.At(s).Keys + {id}
    requires forall r :: r in db.archive.At(s) ==> IdOf(r.raw) != id || id in db.live.At(s)
    ensures SeparateIds(db', PendingBatches(db), other)
  {
    var all := AllRows(PendingBatches(db), other);
    assert SeparateIds(db, PendingBatches(db), other);
    AllRowsAreArchive(e, db, other);
    forall x | x in Ids(all) ensures x !in db'.live.At(other) {
      var i :| 0 <= i < |all| && Ids(all)[i] == x;
      assert all[i] in db.archive.At(other);
    }
  }

  lemma PutReady(e: Env, db: Db, db': Db, s: Source, id: int, row: Row)
    requires Ready(e, db) && TypedRow(s, row, db.dlqNullable) && row[0] == Int(id)
    requires ValidSequence(db'.sequence.retry) && ValidSequence(db'.sequence.dlq)
    requires db' == db.(live := db.live.With(s, db.live.At(s)[id := row]), sequence := db'.sequence)
    requires forall r :: r in db.archive.At(s) ==> IdOf(r.raw) != id || id in db.live.At(s)
    ensures Ready(e, db') && PendingOf(db') == PendingOf(db)
  {
    WriteKeepsReading(e, db, db', s, id);
    PutRows(db.live.At(s), id, row);
  }

  lemma DropReady(e: Env, db: Db, db': Db, s: Source, id: int)
    requires Ready(e, db)
    requires db' == db.(live := db.live.With(s, db.live.At(s) - {id}))
    requires id in db.live.At(s)
    ensures Ready(e, db') && PendingOf(db') == PendingOf(db)
  {
    WriteKeepsReading(e, db, db', s, id);
    DropRows(db.live.At(s), id);
  }

  // The written side: both the live table and the ledger take the same change.
  lemma WrittenSide(e: Env, st: System, s: Source, id: int)
    requires Inv(e, st)
    requires id in st.db.live.At(s) || id !in st.ledger.At(s)
    ensures RowAt(st.db.live.At(s), id) == RowAt(st.ledger.At(s), id)
    ensures RawSet(st.db.archive.At(s)) !! RowAt(st.ledger.At(s), id)
    ensures forall r :: r in st.db.archive.At(s) ==> IdOf(r.raw) != id
  {
    assert SideInv(st, s) && KeyedTable(st.db.live.At(s));
    LiveInLedger(st, s);
    ArchivedInLedger(st, s);
    ArchivedNotLive(e, st.db, s);
  }

  lemma PutSide(e: Env, st: System, s: Source, id: int, row: Row)
    requires Inv(e, st) && row != [] && row[0] == Int(id)
    requires id in st.db.live.At(s) || id !in st.ledger.At(s)
    ensures RowsOf(st.db.live.At(s)[id := row]) + RawSet(st.db.archive.At(s)) == RowsOf(st.ledger.At(s)[id := row])
    ensures KeyedTable(st.ledger.At(s)[id := row])
  {
    assert SideInv(st, s) && KeyedTable(st.db.live.At(s));
    WrittenSide(e, st, s, id);
    PutRows(st.db.live.At(s), id, row);
    PutRows(st.ledger.At(s), id, row);
  }

  lemma DropSide(e: Env, st: System, s: Source, id: int)
    requires Inv(e, st) && id in st.db.live.At(s)
    ensures RowsOf(st.db.live.At(s) - {id}) + RawSet(st.db.archive.At(s)) == RowsOf(st.ledger.At(s) - {id})
    ensures KeyedTable(st.ledger.At(s) - {id})
  {
    assert SideInv(st, s) && KeyedTable(st.db.live.At(s));
    WrittenSide(e, st, s, id);
    DropRows(st.db.live.At(s), id);
    DropRows(st.ledger.At(s), id);
  }

  lemma NewIdIsNew(e: Env, st: System, s: Source, cells: seq<Value>)
    requires Inv(e, st)
    ensures var id := NewId(st.db, Insert(s, cells));
      && id > LastIssued(st.db.sequence.At(s))
      && id !in st.issued.At(s) && id !in st.ledger.At(s) && id !in st.db.live.At(s)
      && (forall x :: x in st.issued.At(s) ==> x < id)
      && LastIssued(Handed(st.db.sequence.At(s), id)) == id
      && ValidSequence(Handed(st.db.sequence.At(s), id))
  {
    assert SideInv(st, s) && ValidSequence(st.db.sequence.At(s)) && KeyedTable(st.db.live.At(s));
    NextIdIsNew(st.db.sequence.At(s), st.db.live.At(s));
    LiveInLedger(st, s);
  }

  // ---------- every step ----------

  lemma InsertKeeps(e: Env, st: System, s: Source, cells: seq<Value>)
    requires Inv(e, st) && Admissible(st, Insert(s, cells))
    ensures Next(e, st, Insert(s, cells)).Ok? && Inv(e, Next(e, st, Insert(s, cells)).value)
  {
    var id := NewId(st.db, Insert(s, cells));
    var row := RowWith(id, cells);
    NewIdIsNew(e, st, s, cells);
    WrittenSide(e, st, s, id);
    var st' := Next(e, st, Insert(s, cells)).value;
    PutReady(e, st.db, st'.db, s, id, row);
    PutSide(e, st, s, id, row);
    assert SideInv(st', s);
  }

  lemma UpdateKeeps(e: Env, st: System, s: Source, id: int, cells: seq<Value>)
    requires Inv(e, st) && Admissible(st, Update(s, id, cells))
    ensures Next(e, st, Update(s, id, cells)).Ok? && Inv(e, Next(e, st, Update(s, id, cells)).value)
  {
    var row := RowWith(id, cells);
    var st' := Next(e, st, Update(s, id, cells)).value;
    assert KeyedTable(st.db.live.At(s)) && SideInv(st, s);
    LiveInLedger(st, s);
    PutReady(e, st.db, st'.db, s, id, row);
    PutSide(e, st, s, id, row);
    assert SideInv(st', s);
  }

  lemma DeleteKeeps(e: Env, st: System, s: Source, id: int)
    requires Inv(e, st) && Admissible(st, Delete(s, id))
    ensures Next(e, st, Delete(s, id)).Ok? && Inv(e, Next(e, st, Delete(s, id)).value)
  {
    var st' := Next(e, st, Delete(s, id)).value;
    assert SideInv(st, s);
    DropReady(e, st.db, st'.db, s, id);
    DropSide(e, st, s, id);
    assert SideInv(st', s);
  }

  lemma KeptSides(e: Env, st: System, db': Db)
    requires Inv(e, st) && Kept(st.db, db')
    ensures SideInv(st.(db := db'), Retry) && SideInv(st.(db := db'), Dlq)
  {
    assert KeptAt(st.db, db', Retry) && KeptAt(st.db, db', Dlq);
  }

  lemma MigrationKeeps(e: Env, st: System, step: Step)
    requires Inv(e, st) && Admissible(st, step) && (step.Up? || step.Down?)
    ensures Next(e, st, step).Ok? && Inv(e, Next(e, st, step).value)
  {
    PreviousIsNotHead();
    match step
    case Up(archiveId, repairedAt, reset) =>
      UpgradeReady(e, st.db, archiveId, repairedAt, reset);
      KeptSides(e, st, Upgrade(e, st.db, archiveId, repairedAt, reset).value);
    case Down(archiveId, reset) =>
      DowngradeReady(e, st.db, archiveId, reset);
      KeptSides(e, st, Downgrade(e, st.db, archiveId, reset).value);
  }

  lemma RollbackKeeps(e: Env, st: System, n: Pair<nat>)
    requires Inv(e, st)
    ensures Next(e, st, RolledBack(n)).Ok? && Inv(e, Next(e, st, RolledBack(n)).value)
  {
    var st' := Next(e, st, RolledBack(n)).value;
    SameReading(e, st.db, st'.db);
    assert SideInv(st', Retry) && SideInv(st', Dlq);
  }

  /** Every admissible step succeeds and keeps the invariant. */
  lemma StepKeeps(e: Env, st: System, step: Step)
    requires Inv(e, st) && Admissible(st, step)
    ensures Next(e, st, step).Ok? && Inv(e, Next(e, st, step).value)
  {
    match step
    case Insert(s, cells) => InsertKeeps(e, st, s, cells);
    case Update(s, id, cells) => UpdateKeeps(e, st, s, id, cells);
    case Delete(s, id) => DeleteKeeps(e, st, s, id);
    case Up(_, _, _) => MigrationKeeps(e, st, step);
    case Down(_, _) => MigrationKeeps(e, st, step);
    case RolledBack(n) => RollbackKeeps(e, st, n);
  }

  // ---------- main results ----------

  /** No run ever gets stuck: every migration of it succeeds. */
  lemma {:induction false} RunIsSafe(e: Env, st: System, steps: seq<Step>)
    requires Inv(e, st) && AdmissibleRun(e, st, steps)
    ensures Run(e, st, steps).Ok? && Inv(e, Run(e, st, steps).value)
    decreases steps
  {
    if steps != [] {
      StepKeeps(e, st, steps[0]);
      RunIsSafe(e, Next(e, st, steps[0]).value, steps[1..]);
    }
  }

  /**
   Whatever the history, a database at the newer revision shows exactly the ledger:
   migrations neither lose, change nor invent a row.
   */
  lemma HeadShowsLedger(e: Env, st: System, s: Source)
    requires Inv(e, st) && st.db.revision == HEAD
    ensures st.db.live.At(s) == st.ledger.At(s)
  {
    assert SideInv(st, s) && KeyedTable(st.db.live.At(s));
    assert NoOrphans(st.db.archive.At(s), PendingOf(st.db));
    NoPendingNoRows(st.db, s);
    KeyedTablesEqual(st.db.live.At(s), st.ledger.At(s));
  }

  // The ids a run hands out to new rows of one source, in order.
  function HandedOut(e: Env, st: System, steps: seq<Step>, s: Source): seq<int>
    decreases steps
  {
    if steps == [] || Next(e, st, steps[0]).Refused? then []
    else
      (if steps[0].Insert? && steps[0].s == s then [NewId(st.db, steps[0])] else []) +
      HandedOut(e, Next(e, st, steps[0]).value, steps[1..], s)
  }

  ghost predicate Increasing(ids: seq<int>) {
    forall i, j :: 0 <= i < j < |ids| ==> ids[i] < ids[j]
  }

  lemma IssuedAfter(e: Env, st: System, step: Step, s: Source)
    requires Next(e, st, step).Ok?
    ensures Next(e, st, step).value.issued.At(s) ==
      st.issued.At(s) + (if step.Insert? && step.s == s then {NewId(st.db, step)} else {})
  {
  }

  ghost predicate PastAll(issued: set<int>, ids: seq<int>) {
    forall i, x :: 0 <= i < |ids| && x in issued ==> x < ids[i]
  }

  lemma OneMore(id: int, rest: seq<int>, issued: set<int>)
    requires Increasing(rest) && PastAll(issued + {id}, rest) && forall x :: x in issued ==> x < id
    ensures Increasing([id] + rest) && PastAll(issued, [id] + rest)
  {
    assert id in issued + {id};
  }

  /**
   No identity is reused: over a whole run the ids given to new rows only grow,
   and each is past every id that was ever issued, live or archived before.
   */
  lemma {:induction false} NoIdentityIsReused(e: Env, st: System, steps: seq<Step>, s: Source)
    requires Inv(e, st) && AdmissibleRun(e, st, steps)
    ensures Increasing(HandedOut(e, st, steps, s))
    ensures PastAll(st.issued.At(s), HandedOut(e, st, steps, s))
    decreases steps
  {
    if steps != [] {
      StepKeeps(e, st, steps[0]);
      NoIdentityIsReused(e, Next(e, st, steps[0]).value, steps[1..], s);
      FirstHandedOut(e, st, steps[0], HandedOut(e, Next(e, st, steps[0]).value, steps[1..], s), s);
    }
  }

  lemma FirstHandedOut(e: Env, st: System, step: Step, rest: seq<int>, s: Source)
    requires Inv(e, st) && Next(e, st, step).Ok?
    requires Increasing(rest) && PastAll(Next(e, st, step).value.issued.At(s), rest)
    ensures var ids := (if step.Insert? && step.s == s then [NewId(st.db, step)] else []) + rest;
      Increasing(ids) && PastAll(st.issued.At(s), ids)
  {
    IssuedAfter(e, st, step, s);
    if step.Insert? && step.s == s {
      NewIdIsNew(e, st, s, step.cells);
      OneMore(NewId(st.db, step), rest, st.issued.At(s));
    } else {
      assert [] + rest == rest;
    }
  }

  /** Live and archived ids stay apart, and all of them are ids once issued. */
  lemma IdentitiesStayApart(e: Env, st: System, s: Source)
    requires Inv(e, st)
    ensures st.db.live.At(s).Keys <= st.issued.At(s)
    ensures forall r :: r in st.db.archive.At(s) ==> IdOf(r.raw) in st.issued.At(s) && IdOf(r.raw) !in st.db.live.At(s)
  {
    assert SideInv(st, s) && KeyedTable(st.db.live.At(s));
    LiveInLedger(st, s);
    ArchivedInLedger(st, s);
    ArchivedNotLive(e, st.db, s);
    assert forall id :: id in st.db.live.At(s) ==> id in st.ledger.At(s) && id in st.issued.At(s);
  }

  // A database at either revision with nothing in its archive. The older revision may
  // have either nullability of the DLQ date.
  ghost predicate NothingArchived(e: Env, db: Db) {
    && Shaped(db)
    && (db.revision == HEAD || db.revision == PREVIOUS)
    && (db.revision == HEAD ==> db.dlqNullable)
    && db.archive == Pair([], [])
    && (db.manifests.None? || db.manifests == Some([ControlManifest(e)]))
    && TypedTable(Retry, db.live.retry, db.dlqNullable)
    && TypedTable(Dlq, db.live.dlq, db.dlqNullable)
  }

  ghost predicate Covered(db: Db) {
    Covers(db.sequence.retry, db.live.retry) && Covers(db.sequence.dlq, db.live.dlq)
  }

  // What may have been issued before: the live ids, and any others, deleted since, that
  // the sequence is past.
  ghost predicate MayBeIssued(db: Db, issued: Pair<set<int>>, s: Source) {
    && db.live.At(s).Keys <= issued.At(s)
    && forall id :: id in issued.At(s) ==> id in db.live.At(s) || id <= LastIssued(db.sequence.At(s))
  }

  // A database with nothing in its archive, and what it has issued.
  ghost predicate Startable(e: Env, db: Db, issued: Pair<set<int>>) {
    NothingArchived(e, db) && MayBeIssued(db, issued, Retry) && MayBeIssued(db, issued, Dlq)
  }

  // The run of a database starts with its own rows as the ledger.
  function Start(db: Db, issued: Pair<set<int>>): System {
    System(db, db.live, issued)
  }

  lemma ArchivedNothing(e: Env, db: Db, s: Source)
    requires NothingArchived(e, db)
    ensures Contents(db, s) == RowsOf(db.live.At(s)) && PendingOf(db) == [] && Ready(e, db)
  {
    MarkerOnlyAccepted(e, db);
    assert db.archive.At(s) == [];
  }

  /** Runs may start from any such database whose sequences cover its rows. */
  lemma RunsMayStart(e: Env, db: Db, issued: Pair<set<int>>)
    requires Startable(e, db, issued) && Covered(db)
    ensures Inv(e, Start(db, issued))
  {
    ArchivedNothing(e, db, Retry);
    ArchivedNothing(e, db, Dlq);
  }

  /**
   From a database with nothing in its archive, at either revision, any run succeeds,
   and whenever it ends at the newer revision both tables are what they would be had
   no migration run.
   */
  lemma AnyRunShowsLedger(e: Env, db: Db, issued: Pair<set<int>>, steps: seq<Step>)
    requires Startable(e, db, issued) && Covered(db)
    requires AdmissibleRun(e, Start(db, issued), steps)
    ensures Run(e, Start(db, issued), steps).Ok?
    ensures var end := Run(e, Start(db, issued), steps).value; end.db.revision == HEAD ==> end.db.live == end.ledger
  {
    RunsMayStart(e, db, issued);
    RunShowsLedger(e, Start(db, issued), steps);
  }

  /** And no run from there issues an id again, deleted ones included. */
  lemma AnyRunIssuesNewIds(e: Env, db: Db, issued: Pair<set<int>>, steps: seq<Step>, s: Source)
    requires Startable(e, db, issued) && Covered(db)
    requires AdmissibleRun(e, Start(db, issued), steps)
    ensures Increasing(HandedOut(e, Start(db, issued), steps, s))
    ensures PastAll(issued.At(s), HandedOut(e, Start(db, issued), steps, s))
  {
    RunsMayStart(e, db, issued);
    NoIdentityIsReused(e, Start(db, issued), steps, s);
  }

  lemma RunShowsLedger(e: Env, st: System, steps: seq<Step>)
    requires Inv(e, st) && AdmissibleRun(e, st, steps)
    ensures Run(e, st, steps).Ok?
    ensures var end := Run(e, st, steps).value; end.db.revision == HEAD ==> end.db.live == end.ledger
  {
    RunIsSafe(e, st, steps);
    var end := Run(e, st, steps).value;
    if end.db.revision == HEAD {
      HeadShowsLedger(e, end, Retry);
      HeadShowsLedger(e, end, Dlq);
    }
  }

  // ---------- the first upgrade ----------

  lemma FirstUpgradeSide(e: Env, db: Db, db': Db, archiveId: string, repairedAt: string, reset: Resets, s: Source)
    requires NothingArchived(e, db) && db.revision == PREVIOUS && FreshId(db, archiveId)
    requires WillCover(e, db, reset, s)
    requires Upgrade(e, db, archiveId, repairedAt, reset) == Ok(db')
    ensures db'.live.At(s) == db.live.At(s) && Covers(db'.sequence.At(s), db.live.At(s))
    ensures Contents(db', s) == RowsOf(db.live.At(s))
    ensures LastIssued(db'.sequence.At(s)) >= LastIssued(db.sequence.At(s))
  {
    ArchivedNothing(e, db, s);
    UpgradeKeeps(e, db, db', archiveId, repairedAt, reset, s);
    assert KeyedTable(db.live.At(s));
    KeyedTablesEqual(db'.live.At(s), db.live.At(s));
  }

  // A database about to be upgraded for the first time.
  ghost predicate FirstUpgradable(e: Env, db: Db, issued: Pair<set<int>>, archiveId: string, reset: Resets) {
    && Startable(e, db, issued) && db.revision == PREVIOUS && FreshId(db, archiveId)
    && WillCover(e, db, reset, Retry) && WillCover(e, db, reset, Dlq)
  }

  /**
   The first upgrade of a database, unknown dates and missing sequence rows included:
   it succeeds, gives back the very tables it found, and from then on no run can fail
   or issue an id again.
   */
  lemma FirstUpgrade(e: Env, db: Db, issued: Pair<set<int>>, archiveId: string, repairedAt: string, reset: Resets)
    requires FirstUpgradable(e, db, issued, archiveId, reset)
    ensures Upgrade(e, db, archiveId, repairedAt, reset).Ok?
    ensures Upgrade(e, db, archiveId, repairedAt, reset).value.live == db.live
    ensures Inv(e, Start(Upgrade(e, db, archiveId, repairedAt, reset).value, issued))
  {
    ArchivedNothing(e, db, Retry);
    UpgradeReady(e, db, archiveId, repairedAt, reset);
    var db' := Upgrade(e, db, archiveId, repairedAt, reset).value;
    FirstUpgradeSide(e, db, db', archiveId, repairedAt, reset, Retry);
    FirstUpgradeSide(e, db, db', archiveId, repairedAt, reset, Dlq);
  }

  /** Rows with unknown dates in either table are enough, whatever the rebuilds do. */
  lemma FirstUpgradeOfUnknownDates(e: Env, db: Db, issued: Pair<set<int>>, archiveId: string, repairedAt: string, reset: Resets)
    requires Startable(e, db, issued) && db.revision == PREVIOUS && FreshId(db, archiveId)
    requires !NothingCaptured(e, db)
    ensures Upgrade(e, db, archiveId, repairedAt, reset).Ok?
    ensures Upgrade(e, db, archiveId, repairedAt, reset).value.live == db.live
    ensures Inv(e, Start(Upgrade(e, db, archiveId, repairedAt, reset).value, issued))
  {
    FirstUpgrade(e, db, issued, archiveId, repairedAt, reset);
  }

  lemma AfterFirstUpgrade(e: Env, db: Db, issued: Pair<set<int>>, up: Step, later: seq<Step>, s: Source)
    requires up.Up? && FirstUpgradable(e, db, issued, up.archiveId, up.reset)
    ensures Upgrade(e, db, up.archiveId, up.repairedAt, up.reset).Ok?
    ensures var st := Start(Upgrade(e, db, up.archiveId, up.repairedAt, up.reset).value, issued);
      && Inv(e, st)
      && (AdmissibleRun(e, Start(db, issued), [up] + later) ==> AdmissibleRun(e, st, later))
      && Run(e, Start(db, issued), [up] + later) == Run(e, st, later)
      && HandedOut(e, Start(db, issued), [up] + later, s) == HandedOut(e, st, later, s)
  {
    FirstUpgrade(e, db, issued, up.archiveId, up.repairedAt, up.reset);
    var st := Start(Upgrade(e, db, up.archiveId, up.repairedAt, up.reset).value, issued);
    RunAfterFirst(e, Start(db, issued), up, st, later, s);
  }

  // A run that begins with a migration is the rest of the run from where that ends.
  lemma RunAfterFirst(e: Env, st: System, up: Step, st': System, later: seq<Step>, s: Source)
    requires !up.Insert? && Next(e, st, up) == Ok(st')
    ensures AdmissibleRun(e, st, [up] + later) ==> AdmissibleRun(e, st', later)
    ensures Run(e, st, [up] + later) == Run(e, st', later)
    ensures HandedOut(e, st, [up] + later, s) == HandedOut(e, st', later, s)
  {
    assert ([up] + later)[0] == up && ([up] + later)[1..] == later;
    assert [] + HandedOut(e, st', later, s) == HandedOut(e, st', later, s);
  }

  /**
   A run that begins with the first upgrade succeeds and shows the ledger as any other
   does, and issues no id again that was issued before or in it.
   */
  lemma RunFromFirstUpgrade(e: Env, db: Db, issued: Pair<set<int>>, up: Step, later: seq<Step>, s: Source)
    requires up.Up? && FirstUpgradable(e, db, issued, up.archiveId, up.reset)
    requires AdmissibleRun(e, Start(db, issued), [up] + later)
    ensures Run(e, Start(db, issued), [up] + later).Ok?
    ensures var end := Run(e, Start(db, issued), [up] + later).value;
      end.db.revision == HEAD ==> end.db.live == end.ledger
    ensures Increasing(HandedOut(e, Start(db, issued), [up] + later, s))
    ensures PastAll(issued.At(s), HandedOut(e, Start(db, issued), [up] + later, s))
  {
    AfterFirstUpgrade(e, db, issued, up, later, s);
    var st := Start(Upgrade(e, db, up.archiveId, up.repairedAt, up.reset).value, issued);
    RunShowsLedger(e, st, later);
    NoIdentityIsReused(e, st, later, s);
  }
}

/**
 Project scope: widening a table's unique key by a constant project 0, and giving
 the project 0 rows to the one legacy owner, or refusing.
 */
module ProjectScope {
  import opened Results
  import opened Sequences
  import JsonText

  datatype Name = MergeRequests | History | Hourly | Daily | RetryQueue | Dlq

  // The order in which _backfill_legacy_project and _has_unassigned_rows go.
  const NAMES := [MergeRequests, History, Hourly, Daily, RetryQueue, Dlq]

  // The key a project's rows are told apart by: iid, timestamp, date or id.
  datatype Key = IntKey(n: int) | TextKey(s: string)

  // payload stands for every other column.
  datatype Entry = Entry(id: int, projectId: int, key: Key, payload: string)

  // A table may be missing, or still be without its project_id column.
  datatype Table = Missing | Unscoped(rows: seq<Entry>) | Scoped(rows: seq<Entry>)

  type Tables = map<Name, Table>

  // ---------- one table ----------

  predicate Holds(rows: seq<Entry>, projectId: int, key: Key) {
    exists i :: 0 <= i < |rows| && rows[i].projectId == projectId && rows[i].key == key
  }

  // The UPDATE rule for one row, the table it reads given.
  function Owned(rows: seq<Entry>, r: Entry, owner: int): Entry {
    if r.projectId == 0 && !Holds(rows, owner, r.key) then r.(projectId := owner) else r
  }

  // The UPDATE with its subquery reading the table as it was before.
  function Backfill(rows: seq<Entry>, owner: int): seq<Entry> {
    seq(|rows|, i requires 0 <= i < |rows| => Owned(rows, rows[i], owner))
  }

  // The same UPDATE carried out row by row in some order, each row's subquery
  // reading the table as the rows before it have left it.
  function BackfillInPlace(rows: seq<Entry>, order: seq<nat>, owner: int): seq<Entry>
    requires forall k :: 0 <= k < |order| ==> order[k] < |rows|
    decreases order
  {
    if order == [] then rows else
      var i := order[0];
      BackfillInPlace(rows[i := Owned(rows, rows[i], owner)], order[1..], owner)
  }

  // UNIQUE(project_id, key)
  predicate ScopedUnique(rows: seq<Entry>) {
    forall i, j :: 0 <= i < j < |rows| ==> rows[i].projectId != rows[j].projectId || rows[i].key != rows[j].key
  }

  // Two rows no single owner can have both of.
  ghost predicate Conflicts(rows: seq<Entry>, owner: int) {
    exists i, j :: 0 <= i < |rows| && 0 <= j < |rows| &&
      rows[i].projectId == 0 && rows[j].projectId == owner && rows[i].key == rows[j].key
  }

  predicate Unassigned(rows: seq<Entry>) {
    exists i :: 0 <= i < |rows| && rows[i].projectId == 0
  }

  /** Moving every ownerless row to the owner keeps (project, key) unique. */
  lemma BackfillKeepsUnique(rows: seq<Entry>, owner: int)
    requires ScopedUnique(rows)
    ensures ScopedUnique(Backfill(rows, owner))
  {
    var done := Backfill(rows, owner);
    forall i, j | 0 <= i < j < |done| ensures done[i].projectId != done[j].projectId || done[i].key != done[j].key {
      assert rows[i].projectId != rows[j].projectId || rows[i].key != rows[j].key;
      assert done[i] == Owned(rows, rows[i], owner) && done[j] == Owned(rows, rows[j], owner);
    }
  }

  /** Rows are left without an owner exactly where the owner has the key already. */
  lemma BackfillLeavesConflicts(rows: seq<Entry>, owner: int)
    requires owner != 0
    ensures Unassigned(Backfill(rows, owner)) <==> Conflicts(rows, owner)
  {
    var done := Backfill(rows, owner);
    if Unassigned(done) {
      var i :| 0 <= i < |done| && done[i].projectId == 0;
      assert done[i] == Owned(rows, rows[i], owner);
      var j :| 0 <= j < |rows| && rows[j].projectId == owner && rows[j].key == rows[i].key;
      assert Conflicts(rows, owner);
    }
    if Conflicts(rows, owner) {
      var i, j :| 0 <= i < |rows| && 0 <= j < |rows| &&
        rows[i].projectId == 0 && rows[j].projectId == owner && rows[i].key == rows[j].key;
      assert Holds(rows, owner, rows[i].key);
      assert done[i].projectId == 0;
    }
  }

  lemma OneRowKeepsUnique(rows: seq<Entry>, i: nat, owner: int)
    requires ScopedUnique(rows) && i < |rows|
    ensures ScopedUnique(rows[i := Owned(rows, rows[i], owner)])
  {
    var next := rows[i := Owned(rows, rows[i], owner)];
    forall j, k | 0 <= j < k < |next| ensures next[j].projectId != next[k].projectId || next[j].key != next[k].key {
      assert rows[j].projectId != rows[k].projectId || rows[j].key != rows[k].key;
    }
  }

  /**
   The constraint is checked row by row while the UPDATE is under way: it holds after
   any rows have been visited, in any order, so it never stops the statement.
   */
  lemma {:induction false} UniqueThroughout(rows: seq<Entry>, visited: seq<nat>, owner: int)
    requires ScopedUnique(rows) && forall k :: 0 <= k < |visited| ==> visited[k] < |rows|
    ensures ScopedUnique(BackfillInPlace(rows, visited, owner))
    decreases visited
  {
    if visited != [] {
      OneRowKeepsUnique(rows, visited[0], owner);
      UniqueThroughout(rows[visited[0] := Owned(rows, rows[visited[0]], owner)], visited[1..], owner);
    }
  }

  // ---------- the order of a row-by-row update does not matter ----------

  // rows with the update carried out at some positions and not at the others.
  ghost predicate Partly(rows: seq<Entry>, now: seq<Entry>, todo: seq<nat>, owner: int) {
    && |now| == |rows|
    && forall i :: 0 <= i < |rows| ==> now[i] == if i in todo then rows[i] else Owned(rows, rows[i], owner)
  }

  lemma SameRule(rows: seq<Entry>, now: seq<Entry>, todo: seq<nat>, owner: int, i: nat)
    requires ScopedUnique(rows) && Partly(rows, now, todo, owner)
    requires i in todo && i < |rows| && rows[i].projectId == 0
    ensures Holds(now, owner, rows[i].key) <==> Holds(rows, owner, rows[i].key)
  {
    if owner == 0 {
      assert rows[i].projectId == owner && now[i] == rows[i];
    } else {
      if Holds(now, owner, rows[i].key) {
        var j :| 0 <= j < |now| && now[j].projectId == owner && now[j].key == rows[i].key;
        assert rows[j].key == rows[i].key;
        assert j != i;
        assert rows[j].projectId != 0;
        assert now[j] == rows[j];
      }
      if Holds(rows, owner, rows[i].key) {
        var j :| 0 <= j < |rows| && rows[j].projectId == owner && rows[j].key == rows[i].key;
        assert now[j] == rows[j];
      }
    }
  }

  lemma {:induction false} InPlaceFrom(rows: seq<Entry>, now: seq<Entry>, order: seq<nat>, owner: int)
    requires ScopedUnique(rows) && Distinct(order) && forall k :: 0 <= k < |order| ==> order[k] < |rows|
    requires Partly(rows, now, order, owner)
    ensures BackfillInPlace(now, order, owner) == Backfill(rows, owner)
    decreases order
  {
    if order == [] {
      assert now == Backfill(rows, owner);
    } else {
      var i, rest := order[0], order[1..];
      assert order == [i] + rest && i in order;
      assert i !in rest by {
        assert forall k :: 0 <= k < |rest| ==> rest[k] == order[k + 1] != order[0];
      }
      assert forall k :: 0 <= k < |rest| ==> rest[k] < |rows|;
      if rows[i].projectId == 0 {
        SameRule(rows, now, order, owner, i);
      }
      var next := now[i := Owned(now, now[i], owner)];
      assert Partly(rows, next, rest, owner);
      DistinctParts([i], rest);
      InPlaceFrom(rows, next, rest, owner);
    }
  }

  /**
   Where (project, key) is unique, an engine may visit the rows in any order and
   let later rows see earlier changes: the table comes out the same.
   */
  lemma AnyOrderSameTable(rows: seq<Entry>, order: seq<nat>, owner: int)
    requires ScopedUnique(rows)
    requires Distinct(order) && forall k :: 0 <= k < |order| ==> order[k] < |rows|
    requires forall i :: 0 <= i < |rows| ==> i in order
    ensures BackfillInPlace(rows, order, owner) == Backfill(rows, owner)
  {
    InPlaceFrom(rows, rows, order, owner);
  }

  /** Without a unique key the order would matter: two ownerless rows, one key. */
  lemma UniqueKeyIsNeeded(key: Key)
    ensures var rows := [Entry(1, 0, key, ""), Entry(2, 0, key, "")];
      BackfillInPlace(rows, [0, 1], 7) != Backfill(rows, 7)
  {
    var rows := [Entry(1, 0, key, ""), Entry(2, 0, key, "")];
    assert !Holds(rows, 7, key);
    assert Backfill(rows, 7)[1].projectId == 7;
    var first := rows[0 := Owned(rows, rows[0], 7)];
    assert first[0] == Entry(1, 7, key, "");
    assert Holds(first, 7, key);
    assert BackfillInPlace(rows, [0, 1], 7) == BackfillInPlace(first, [1], 7);
    assert [1][1..] == [];
    assert BackfillInPlace(first, [1], 7) == first[1 := Owned(first, first[1], 7)];
    assert first[1 := Owned(first, first[1], 7)][1].projectId == 0;
  }

  // ---------- widening the key ----------

  // The project_id column added with its server default.
  function WithProjectZero(rows: seq<Entry>): seq<Entry> {
    seq(|rows|, i requires 0 <= i < |rows| => rows[i].(projectId := 0))
  }

  ghost predicate KeyUnique(rows: seq<Entry>) {
    forall i, j :: 0 <= i < j < |rows| ==> rows[i].key != rows[j].key
  }

  /** With one constant project the wide key is unique exactly when the narrow was. */
  lemma WideningKeepsUnique(rows: seq<Entry>)
    ensures ScopedUnique(WithProjectZero(rows)) <==> KeyUnique(rows)
  {
    var wide := WithProjectZero(rows);
    if ScopedUnique(wide) {
      forall i, j | 0 <= i < j < |rows| ensures rows[i].key != rows[j].key {
        assert wide[i].projectId == wide[j].projectId;
      }
    }
  }

  /** Widening a unique key and then backfilling ends with no row of project 0. */
  lemma WidenThenBackfill(rows: seq<Entry>, owner: int)
    requires KeyUnique(rows) && owner > 0
    ensures var done := Backfill(WithProjectZero(rows), owner);
      && ScopedUnique(done) && !Unassigned(done)
      && forall i :: 0 <= i < |rows| ==> done[i] == rows[i].(projectId := owner)
  {
    var wide := WithProjectZero(rows);
    WideningKeepsUnique(rows);
    BackfillKeepsUnique(wide, owner);
    BackfillLeavesConflicts(wide, owner);
    assert forall i :: 0 <= i < |rows| ==> !Holds(wide, owner, rows[i].key);
  }

  // ---------- the legacy owner ----------

  // GITLAB_QUEUE_PROJECTS: blank, not JSON, or JSON.
  datatype Projects = Blank | Malformed | Document(doc: JsonText.Json)

  // legacyId is GITLAB_QUEUE_GITLAB_PROJECT_ID; parseInt is int() on text.
  datatype Config = Config(legacyId: Option<string>, projects: Projects, parseInt: string -> Option<int>)

  function Positive(n: Option<int>): Option<int> {
    if n.Some? && n.value > 0 then n else None
  }

  function LegacyId(c: Config): Option<int> {
    if c.legacyId.None? then None else Positive(c.parseInt(c.legacyId.value))
  }

  // _positive_project_id on a JSON value; a bool is an int in Python.
  function PositiveJson(c: Config, v: JsonText.Json): Option<int> {
    match v
    case JInt(n) => Positive(Some(n))
    case JBool(b) => if b then Some(1) else None
    case JStr(s) => Positive(c.parseInt(s))
    case _ => None
  }

  // dict.get after json.loads: the last of repeated keys counts, null if none.
  function Get(fields: seq<JsonText.Field>, key: string): JsonText.Json {
    if fields == [] then JsonText.JNull
    else if fields[|fields| - 1].key == key then fields[|fields| - 1].value
    else Get(fields[..|fields| - 1], key)
  }

  lemma {:induction false} GetIsLast(fields: seq<JsonText.Field>, key: string, i: nat)
    requires i < |fields| && fields[i].key == key && forall j :: i < j < |fields| ==> fields[j].key != key
    ensures Get(fields, key) == fields[i].value
  {
    if i < |fields| - 1 {
      GetIsLast(fields[..|fields| - 1], key, i);
    }
  }

  predicate Lists(c: Config, items: seq<JsonText.Json>, id: int) {
    exists i :: 0 <= i < |items| && items[i].JObj? && PositiveJson(c, Get(items[i].fields, "project_id")) == Some(id)
  }

  // Iterating a dict or a text yields no dicts; other scalars cannot be iterated.
  predicate Iterable(v: JsonText.Json) {
    v.JArr? || v.JObj? || v.JStr?
  }

  predicate Configured(c: Config, id: int) {
    c.projects.Document? && c.projects.doc.JArr? && Lists(c, c.projects.doc.items, id)
  }

  datatype Refusal = NoOwner | InvalidProjects | OwnerNotListed | KeyConflict | DuplicateKeys

  type Outcome<+T> = Result<T, Refusal>

  predicate HasUnassigned(tables: Tables) {
    exists n: Name :: n in tables && tables[n].Scoped? && Unassigned(tables[n].rows)
  }

  function LegacyProjectId(c: Config, tables: Tables): Outcome<Option<int>> {
    match c.projects
    case Blank => if LegacyId(c).None? && HasUnassigned(tables) then Refused(NoOwner) else Ok(LegacyId(c))
    case Malformed => Refused(InvalidProjects)
    case Document(doc) =>
      if !Iterable(doc) then Refused(InvalidProjects)
      else if LegacyId(c).Some? && Configured(c, LegacyId(c).value) then Ok(LegacyId(c))
      else if HasUnassigned(tables) then Refused(OwnerNotListed)
      else Ok(None)
  }

  // ---------- the whole step ----------

  function BackfillTable(t: Table, owner: int): Table {
    if t.Scoped? then Scoped(Backfill(t.rows, owner)) else t
  }

  function BackfillAll(tables: Tables, owner: int): Tables {
    map n | n in tables :: BackfillTable(tables[n], owner)
  }

  // The four tables the earlier revision widens.
  const WIDENED := [MergeRequests, History, Hourly, Daily]

  function WidenTable(t: Table): Table {
    if t.Unscoped? then Scoped(WithProjectZero(t.rows)) else t
  }

  // The tables that widening alters, by name.
  predicate Widens(n: Name) {
    n == MergeRequests || n == History || n == Hourly || n == Daily
  }

  lemma WidenedNames()
    ensures forall n: Name :: n in WIDENED <==> Widens(n)
  {
    assert WIDENED[0] == MergeRequests && WIDENED[1] == History && WIDENED[2] == Hourly && WIDENED[3] == Daily;
  }

  // The four tables have a project column, with the rows they had, all of project 0;
  // a table that had the column, and every other table, is as it was.
  ghost predicate Widened(tables: Tables, wide: Tables) {
    && wide.Keys == tables.Keys
    && forall n: Name :: n in tables && n in wide ==>
         if Widens(n) && tables[n].Unscoped? then
           && wide[n].Scoped? && |wide[n].rows| == |tables[n].rows|
           && forall i :: 0 <= i < |tables[n].rows| ==> wide[n].rows[i] == tables[n].rows[i].(projectId := 0)
         else wide[n] == tables[n]
  }

  // _ensure_webhook_tables and _add_project_scope for one retry table.
  function AddScope(t: Table): Table {
    match t
    case Missing => Scoped([])
    case Unscoped(rows) => Scoped(WithProjectZero(rows))
    case Scoped(_) => t
  }

  function AddScopes(tables: Tables): Tables
    requires RetryQueue in tables && Dlq in tables
  {
    tables[RetryQueue := AddScope(tables[RetryQueue])][Dlq := AddScope(tables[Dlq])]
  }

  function BackfillLegacyProject(c: Config, tables: Tables): Outcome<Tables> {
    match LegacyProjectId(c, tables)
    case Refused(why) => Refused(why)
    case Ok(None) => Ok(tables)
    case Ok(Some(owner)) =>
      var done := BackfillAll(tables, owner);
      if HasUnassigned(done) then Refused(KeyConflict) else Ok(done)
  }

  function Upgrade(c: Config, tables: Tables): Outcome<Tables>
    requires RetryQueue in tables && Dlq in tables
  {
    BackfillLegacyProject(c, AddScopes(tables))
  }

  // The owner a configuration names without any guess: the legacy id, listed in
  // the projects when those are set.
  ghost predicate Names(c: Config, owner: int) {
    && LegacyId(c) == Some(owner)
    && (c.projects.Blank? || Configured(c, owner))
  }

  ghost predicate UsableProjects(c: Config) {
    c.projects.Blank? || (c.projects.Document? && Iterable(c.projects.doc))
  }

  ghost predicate SomeConflict(tables: Tables, owner: int) {
    exists n: Name :: n in tables && tables[n].Scoped? && Conflicts(tables[n].rows, owner)
  }

  // Every row of t is in u, in place, changed at most from project 0 to owner.
  ghost predicate Reowned(t: Table, u: Table, owner: int) {
    match t
    case Scoped(rows) =>
      u.Scoped? && |u.rows| == |rows| &&
      forall i :: 0 <= i < |rows| ==> u.rows[i] == if rows[i].projectId == 0 then rows[i].(projectId := owner) else rows[i]
    case _ => u == t
  }

  lemma OwnerIsNamed(c: Config, tables: Tables)
    ensures LegacyProjectId(c, tables).Ok? && LegacyProjectId(c, tables).value.Some? ==>
      Names(c, LegacyProjectId(c, tables).value.value) && LegacyProjectId(c, tables).value.value > 0
    ensures LegacyProjectId(c, tables).Ok? <==>
      UsableProjects(c) && ((exists o :: Names(c, o)) || !HasUnassigned(tables))
    ensures UsableProjects(c) && (exists o :: Names(c, o)) ==> LegacyProjectId(c, tables) == Ok(LegacyId(c))
    ensures LegacyProjectId(c, tables).Ok? && !(exists o :: Names(c, o)) ==>
      LegacyProjectId(c, tables) == Ok(None)
  {
    if LegacyId(c).Some? {
      assert Names(c, LegacyId(c).value) <==> c.projects.Blank? || Configured(c, LegacyId(c).value);
    }
  }

  // A project list with one project.
  function OneProject(id: int): Projects {
    Document(JsonText.JArr([JsonText.JObj([JsonText.Field("project_id", JsonText.JInt(id))])]))
  }

  /**
   One listed project is not taken for the owner: with one ownerless row and no legacy
   id the step refuses, although there is only one project the row could belong to.
   */
  lemma OneProjectIsNotTheOwner(id: int, row: Entry, parseInt: string -> Option<int>)
    requires id > 0 && row.projectId == 0
    ensures var c := Config(None, OneProject(id), parseInt);
      && Configured(c, id)
      && LegacyProjectId(c, map[MergeRequests := Scoped([row])]) == Refused(OwnerNotListed)
      && BackfillLegacyProject(c, map[MergeRequests := Scoped([row])]) == Refused(OwnerNotListed)
  {
    var c, tables := Config(None, OneProject(id), parseInt), map[MergeRequests := Scoped([row])];
    assert [row][0].projectId == 0 && Unassigned(tables[MergeRequests].rows);
    var items := c.projects.doc.items;
    GetIsLast(items[0].fields, "project_id", 0);
    assert PositiveJson(c, Get(items[0].fields, "project_id")) == Some(id);
  }

  lemma BackfillAllUnassigned(tables: Tables, owner: int)
    requires owner != 0
    ensures HasUnassigned(BackfillAll(tables, owner)) <==> SomeConflict(tables, owner)
  {
    var done := BackfillAll(tables, owner);
    forall n: Name | n in tables && tables[n].Scoped?
      ensures Unassigned(done[n].rows) <==> Conflicts(tables[n].rows, owner)
    {
      BackfillLeavesConflicts(tables[n].rows, owner);
    }
    if HasUnassigned(done) {
      var n: Name :| n in done && done[n].Scoped? && Unassigned(done[n].rows);
      assert tables[n].Scoped? && Conflicts(tables[n].rows, owner);
    }
    if SomeConflict(tables, owner) {
      var n: Name :| n in tables && tables[n].Scoped? && Conflicts(tables[n].rows, owner);
      assert done[n].Scoped? && Unassigned(done[n].rows);
    }
  }

  /**
   The step refuses exactly when the project list cannot be read, when ownerless
   rows have no named owner, or when the named owner already has one of their keys.
   */
  lemma BackfillRefusesExactly(c: Config, tables: Tables)
    ensures BackfillLegacyProject(c, tables).Refused? <==>
      !UsableProjects(c) ||
      (HasUnassigned(tables) && !exists owner :: Names(c, owner)) ||
      (exists owner :: Names(c, owner) && SomeConflict(tables, owner))
  {
    OwnerIsNamed(c, tables);
    if LegacyProjectId(c, tables).Ok? && LegacyProjectId(c, tables).value.Some? {
      BackfillAllUnassigned(tables, LegacyProjectId(c, tables).value.value);
    }
    if exists owner :: Names(c, owner) {
      var owner :| Names(c, owner);
      assert LegacyId(c) == Some(owner);
    }
  }

  // What a step that returns has done.
  ghost predicate Assigned(c: Config, tables: Tables, done: Tables) {
    && done.Keys == tables.Keys
    && !HasUnassigned(done)
    && (done == tables || exists owner :: Names(c, owner) && forall n: Name :: n in tables ==> Reowned(tables[n], done[n], owner))
  }

  /**
   If the step returns, no scoped table has a row of project 0 left, every such row
   went to the named owner, and nothing else changed.
   */
  lemma BackfillAssignsAll(c: Config, tables: Tables)
    requires BackfillLegacyProject(c, tables).Ok?
    ensures Assigned(c, tables, BackfillLegacyProject(c, tables).value)
  {
    OwnerIsNamed(c, tables);
    var done := BackfillLegacyProject(c, tables).value;
    var owner := LegacyProjectId(c, tables).value;
    if owner.Some? {
      assert Names(c, owner.value);
      forall n: Name | n in tables ensures Reowned(tables[n], done[n], owner.value) {
        NoZeroLeft(tables, done, owner.value, n);
      }
    }
  }

  function RowsIn(t: Table): seq<Entry> {
    if t.Missing? then [] else t.rows
  }

  // No project yet: the table has no such column, or the row has project 0.
  predicate Ownerless(t: Table, r: Entry) {
    t.Unscoped? || r.projectId == 0
  }

  // u is t scoped: the same rows in place, each of its project, or of owner if it had none.
  ghost predicate ScopedTo(t: Table, u: Table, owner: int) {
    && u.Scoped? && |u.rows| == |RowsIn(t)|
    && forall i :: 0 <= i < |u.rows| ==>
         u.rows[i] == if Ownerless(t, RowsIn(t)[i]) then RowsIn(t)[i].(projectId := owner) else RowsIn(t)[i]
  }

  // What the upgrade makes of one table; only the retry tables are made or scoped.
  ghost predicate UpgradedTable(n: Name, t: Table, u: Table, owner: int) {
    if n == RetryQueue || n == Dlq || t.Scoped? then ScopedTo(t, u, owner) else u == t
  }

  // Some row the upgrade has to find an owner for.
  ghost predicate NeedsOwner(tables: Tables) {
    exists n: Name, i :: n in tables && (n == RetryQueue || n == Dlq || tables[n].Scoped?) &&
      0 <= i < |RowsIn(tables[n])| && Ownerless(tables[n], RowsIn(tables[n])[i])
  }

  /**
   The whole upgrade against the tables it started from: both retry tables end scoped,
   made empty if they were missing; every row of a scoped table is where it was, of the
   named owner if it had no project and unchanged otherwise; the other tables stay.
   */
  lemma UpgradeAssignsAll(c: Config, tables: Tables)
    requires RetryQueue in tables && Dlq in tables && Upgrade(c, tables).Ok?
    ensures Upgrade(c, tables).value.Keys == tables.Keys && !HasUnassigned(Upgrade(c, tables).value)
    ensures exists owner :: UpgradeDone(c, tables, Upgrade(c, tables).value, owner)
  {
    var scoped, done := AddScopes(tables), Upgrade(c, tables).value;
    BackfillAssignsAll(c, scoped);
    if exists owner :: Names(c, owner) && forall n: Name :: n in scoped ==> Reowned(scoped[n], done[n], owner) {
      var owner :| Names(c, owner) && forall n: Name :: n in scoped ==> Reowned(scoped[n], done[n], owner);
      forall n: Name | n in tables ensures UpgradedTable(n, tables[n], done[n], owner) {
        ReownedFromStart(tables, n, done[n], owner);
      }
      assert UpgradeDone(c, tables, done, owner);
    } else {
      NothingNeedsOwner(tables);
      forall n: Name | n in tables ensures UpgradedTable(n, tables[n], done[n], 0) {
        ReownedFromStart(tables, n, done[n], 0);
      }
      assert UpgradeDone(c, tables, done, 0);
    }
  }

  // u is t after both revisions: every table that was there has its rows in place, each
  // of its project, or of owner if it had none; a missing retry table is made empty.
  ghost predicate FinalTable(n: Name, t: Table, u: Table, owner: int) {
    if t.Missing? && n != RetryQueue && n != Dlq then u == t else ScopedTo(t, u, owner)
  }

  // Some row of any table has no project yet.
  ghost predicate SomeRowOwnerless(tables: Tables) {
    exists n: Name, i :: n in tables && 0 <= i < |RowsIn(tables[n])| && Ownerless(tables[n], RowsIn(tables[n])[i])
  }

  // All tables after both revisions, with owner for the ownerless rows.
  ghost predicate BothDone(c: Config, tables: Tables, done: Tables, owner: int) {
    && (Names(c, owner) || !SomeRowOwnerless(tables))
    && forall n: Name :: n in tables && n in done ==> FinalTable(n, tables[n], done[n], owner)
  }

  ghost predicate UpgradeDone(c: Config, tables: Tables, done: Tables, owner: int) {
    && (Names(c, owner) || !NeedsOwner(tables))
    && forall n: Name :: n in tables && n in done ==> UpgradedTable(n, tables[n], done[n], owner)
  }

  /**
   Both revisions together, against the rows they started from: every row keeps its
   place and its columns, and has a project, its own or that of the named owner.
   */
  lemma WidenThenUpgrade(c: Config, tables: Tables, wide: Tables)
    requires Widened(tables, wide) && RetryQueue in tables && Dlq in tables && Upgrade(c, wide).Ok?
    ensures Upgrade(c, wide).value.Keys == tables.Keys && !HasUnassigned(Upgrade(c, wide).value)
    ensures exists owner :: BothDone(c, tables, Upgrade(c, wide).value, owner)
  {
    UpgradeAssignsAll(c, wide);
    var owner :| UpgradeDone(c, wide, Upgrade(c, wide).value, owner);
    BothFromUpgrade(c, tables, wide, Upgrade(c, wide).value, owner);
  }

  lemma BothFromUpgrade(c: Config, tables: Tables, wide: Tables, done: Tables, owner: int)
    requires Widened(tables, wide) && UpgradeDone(c, wide, done, owner)
    ensures BothDone(c, tables, done, owner)
  {
    forall n: Name | n in tables && n in done ensures FinalTable(n, tables[n], done[n], owner) {
      assert n in wide && UpgradedTable(n, wide[n], done[n], owner);
      FinalFromWide(n, tables[n], wide[n], done[n], owner);
    }
    if SomeRowOwnerless(tables) {
      WideNeedsOwner(tables, wide);
    }
  }

  lemma WideNeedsOwner(tables: Tables, wide: Tables)
    requires Widened(tables, wide) && SomeRowOwnerless(tables)
    ensures NeedsOwner(wide)
  {
    var n: Name, i :| n in tables && 0 <= i < |RowsIn(tables[n])| && Ownerless(tables[n], RowsIn(tables[n])[i]);
    assert n in wide && Ownerless(wide[n], RowsIn(wide[n])[i]);
  }

  lemma FinalFromWide(n: Name, t: Table, w: Table, u: Table, owner: int)
    requires UpgradedTable(n, w, u, owner)
    requires if Widens(n) && t.Unscoped? then
        w.Scoped? && |w.rows| == |t.rows| && forall i :: 0 <= i < |t.rows| ==> w.rows[i] == t.rows[i].(projectId := 0)
      else w == t
    ensures FinalTable(n, t, u, owner)
  {
    if Widens(n) && t.Unscoped? {
      forall i | 0 <= i < |u.rows| ensures u.rows[i] == t.rows[i].(projectId := owner) {
        assert Ownerless(w, RowsIn(w)[i]);
      }
    }
  }

  lemma ReownedFromStart(tables: Tables, n: Name, u: Table, owner: int)
    requires RetryQueue in tables && Dlq in tables && n in tables
    requires Reowned(AddScopes(tables)[n], u, owner)
    ensures UpgradedTable(n, tables[n], u, owner)
  {
  }

  lemma NeedsOwnerIsUnassigned(tables: Tables)
    requires RetryQueue in tables && Dlq in tables && NeedsOwner(tables)
    ensures HasUnassigned(AddScopes(tables))
  {
    var n: Name, i :| n in tables && (n == RetryQueue || n == Dlq || tables[n].Scoped?) &&
      0 <= i < |RowsIn(tables[n])| && Ownerless(tables[n], RowsIn(tables[n])[i]);
    var t := AddScopes(tables)[n];
    assert t.Scoped? && t.rows[i].projectId == 0;
    assert Unassigned(t.rows);
  }

  lemma NothingNeedsOwner(tables: Tables)
    requires RetryQueue in tables && Dlq in tables && !HasUnassigned(AddScopes(tables))
    ensures !NeedsOwner(tables)
    ensures forall n: Name :: n in tables ==> Reowned(AddScopes(tables)[n], AddScopes(tables)[n], 0)
  {
    if NeedsOwner(tables) {
      NeedsOwnerIsUnassigned(tables);
    }
    forall n: Name | n in tables && AddScopes(tables)[n].Scoped? ensures !Unassigned(AddScopes(tables)[n].rows) {
      assert n in AddScopes(tables);
    }
  }

  lemma NoZeroLeft(tables: Tables, done: Tables, owner: int, n: Name)
    requires n in tables && done == BackfillAll(tables, owner) && !HasUnassigned(done)
    ensures Reowned(tables[n], done[n], owner)
  {
    if tables[n].Scoped? {
      var rows, after := tables[n].rows, done[n].rows;
      forall i | 0 <= i < |rows|
        ensures after[i] == if rows[i].projectId == 0 then rows[i].(projectId := owner) else rows[i]
      {
        assert after[i] == Owned(rows, rows[i], owner);
        assert after[i].projectId == 0 ==> Unassigned(after);
      }
    }
  }

  // The retry tables are keyed by their own id.
  ghost predicate IdKeyed(rows: seq<Entry>) {
    && (forall i :: 0 <= i < |rows| ==> rows[i].key == IntKey(rows[i].id))
    && forall i, j :: 0 <= i < j < |rows| ==> rows[i].id != rows[j].id
  }

  /** A table keyed by its own id is never what makes the step refuse. */
  lemma IdKeyedNeverConflicts(rows: seq<Entry>, owner: int)
    requires IdKeyed(rows) && owner != 0
    ensures !Conflicts(rows, owner) && !Unassigned(Backfill(rows, owner)) && ScopedUnique(rows)
  {
    BackfillLeavesConflicts(rows, owner);
    forall i, j | 0 <= i < |rows| && 0 <= j < |rows| && rows[i].key == rows[j].key ensures i == j {
      assert IntKey(rows[i].id) == IntKey(rows[j].id);
    }
  }

  // ---------- the step as it is written ----------

  class Migration {
    const config: Config
    var tables: Tables

    constructor (config: Config, tables: Tables)
      ensures this.config == config && this.tables == tables
    {
      this.config := config;
      this.tables := tables;
    }

    // Adding project_id and replacing the unique key, table by table; creating the
    // new constraint fails on a table that already breaks it.
    method WidenKeys() returns (r: Outcome<()>)
      modifies this
      ensures r.Ok? <==> forall n: Name :: n in old(tables) && Widens(n) && old(tables)[n].Unscoped? ==> KeyUnique(old(tables)[n].rows)
      ensures r.Ok? ==> Widened(old(tables), tables)
      ensures r.Refused? ==> r.why == DuplicateKeys
    {
      for i := 0 to |WIDENED|
        invariant tables.Keys == old(tables).Keys
        invariant forall n: Name :: n in tables ==>
          tables[n] == if n in WIDENED[..i] then WidenTable(old(tables)[n]) else old(tables)[n]
        invariant forall k :: 0 <= k < i && WIDENED[k] in old(tables) && old(tables)[WIDENED[k]].Unscoped? ==>
          KeyUnique(old(tables)[WIDENED[k]].rows)
      {
        var n := WIDENED[i];
        assert n !in WIDENED[..i] && WIDENED[..i + 1] == WIDENED[..i] + [n];
        if n in tables && tables[n].Unscoped? {
          var wide := WithProjectZero(tables[n].rows);
          WideningKeepsUnique(tables[n].rows);
          if !ScopedUnique(wide) {
            WidenedNames();
            assert Widens(n) && !KeyUnique(old(tables)[n].rows);
            return Refused(DuplicateKeys);
          }
          tables := tables[n := Scoped(wide)];
        }
      }
      assert WIDENED[..|WIDENED|] == WIDENED;
      WidenedNames();
      return Ok(());
    }

    method HasUnassignedRows() returns (found: bool)
      ensures found == HasUnassigned(tables)
    {
      for i := 0 to |NAMES|
        invariant forall k :: 0 <= k < i ==>
          NAMES[k] !in tables || !tables[NAMES[k]].Scoped? || !Unassigned(tables[NAMES[k]].rows)
      {
        if NAMES[i] in tables && tables[NAMES[i]].Scoped? && Unassigned(tables[NAMES[i]].rows) {
          return true;
        }
      }
      forall n: Name | n in tables && tables[n].Scoped? ensures !Unassigned(tables[n].rows) {
        assert NAMES[Place(n)] == n;
      }
      return false;
    }

    method ResolveOwner() returns (r: Outcome<Option<int>>)
      ensures r == LegacyProjectId(config, tables)
    {
      var legacy := LegacyId(config);
      if config.projects.Blank? {
        var unassigned := HasUnassignedRows();
        return if legacy.None? && unassigned then Refused(NoOwner) else Ok(legacy);
      }
      if config.projects.Malformed? || !Iterable(config.projects.doc) {
        return Refused(InvalidProjects);
      }
      if legacy.Some? && Configured(config, legacy.value) {
        return Ok(legacy);
      }
      var unassigned := HasUnassignedRows();
      return if unassigned then Refused(OwnerNotListed) else Ok(None);
    }

    method BackfillRows() returns (r: Outcome<()>)
      modifies this
      ensures r.Ok? ==> BackfillLegacyProject(config, old(tables)) == Ok(tables)
      ensures r.Refused? ==> BackfillLegacyProject(config, old(tables)) == Refused(r.why)
    {
      var resolved := ResolveOwner();
      if resolved.Refused? {
        return Refused(resolved.why);
      }
      if resolved.value.None? {
        return Ok(());
      }
      var owner := resolved.value.value;
      for i := 0 to |NAMES|
        invariant tables.Keys == old(tables).Keys
        invariant forall n: Name :: n in tables ==>
          tables[n] == if n in NAMES[..i] then BackfillTable(old(tables)[n], owner) else old(tables)[n]
      {
        var n := NAMES[i];
        NamesOnce(i);
        if n in tables && tables[n].Scoped? {
          tables := tables[n := Scoped(Backfill(tables[n].rows, owner))];
        }
      }
      AllNames();
      assert tables == BackfillAll(old(tables), owner) by {
        assert forall n: Name :: n in tables <==> n in BackfillAll(old(tables), owner);
        assert forall n: Name :: n in tables ==> tables[n] == BackfillAll(old(tables), owner)[n];
      }
      var conflict := HasUnassignedRows();
      return if conflict then Refused(KeyConflict) else Ok(());
    }

    method RunUpgrade() returns (r: Outcome<()>)
      requires RetryQueue in tables && Dlq in tables
      modifies this
      ensures r.Ok? ==> Upgrade(config, old(tables)) == Ok(tables)
      ensures r.Refused? ==> Upgrade(config, old(tables)) == Refused(r.why)
    {
      tables := tables[RetryQueue := AddScope(tables[RetryQueue])];
      tables := tables[Dlq := AddScope(tables[Dlq])];
      r := BackfillRows();
    }

    /** The widening revision and then this one. */
    method RunBothRevisions() returns (r: Outcome<()>)
      requires RetryQueue in tables && Dlq in tables
      modifies this
      ensures r.Ok? ==> tables.Keys == old(tables).Keys && !HasUnassigned(tables)
      ensures r.Ok? ==> exists owner :: BothDone(config, old(tables), tables, owner)
    {
      r := WidenKeys();
      if r.Refused? {
        return;
      }
      ghost var wide := tables;
      r := RunUpgrade();
      if r.Ok? {
        WidenThenUpgrade(config, old(tables), wide);
      }
    }
  }

  function Place(n: Name): (i: nat)
    ensures i < |NAMES| && NAMES[i] == n
  {
    match n
    case MergeRequests => 0
    case History => 1
    case Hourly => 2
    case Daily => 3
    case RetryQueue => 4
    case Dlq => 5
  }

  lemma AllNames()
    ensures forall n: Name :: n in NAMES[..|NAMES|]
  {
    forall n: Name ensures n in NAMES[..|NAMES|] {
      assert NAMES[..|NAMES|][Place(n)] == n;
    }
  }

  lemma NamesOnce(i: nat)
    requires i < |NAMES|
    ensures NAMES[i] !in NAMES[..i]
    ensures NAMES[..i + 1] == NAMES[..i] + [NAMES[i]]
  {
  }
}

/**
 Queue identities across a whole migration run: whatever the migrations do to the
 sequence of merge_requests, what was issued before stays issued.
 */
module QueueIdentity {
  import opened Results
  import Backoff

  // rows: the merge_requests rows of sqlite_sequence, None while SQLite has no such
  // table. autoincrement: what the definition of merge_requests says, None if the
  // table is missing.
  datatype Catalog = Catalog(rows: Option<seq<int>>, autoincrement: Option<bool>)

  // SELECT MAX(seq): NULL over no rows.
  function MaxRow(rows: seq<int>): Option<int> {
    if rows == [] then None
    else
      match MaxRow(rows[1..])
      case None => Some(rows[0])
      case Some(m) => Some(Backoff.Max(rows[0], m))
  }

  lemma {:induction false} MaxRowIsMax(rows: seq<int>)
    ensures rows != [] <==> MaxRow(rows).Some?
    ensures forall i :: 0 <= i < |rows| ==> MaxRow(rows).Some? && rows[i] <= MaxRow(rows).value
    ensures MaxRow(rows).Some? ==> exists i :: 0 <= i < |rows| && rows[i] == MaxRow(rows).value
  {
    if rows != [] {
      MaxRowIsMax(rows[1..]);
      assert forall i :: 0 < i < |rows| ==> rows[i] == rows[1..][i - 1];
      if MaxRow(rows[1..]).Some? && rows[0] < MaxRow(rows[1..]).value {
        var i :| 0 <= i < |rows[1..]| && rows[1..][i] == MaxRow(rows[1..]).value;
        assert rows[i + 1] == MaxRow(rows).value;
      } else {
        assert rows[0] == MaxRow(rows).value;
      }
    }
  }

  // The rows a run ends with: those the migrations left, each at least the mark, or
  // one new row at the mark if they left none.
  ghost predicate Raised(left: seq<int>, mark: int, end: seq<int>) {
    && (left == [] ==> end == [mark])
    && (left != [] ==>
          |end| == |left| && forall i :: 0 <= i < |left| ==> end[i] == if left[i] < mark then mark else left[i])
  }

  // The greatest of some values.
  ghost predicate Greatest(rows: seq<int>, mark: int) {
    && (exists i :: 0 <= i < |rows| && rows[i] == mark)
    && forall i :: 0 <= i < |rows| ==> rows[i] <= mark
  }

  class Connection {
    const sqlite: bool
    var catalog: Catalog

    constructor (sqlite: bool, catalog: Catalog)
      ensures this.sqlite == sqlite && this.catalog == catalog
    {
      this.sqlite := sqlite;
      this.catalog := catalog;
    }

    method QueueHighWater() returns (previous: Option<int>)
      ensures previous == if !sqlite || catalog.rows.None? then None else MaxRow(catalog.rows.value)
    {
      if !sqlite || catalog.rows.None? {
        return None;
      }
      return MaxRow(catalog.rows.value);
    }

    // Only rows of merge_requests, and only upwards.
    method RestoreQueueHighWater(previous: Option<int>)
      requires previous.Some? && catalog.autoincrement == Some(true) ==> catalog.rows.Some?
      modifies this
      ensures catalog.autoincrement == old(catalog.autoincrement)
      ensures previous.None? || catalog.autoincrement != Some(true) ==> catalog == old(catalog)
      ensures previous.Some? && catalog.autoincrement == Some(true) ==>
        catalog.rows.Some? && Raised(old(catalog).rows.value, previous.value, catalog.rows.value)
    {
      if previous.None? || catalog.autoincrement != Some(true) {
        return;
      }
      var rows := catalog.rows.value;
      if rows == [] {
        rows := [previous.value];
      }
      ghost var given := rows;
      for k := 0 to |rows|
        invariant |rows| == |given|
        invariant forall i :: 0 <= i < |rows| ==>
          rows[i] == if i < k then Backoff.Max(given[i], previous.value) else given[i]
        invariant catalog == old(catalog)
      {
        rows := rows[k := Backoff.Max(rows[k], previous.value)];
      }
      catalog := catalog.(rows := Some(rows));
    }

    // after is whatever the chain of migrations leaves; SQLite keeps sqlite_sequence
    // while an AUTOINCREMENT table exists.
    method RunMigrations(after: Catalog)
      requires after.autoincrement == Some(true) && sqlite ==> after.rows.Some?
      modifies this
      ensures sqlite && after.autoincrement == Some(true) && old(catalog).rows.Some? && old(catalog).rows.value != [] ==>
        && catalog.rows.Some?
        && exists mark :: Greatest(old(catalog).rows.value, mark) && Raised(after.rows.value, mark, catalog.rows.value)
      ensures old(catalog).rows.None? || old(catalog).rows.value == [] ==> catalog == after
      ensures catalog.autoincrement == after.autoincrement
      ensures after.autoincrement != Some(true) || !sqlite ==> catalog == after
    {
      var previous := QueueHighWater();
      if sqlite && catalog.rows.Some? {
        MaxRowIsMax(catalog.rows.value);
        assert previous.Some? ==> Greatest(catalog.rows.value, previous.value);
      }
      catalog := after;
      RestoreQueueHighWater(previous);
    }
  }

  /** So nothing issued before the run, or by it, can be issued again. */
  lemma RaisedForgetsNothing(before: seq<int>, left: seq<int>, mark: int, end: seq<int>)
    requires Greatest(before, mark) && Raised(left, mark, end)
    ensures end != []
    ensures forall i, j :: 0 <= i < |before| && 0 <= j < |end| ==> before[i] <= end[j]
    ensures forall i :: 0 <= i < |left| ==> left[i] <= end[i]
    ensures forall j :: 0 <= j < |end| ==> end[j] == mark || (j < |left| && end[j] == left[j])
  {
  }
}

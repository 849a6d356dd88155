/**
 The client's copy of the server queue: what the three event handlers of the hook
 do one message at a time, and what the copy is in terms of all messages so far.
 */
module QueueView {
  import opened Sequences

  // status is the only field a delta touches; details stands for the others.
  datatype MergeRequest = MergeRequest(iid: int, status: string, details: string)

  datatype Stats = NoStats | Stats(queued: int, rebasing: int, testing: int, merging: int)

  datatype Message =
    | QueueUpdated(project: int, queue: seq<MergeRequest>, stats: Stats)
    | StatusChanged(project: int, iid: int, newStatus: string)
    | Completed(project: int, iid: int)
      // invalid JSON or a type nobody listens to
    | Other

  datatype Copy = Copy(queue: seq<MergeRequest>, stats: Stats, hasSnapshot: bool)

  const EMPTY := Copy([], NoStats, false)

  // prev.map(..) and prev.filter(..)
  function Handle(project: int, c: Copy, m: Message): Copy {
    match m
    case QueueUpdated(p, queue, stats) => if p == project then Copy(queue, stats, true) else c
    case StatusChanged(p, iid, status) =>
      if p == project then
        c.(queue := seq(|c.queue|, i requires 0 <= i < |c.queue| =>
          if c.queue[i].iid == iid then c.queue[i].(status := status) else c.queue[i]))
      else c
    case Completed(p, iid) =>
      if p == project then c.(queue := Filter((mr: MergeRequest) => mr.iid != iid, c.queue)) else c
    case Other => c
  }

  function HandleAll(project: int, log: seq<Message>): Copy {
    if log == [] then EMPTY else Handle(project, HandleAll(project, log[..|log| - 1]), log[|log| - 1])
  }

  // ---------- the copy in terms of the whole log ----------

  predicate IsSnapshot(project: int, m: Message) {
    m.QueueUpdated? && m.project == project
  }

  // One past the last snapshot for the project, 0 if there is none.
  function AfterSnapshot(project: int, log: seq<Message>): (n: nat)
    ensures n <= |log|
    ensures n > 0 ==> IsSnapshot(project, log[n - 1])
    ensures forall i :: n <= i < |log| ==> !IsSnapshot(project, log[i])
  {
    if log == [] then 0
    else if IsSnapshot(project, log[|log| - 1]) then |log|
    else AfterSnapshot(project, log[..|log| - 1])
  }

  predicate CompletedIn(project: int, log: seq<Message>, iid: int) {
    exists i :: 0 <= i < |log| && log[i] == Completed(project, iid)
  }

  predicate Restates(project: int, m: Message, iid: int) {
    m.StatusChanged? && m.project == project && m.iid == iid
  }

  // The status after the last change of one merge request, or the one it had.
  function LatestStatus(project: int, log: seq<Message>, iid: int, status: string): string {
    if log == [] then status
    else if Restates(project, log[|log| - 1], iid) then log[|log| - 1].newStatus
    else LatestStatus(project, log[..|log| - 1], iid, status)
  }

  // The merge requests of a snapshot that were not completed since, in order,
  // each with its latest status since.
  function Since(project: int, snapshot: seq<MergeRequest>, log: seq<Message>): seq<MergeRequest> {
    if snapshot == [] then []
    else
      var mr := snapshot[0];
      (if CompletedIn(project, log, mr.iid) then []
       else [mr.(status := LatestStatus(project, log, mr.iid, mr.status))]) +
      Since(project, snapshot[1..], log)
  }

  function Expected(project: int, log: seq<Message>): Copy {
    var n := AfterSnapshot(project, log);
    if n == 0 then EMPTY
    else Copy(Since(project, log[n - 1].queue, log[n..]), log[n - 1].stats, true)
  }

  // ---------- one more message ----------

  lemma {:induction false} SinceNothing(project: int, snapshot: seq<MergeRequest>)
    ensures Since(project, snapshot, []) == snapshot
  {
    if snapshot != [] {
      SinceNothing(project, snapshot[1..]);
      assert snapshot == [snapshot[0]] + snapshot[1..];
    }
  }

  lemma CompletedMore(project: int, log: seq<Message>, m: Message, iid: int)
    ensures CompletedIn(project, log + [m], iid) <==> CompletedIn(project, log, iid) || m == Completed(project, iid)
  {
    if CompletedIn(project, log, iid) {
      var i :| 0 <= i < |log| && log[i] == Completed(project, iid);
      assert (log + [m])[i] == Completed(project, iid);
    }
    if m == Completed(project, iid) {
      assert (log + [m])[|log|] == m;
    }
  }

  lemma StatusMore(project: int, log: seq<Message>, m: Message, iid: int, status: string)
    ensures LatestStatus(project, log + [m], iid, status) ==
      if Restates(project, m, iid) then m.newStatus else LatestStatus(project, log, iid, status)
  {
    assert (log + [m])[..|log|] == log;
  }

  // The effect of one delta on a list, as Handle has it.
  function Delta(project: int, queue: seq<MergeRequest>, m: Message): seq<MergeRequest> {
    Handle(project, Copy(queue, NoStats, true), m).queue
  }

  lemma DeltaAppend(project: int, p: seq<MergeRequest>, q: seq<MergeRequest>, m: Message)
    requires !IsSnapshot(project, m)
    ensures Delta(project, p + q, m) == Delta(project, p, m) + Delta(project, q, m)
  {
    if m.Completed? && m.project == project {
      FilterAppend((mr: MergeRequest) => mr.iid != m.iid, p, q);
    }
  }

  lemma DeltaOne(project: int, mr: MergeRequest, m: Message)
    requires !IsSnapshot(project, m)
    ensures Delta(project, [mr], m) ==
      if m == Completed(project, mr.iid) then []
      else if Restates(project, m, mr.iid) then [mr.(status := m.newStatus)]
      else [mr]
  {
    if m.Completed? && m.project == project {
      assert [mr][1..] == [];
      assert Filter((x: MergeRequest) => x.iid != m.iid, [mr]) == if mr.iid != m.iid then [mr] else [];
    }
  }

  lemma {:induction false} SinceMore(project: int, snapshot: seq<MergeRequest>, log: seq<Message>, m: Message)
    requires !IsSnapshot(project, m)
    ensures Since(project, snapshot, log + [m]) == Delta(project, Since(project, snapshot, log), m)
  {
    if snapshot != [] {
      var mr, rest := snapshot[0], Since(project, snapshot[1..], log);
      SinceMore(project, snapshot[1..], log, m);
      CompletedMore(project, log, m, mr.iid);
      StatusMore(project, log, m, mr.iid, mr.status);
      var now := mr.(status := LatestStatus(project, log, mr.iid, mr.status));
      if CompletedIn(project, log, mr.iid) {
        assert Since(project, snapshot, log) == rest;
      } else {
        assert Since(project, snapshot, log) == [now] + rest;
        DeltaAppend(project, [now], rest, m);
        DeltaOne(project, now, m);
      }
    }
  }

  lemma SnapshotMore(project: int, log: seq<Message>, m: Message)
    ensures AfterSnapshot(project, log + [m]) == if IsSnapshot(project, m) then |log| + 1 else AfterSnapshot(project, log)
  {
    assert (log + [m])[..|log|] == log;
  }

  /** Handling one more message takes the expected copy to the next expected copy. */
  lemma HandleIsExpected(project: int, log: seq<Message>, m: Message)
    ensures Handle(project, Expected(project, log), m) == Expected(project, log + [m])
  {
    var n := AfterSnapshot(project, log);
    SnapshotMore(project, log, m);
    if IsSnapshot(project, m) {
      assert (log + [m])[|log|] == m && (log + [m])[|log| + 1..] == [];
      SinceNothing(project, m.queue);
    } else if n > 0 {
      assert (log + [m])[n..] == log[n..] + [m] && (log + [m])[n - 1] == log[n - 1];
      SinceMore(project, log[n - 1].queue, log[n..], m);
    }
  }

  /**
   After any messages the copy is the last snapshot of the project, in its order,
   minus what was completed since, each with its latest status since.
   */
  lemma {:induction false} CopyIsExpected(project: int, log: seq<Message>)
    ensures HandleAll(project, log) == Expected(project, log)
  {
    if log != [] {
      var init, last := log[..|log| - 1], log[|log| - 1];
      CopyIsExpected(project, init);
      HandleIsExpected(project, init, last);
      assert init + [last] == log;
    }
  }

  /** Messages for other projects never change the copy, wherever they come. */
  lemma {:induction false} ForeignMessagesDoNotMatter(project: int, log: seq<Message>)
    ensures HandleAll(project, log) ==
      HandleAll(project, Filter((m: Message) => !m.Other? && m.project == project, log))
  {
    if log != [] {
      var own := (m: Message) => !m.Other? && m.project == project;
      var init, last := log[..|log| - 1], log[|log| - 1];
      ForeignMessagesDoNotMatter(project, init);
      assert log == init + [last];
      FilterAppend(own, init, [last]);
      assert [last][1..] == [];
      assert Filter(own, [last]) == if own(last) then [last] else [];
      if own(last) {
        var kept := Filter(own, init);
        assert (kept + [last])[..|kept|] == kept && (kept + [last])[|kept|] == last;
      } else {
        assert Filter(own, init) + [] == Filter(own, init);
      }
    }
  }
}

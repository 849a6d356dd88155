/**
 What each event means for someone who watches: the page, the sockets, the timers and
 the state after it, in the terms of the events alone. The last part follows what the
 page on screen was sent over a whole run.
 */
module ConnectionEvents {
  import opened Results
  import Backoff
  import opened QueueView
  import opened Connection

  // The page on screen shows the manager's state.
  ghost predicate Shows(w: World, project: int, state: ConnState) {
    && w.view.subscribed && w.view.projectId == Some(project)
    && w.view.state == state && w.manager.state == state
  }

  // A new socket for the project has been opened, and is the manager's; the sockets
  // before it are as many as they were.
  ghost predicate OpensFor(w: World, w': World, project: int) {
    && |w'.browser.sockets| == |w.browser.sockets| + 1
    && w'.browser.sockets[|w.browser.sockets|] == Socket(project, Opening, true)
    && w'.manager.socket == Some(|w.browser.sockets|)
    && w'.manager.activeProjectId == Some(project)
    && w'.browser.timers == map[]
    && Shows(w', project, Connecting)
    && !w'.view.isSynchronized
  }

  // No socket is open or armed for, and none was opened.
  ghost predicate OpensNone(w: World, w': World) {
    && |w'.browser.sockets| == |w.browser.sockets|
    && w'.manager.socket.None? && w'.browser.timers == map[]
  }

  // Every socket but one is as it was.
  ghost predicate OnlySocket(w: World, w': World, id: nat, phase: Phase) {
    && id < |w.browser.sockets|
    && w'.browser.sockets == w.browser.sockets[id := w.browser.sockets[id].(phase := phase)]
  }

  // ---------- the interface ----------

  /** Showing a project with a token opens a socket for it, whatever was there before. */
  lemma ShowOpensSocket(w: World, project: int)
    requires Inv(w) && w.browser.token
    ensures var w' := Step(w, Show(Some(project)));
      && OpensFor(w, w', project)
      && w'.view.copy == EMPTY && w'.browser.token && w'.manager.reconnectAttempts == 0
      && w'.log == [] && w'.snapshotOn == None
  {
    CleanupKeeps(w);
    SocketCountOnHide(w);
    var c := Cleanup(w);
    var w1 := c.(view := View(Some(project), true, Connecting, EMPTY, false), log := [], snapshotOn := None);
    assert MayConnect(w1, project);
    SwitchIsQuiet(w1, project);
  }

  /** Without a token it opens none and waits for nothing. */
  lemma ShowWithoutToken(w: World, project: int)
    requires Inv(w) && !w.browser.token
    ensures var w' := Step(w, Show(Some(project)));
      && OpensNone(w, w') && Shows(w', project, Disconnected)
      && w'.view.copy == EMPTY && !w'.view.isSynchronized && w'.manager.activeProjectId.None?
      && w'.log == [] && w'.snapshotOn == None
  {
    CleanupKeeps(w);
    SocketCountOnHide(w);
  }

  /** Showing no project, or nothing at all, leaves nothing open or armed. */
  lemma ShowNothing(w: World)
    requires Inv(w)
    ensures OpensNone(w, Step(w, Show(None))) && !Step(w, Show(None)).view.subscribed
    ensures OpensNone(w, Step(w, Hide)) && !Step(w, Hide).view.subscribed
    ensures Step(w, Show(None)).view.copy == EMPTY && Step(w, Show(None)).view.state == Disconnected
  {
    CleanupKeeps(w);
    SocketCountOnHide(w);
  }

  // The manager's socket was closed with its handlers removed first, no other touched.
  ghost predicate Closed(w: World, w': World) {
    && |w.browser.sockets| <= |w'.browser.sockets|
    && forall i :: 0 <= i < |w.browser.sockets| ==>
         w'.browser.sockets[i] ==
           if w.manager.socket == Some(i) then w.browser.sockets[i].(attached := false, phase := Ending) else w.browser.sockets[i]
  }

  lemma DisconnectCloses(w: World)
    requires SocketOwned(w)
    ensures Closed(w, Disconnect(w)) && |Disconnect(w).browser.sockets| == |w.browser.sockets|
  {
  }

  // Without a socket a further disconnect closes nothing.
  lemma ConnectClosesNothing(w: World, project: int)
    requires w.manager.socket.None?
    ensures |w.browser.sockets| <= |Connect(w, project).browser.sockets|
    ensures Connect(w, project).browser.sockets[..|w.browser.sockets|] == w.browser.sockets
  {
  }

  /** Leaving a page, or asking to reconnect, closes the socket there was. */
  lemma LeavingCloses(w: World, ev: Event)
    requires Inv(w) && (Explicit(ev) || ev.Hide?) && (w.view.subscribed || !ev.UserReconnects?)
    ensures Closed(w, Step(w, ev))
  {
    match ev
    case Hide => HideCloses(w);
    case Show(project) => ShowCloses(w, project);
    case UserReconnects => ReconnectCloses(w);
  }

  lemma HideCloses(w: World)
    requires Inv(w)
    ensures Closed(w, Cleanup(w))
  {
    if w.view.subscribed {
      DisconnectCloses(w.(view := w.view.(subscribed := false)));
    }
  }

  lemma ClosedThen(w: World, d: World, c: World)
    requires Closed(w, d) && |d.browser.sockets| <= |c.browser.sockets|
    requires c.browser.sockets[..|d.browser.sockets|] == d.browser.sockets
    ensures Closed(w, c)
  {
    assert forall i :: 0 <= i < |d.browser.sockets| ==> c.browser.sockets[i] == c.browser.sockets[..|d.browser.sockets|][i];
  }

  lemma ShowCloses(w: World, project: Option<int>)
    requires Inv(w)
    ensures Closed(w, Step(w, Show(project)))
  {
    HideCloses(w);
    CleanupKeeps(w);
    var c := Cleanup(w);
    if project.Some? && c.browser.token {
      var w1 := c.(view := View(project, true, Connecting, EMPTY, false), log := [], snapshotOn := None);
      ConnectClosesNothing(w1, project.value);
      ClosedThen(w, w1, Connect(w1, project.value));
    }
  }

  lemma ReconnectCloses(w: World)
    requires Inv(w) && w.view.subscribed
    ensures Closed(w, Step(w, UserReconnects))
  {
    var project := w.view.projectId.value;
    var w1 := w.(view := w.view.(isSynchronized := false));
    DisconnectCloses(w1);
    var d := Disconnect(w1);
    var w2 := d.(manager := d.manager.(activeProjectId := Some(project), intentionalDisconnect := false, reconnectAttempts := 0));
    ConnectClosesNothing(w2, project);
    ClosedThen(w, w2, Connect(w2, project));
  }

  /** Asking to reconnect opens a new socket for the project on screen. */
  lemma ReconnectOpensSocket(w: World, project: int)
    requires Inv(w) && w.browser.token && w.view.subscribed && w.view.projectId == Some(project)
    ensures var w' := Step(w, UserReconnects);
      OpensFor(w, w', project) && w'.view.copy == w.view.copy && w'.manager.reconnectAttempts == 0
  {
    var w1 := w.(view := w.view.(isSynchronized := false));
    DisconnectQuiets(w1);
    var d := Disconnect(w1);
    var w2 := d.(manager := d.manager.(activeProjectId := Some(project), intentionalDisconnect := false, reconnectAttempts := 0));
    assert MayConnect(w2, project);
    SwitchIsQuiet(w2, project);
    assert Step(w, UserReconnects) == Connect(w2, project);
  }

  lemma ReconnectWithoutToken(w: World, project: int)
    requires Inv(w) && !w.browser.token && w.view.subscribed && w.view.projectId == Some(project)
    ensures var w' := Step(w, UserReconnects);
      OpensNone(w, w') && Shows(w', project, Error) && !w'.view.isSynchronized && w'.view.copy == w.view.copy
  {
    var w1 := w.(view := w.view.(isSynchronized := false));
    DisconnectQuiets(w1);
  }

  // ---------- the browser ----------

  // The events of the manager's own socket, which is the page's.
  ghost predicate OwnSocket(w: World, id: nat, project: int) {
    && Inv(w) && w.manager.socket == Some(id)
    && id < |w.browser.sockets| && w.browser.sockets[id].project == project
  }

  lemma OwnIsOnScreen(w: World, id: nat, project: int)
    requires OwnSocket(w, id, project)
    ensures w.view.subscribed && w.view.projectId == Some(project) && w.manager.activeProjectId == Some(project)
    ensures w.browser.sockets[id].attached && w.browser.timers == map[]
  {
  }

  /** The socket opens: connected, and not synchronized before a snapshot. */
  lemma OpenMeans(w: World, id: nat, project: int)
    requires OwnSocket(w, id, project) && w.browser.sockets[id].phase == Opening
    ensures var w' := Step(w, SocketOpens(id));
      && OnlySocket(w, w', id, Open) && Shows(w', project, Connected) && !w'.view.isSynchronized
      && w'.manager.socket == Some(id) && w'.browser.timers == map[] && w'.manager.reconnectAttempts == 0
      && w'.view.copy == w.view.copy
  {
    OwnIsOnScreen(w, id, project);
  }

  /** The socket fails: an error is shown, nothing is synchronized any more. */
  lemma FailMeans(w: World, id: nat, project: int)
    requires OwnSocket(w, id, project)
    ensures var w' := Step(w, SocketFails(id));
      && OnlySocket(w, w', id, Ending) && Shows(w', project, Error) && !w'.view.isSynchronized
      && w'.manager.socket == Some(id) && w'.browser.timers == map[] && w'.view.copy == w.view.copy
      && w'.manager.reconnectAttempts == w.manager.reconnectAttempts
  {
    OwnIsOnScreen(w, id, project);
  }

  /** The socket closes with code 1008: an error, no timer, the token gone if it was to blame. */
  lemma PolicyCloseMeans(w: World, id: nat, project: int, badToken: bool)
    requires OwnSocket(w, id, project)
    ensures var w' := Step(w, SocketCloses(id, 1008, badToken));
      && OnlySocket(w, w', id, Gone) && Shows(w', project, Error) && !w'.view.isSynchronized
      && w'.manager.socket.None? && w'.browser.timers == map[] && w'.view.copy == w.view.copy
      && w'.browser.token == (w.browser.token && !badToken)
  {
    OwnIsOnScreen(w, id, project);
  }

  /** With any other code: disconnected, and one timer, by the count of losses so far. */
  lemma LossMeans(w: World, id: nat, project: int, code: int, badToken: bool)
    requires OwnSocket(w, id, project) && code != 1008
    ensures var w' := Step(w, SocketCloses(id, code, badToken));
      && OnlySocket(w, w', id, Gone) && Shows(w', project, Disconnected) && !w'.view.isSynchronized
      && w'.manager.socket.None? && w'.manager.activeProjectId == Some(project) && w'.view.copy == w.view.copy
      && w'.browser.timers == map[w.browser.nextTimer := Backoff.Min(1000 * Backoff.Pow2(w.manager.reconnectAttempts), 30000)]
      && w'.browser.token == w.browser.token && w'.manager.reconnectAttempts == w.manager.reconnectAttempts + 1
  {
    OwnIsOnScreen(w, id, project);
    LostCloseKeeps(w, id, code, badToken);
  }

  /** The timer fires: with a token a new socket for the same project, else an error. */
  lemma TimerMeans(w: World, timer: nat)
    requires Inv(w) && timer in w.browser.timers
    ensures w.view.projectId.Some?
    ensures w.browser.token ==> OpensFor(w, Step(w, TimerFires(timer)), w.view.projectId.value)
    ensures !w.browser.token ==>
      OpensNone(w, Step(w, TimerFires(timer))) && Shows(Step(w, TimerFires(timer)), w.view.projectId.value, Error)
    ensures Step(w, TimerFires(timer)).view.copy == w.view.copy
    ensures Step(w, TimerFires(timer)).manager.reconnectAttempts == w.manager.reconnectAttempts
  {
    assert w.browser.timers != map[];
    var w1 := w.(browser := w.browser.(timers := w.browser.timers - {timer}));
    assert forall t :: t !in w1.browser.timers;
    assert w1.browser.timers == map[];
  }

  /** A message of the open socket reaches the page, and a snapshot synchronizes it. */
  lemma MessageMeans(w: World, id: nat, project: int, m: Message)
    requires OwnSocket(w, id, project) && w.browser.sockets[id].phase == Open
    ensures var w' := Step(w, SocketMessage(id, m));
      && w'.log == w.log + [m]
      && w'.view.isSynchronized == (w.view.isSynchronized || (m.QueueUpdated? && m.project == project))
      && w'.view.copy == Handle(project, w.view.copy, m)
      && w'.snapshotOn == (if m.QueueUpdated? && m.project == project then Some(id) else w.snapshotOn)
      && w'.manager == w.manager && w'.browser == w.browser && Shows(w', project, Connected)
  {
    OwnIsOnScreen(w, id, project);
  }

  // An event of a socket that has been let go.
  ghost predicate Stray(w: World, ev: Event) {
    match ev
    case SocketOpens(id) => id < |w.browser.sockets| && !w.browser.sockets[id].attached
    case SocketMessage(id, _) => id < |w.browser.sockets| && !w.browser.sockets[id].attached
    case SocketFails(id) => id < |w.browser.sockets| && !w.browser.sockets[id].attached
    case SocketCloses(id, _, _) => id < |w.browser.sockets| && !w.browser.sockets[id].attached
    case SocketBeginsClosing(_) => true
    case _ => false
  }

  /** Such events, and a socket beginning to close, touch nothing but that socket's phase. */
  lemma StrayEventsDoNothing(w: World, ev: Event)
    requires Enabled(w, ev) && Stray(w, ev)
    ensures var w' := Step(w, ev);
      && w'.manager == w.manager && w'.view == w.view && w'.log == w.log && w'.snapshotOn == w.snapshotOn
      && w'.browser == w.browser.(sockets := w'.browser.sockets)
      && |w'.browser.sockets| == |w.browser.sockets|
      && forall i :: 0 <= i < |w.browser.sockets| ==> w'.browser.sockets[i] == w.browser.sockets[i].(phase := w'.browser.sockets[i].phase)
  {
  }

  /** A token that comes or goes changes nothing else until it is needed. */
  lemma TokenMeans(w: World, present: bool)
    ensures Step(w, TokenChanges(present)) == w.(browser := w.browser.(token := present))
  {
  }

  // ---------- what the page was sent ----------

  // Kept from outside: the project shown last, every message a socket with handlers has
  // delivered since, and the socket of the last snapshot for that project.
  datatype Seen = Seen(project: Option<int>, heard: seq<Message>, snapshot: Option<nat>)

  const NOTHING := Seen(None, [], None)

  function SeenNext(w: World, ev: Event, seen: Seen): Seen
    requires Enabled(w, ev)
  {
    match ev
    case Show(project) => Seen(project, [], None)
    case Hide => NOTHING
    case SocketMessage(id, m) =>
      if seen.project.None? || !w.browser.sockets[id].attached then seen
      else Seen(seen.project, seen.heard + [m],
        if m.QueueUpdated? && m.project == seen.project.value then Some(id) else seen.snapshot)
    case _ => seen
  }

  function SeenIn(w: World, events: seq<Event>, seen: Seen): Seen
    requires EnabledRun(w, events)
    decreases events
  {
    if events == [] then seen else SeenIn(Step(w, events[0]), events[1..], SeenNext(w, events[0], seen))
  }

  ghost predicate Agrees(w: World, seen: Seen) {
    && (w.view.subscribed <==> seen.project.Some?)
    && (w.view.subscribed ==> w.view.projectId == seen.project && w.log == seen.heard && w.snapshotOn == seen.snapshot)
  }

  // Events that are not for the page leave what it was sent alone.
  ghost predicate SameMail(w: World, w': World) {
    && w'.view.subscribed == w.view.subscribed && w'.view.projectId == w.view.projectId
    && w'.log == w.log && w'.snapshotOn == w.snapshotOn
  }

  lemma ReconnectSameMail(w: World)
    requires Inv(w)
    ensures SameMail(w, Step(w, UserReconnects))
  {
    if w.view.subscribed {
      DisconnectQuiets(w.(view := w.view.(isSynchronized := false)));
    }
  }

  lemma BrowserSameMail(w: World, ev: Event)
    requires Inv(w) && Enabled(w, ev) && !ev.Show? && !ev.Hide? && !ev.UserReconnects? && !ev.SocketMessage?
    ensures SameMail(w, Step(w, ev))
  {
    match ev
    case SocketCloses(id, code, badToken) => CloseSameMail(w, id, code, badToken);
    case TimerFires(timer) => TimerSameMail(w, timer);
    case _ =>
  }

  lemma CloseSameMail(w: World, id: nat, code: int, badToken: bool)
    requires Enabled(w, SocketCloses(id, code, badToken))
    ensures SameMail(w, Step(w, SocketCloses(id, code, badToken)))
  {
  }

  lemma TimerSameMail(w: World, timer: nat)
    requires Inv(w) && Enabled(w, TimerFires(timer))
    ensures SameMail(w, Step(w, TimerFires(timer)))
  {
    assert w.browser.timers != map[];
    assert SwitchProject(w, w.manager.activeProjectId.value) == w;
  }

  lemma StepAgrees(w: World, ev: Event, seen: Seen)
    requires Inv(w) && Enabled(w, ev) && Agrees(w, seen)
    ensures Agrees(Step(w, ev), SeenNext(w, ev, seen))
  {
    match ev
    case Show(project) => ShowAgrees(w, project);
    case Hide => CleanupKeeps(w);
    case UserReconnects => ReconnectSameMail(w);
    case SocketMessage(_, _) =>
    case _ => BrowserSameMail(w, ev);
  }

  lemma ShowAgrees(w: World, project: Option<int>)
    requires Inv(w)
    ensures Agrees(Step(w, Show(project)), Seen(project, [], None))
  {
    if project.None? {
      CleanupKeeps(w);
    } else if w.browser.token {
      ShowOpensSocket(w, project.value);
    } else {
      ShowWithoutToken(w, project.value);
    }
  }

  lemma {:induction false} RunAgrees(w: World, events: seq<Event>, seen: Seen)
    requires Inv(w) && EnabledRun(w, events) && Agrees(w, seen)
    ensures Agrees(Run(w, events), SeenIn(w, events, seen))
    decreases events
  {
    if events != [] {
      StepAgrees(w, events[0], seen);
      StepKeeps(w, events[0]);
      RunAgrees(Step(w, events[0]), events[1..], SeenNext(w, events[0], seen));
    }
  }

  /**
   The page on screen after any events: its copy is what the messages delivered since it
   was shown make of it, its state the manager's, and it is synchronized exactly when
   connected through the socket that brought the last snapshot for its project.
   */
  lemma PageShowsWhatWasSent(events: seq<Event>)
    requires EnabledRun(START, events)
    ensures var w, seen := Run(START, events), SeenIn(START, events, NOTHING);
      && (w.view.subscribed <==> seen.project.Some?)
      && (seen.project.Some? ==>
            && w.view.projectId == seen.project
            && w.view.copy == Expected(seen.project.value, seen.heard)
            && w.view.state == w.manager.state
            && (w.view.isSynchronized <==>
                  w.manager.state == Connected && w.manager.socket.Some? && w.manager.socket == seen.snapshot))
  {
    var w, seen := Run(START, events), SeenIn(START, events, NOTHING);
    StartIsFine();
    RunAgrees(START, events, NOTHING);
    AlwaysFine(events);
    if seen.project.Some? {
      CopyIsExpected(seen.project.value, seen.heard);
    }
  }
}

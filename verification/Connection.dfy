/**
 The dashboard connection: the WebSocket manager, the hook that uses it and the
 browser they run in, as one event-driven system. The browser opens, closes and
 fails sockets and fires timers; the hook mounts, unmounts and asks to reconnect.
 */
module Connection {
  import opened Results
  import Backoff
  import opened QueueView

  datatype ConnState = Connecting | Connected | Disconnected | Error

  // Gone: its close event has been delivered and nothing follows it. Ending:
  // failed or closing, so that only an error and the close event may still come.
  datatype Phase = Opening | Open | Ending | Gone

  // attached: the four handlers are still set.
  datatype Socket = Socket(project: int, phase: Phase, attached: bool)

  // timers holds the delay of every timeout that is still pending.
  datatype Browser = Browser(sockets: seq<Socket>, timers: map<nat, int>, nextTimer: nat, token: bool)

  datatype Manager = Manager(
    socket: Option<nat>,
    state: ConnState,
    reconnectAttempts: nat,
    reconnectTimeoutId: Option<nat>,
    intentionalDisconnect: bool,
    activeProjectId: Option<int>)

  // subscribed is the effect's active flag; projectId the hook's argument.
  datatype View = View(
    projectId: Option<int>,
    subscribed: bool,
    state: ConnState,
    copy: Copy,
    isSynchronized: bool)

  // log is the history of messages the mounted hook has been given, and
  // snapshotOn the socket its last matching snapshot came through.
  datatype World = World(browser: Browser, manager: Manager, view: View, log: seq<Message>, snapshotOn: Option<nat>)

  const POLICY_VIOLATION := 1008
  const INITIAL_DELAY := 1000
  const MAX_DELAY := 30000

  // ---------- the manager ----------

  // The state listener of the hook.
  function Notified(v: View, s: ConnState): View {
    if !v.subscribed then v
    else v.(state := s, isSynchronized := v.isSynchronized && s == Connected)
  }

  function SetState(w: World, s: ConnState): World {
    if w.manager.state == s then w
    else w.(manager := w.manager.(state := s), view := Notified(w.view, s))
  }

  function ClearReconnectTimeout(w: World): World {
    if w.manager.reconnectTimeoutId.None? then w
    else w.(browser := w.browser.(timers := w.browser.timers - {w.manager.reconnectTimeoutId.value}),
            manager := w.manager.(reconnectTimeoutId := None))
  }

  // Handlers removed, then close().
  function DropSocket(w: World): World {
    match w.manager.socket
    case None => w
    case Some(id) =>
      var sockets := w.browser.sockets;
      var dropped := if id < |sockets| then sockets[id := sockets[id].(attached := false, phase := Closing(sockets[id].phase))] else sockets;
      w.(browser := w.browser.(sockets := dropped), manager := w.manager.(socket := None))
  }

  function Closing(p: Phase): Phase {
    if p == Gone then Gone else Ending
  }

  function Disconnect(w: World): World {
    var w1 := w.(manager := w.manager.(intentionalDisconnect := true));
    var w2 := ClearReconnectTimeout(w1);
    var w3 := w2.(manager := w2.manager.(activeProjectId := None));
    SetState(DropSocket(w3), Disconnected)
  }

  predicate Busy(w: World) {
    w.manager.socket.Some? && w.manager.socket.value < |w.browser.sockets| &&
    (w.browser.sockets[w.manager.socket.value].phase == Open || w.browser.sockets[w.manager.socket.value].phase == Opening)
  }

  function OpenSocket(w: World, project: int): World {
    w.(browser := w.browser.(sockets := w.browser.sockets + [Socket(project, Opening, true)]),
       manager := w.manager.(socket := Some(|w.browser.sockets|)))
  }

  function SwitchProject(w: World, project: int): World {
    if w.manager.activeProjectId == Some(project) then w else
      var w1 := Disconnect(w);
      w1.(manager := w1.manager.(activeProjectId := Some(project), reconnectAttempts := 0))
  }

  function Connect(w: World, project: int): World {
    var w1 := SwitchProject(w, project);
    if Busy(w1) then w1
    else if !w1.browser.token then SetState(w1, Error)
    else
      var w2 := SetState(w1.(manager := w1.manager.(intentionalDisconnect := false)), Connecting);
      OpenSocket(w2, project)
  }

  function Reconnect(w: World, project: int): World {
    var w1 := Disconnect(w);
    Connect(
      w1.(manager := w1.manager.(activeProjectId := Some(project), intentionalDisconnect := false, reconnectAttempts := 0)),
      project)
  }

  function HandleOpen(w: World): World {
    SetState(w.(manager := w.manager.(reconnectAttempts := 0)), Connected)
  }

  function Delay(attempts: nat): int {
    Backoff.Delay(INITIAL_DELAY, MAX_DELAY, attempts)
  }

  function ScheduleReconnect(w: World): World {
    var w1 := ClearReconnectTimeout(w);
    var id := w1.browser.nextTimer;
    w1.(browser := w1.browser.(timers := w1.browser.timers[id := Delay(w1.manager.reconnectAttempts)], nextTimer := id + 1),
        manager := w1.manager.(reconnectAttempts := w1.manager.reconnectAttempts + 1, reconnectTimeoutId := Some(id)))
  }

  // badToken: the reason is one of the three token failures.
  function HandleClose(w: World, code: int, badToken: bool): World {
    var w1 := w.(manager := w.manager.(socket := None));
    if code == POLICY_VIOLATION then
      var w2 := SetState(w1, Error);
      if badToken then w2.(browser := w2.browser.(token := false)) else w2
    else
      var w2 := SetState(w1, Disconnected);
      if w2.manager.intentionalDisconnect then w2 else ScheduleReconnect(w2)
  }

  function HandleError(w: World): World {
    SetState(w, Error)
  }

  // The three queue listeners of the hook.
  function HandleMessage(w: World, m: Message, from: nat): World {
    if !w.view.subscribed || w.view.projectId.None? then w
    else
      var project := w.view.projectId.value;
      var matching := IsSnapshot(project, m);
      w.(view := w.view.(copy := Handle(project, w.view.copy, m), isSynchronized := w.view.isSynchronized || matching),
         log := w.log + [m],
         snapshotOn := if matching then Some(from) else w.snapshotOn)
  }

  function TimerFired(w: World): World {
    if w.manager.activeProjectId.Some? then Connect(w, w.manager.activeProjectId.value) else w
  }

  // ---------- the hook ----------

  // The effect for one project; it runs only after the cleanup of the one before.
  function Mount(w: World, project: Option<int>): World {
    var start := if project.None? || !w.browser.token then Disconnected else Connecting;
    var w1 := w.(view := View(project, project.Some?, start, EMPTY, false), log := [], snapshotOn := None);
    if project.Some? && w.browser.token then Connect(w1, project.value) else w1
  }

  function Cleanup(w: World): World {
    if w.view.subscribed then Disconnect(w.(view := w.view.(subscribed := false))) else w
  }

  // The reconnect the hook offers to the interface.
  function RequestReconnect(w: World): World {
    if w.view.subscribed && w.view.projectId.Some? then
      Reconnect(w.(view := w.view.(isSynchronized := false)), w.view.projectId.value)
    else w
  }

  // ---------- events ----------

  datatype Event =
    | SocketOpens(id: nat)
    | SocketMessage(id: nat, m: Message)
    | SocketBeginsClosing(id: nat)
    | SocketFails(id: nat)
    | SocketCloses(id: nat, code: int, badToken: bool)
    | TimerFires(timer: nat)
    | TokenChanges(present: bool)
    | Show(project: Option<int>)
    | Hide
    | UserReconnects

  // A call by the interface, as opposed to something the browser reports.
  predicate Explicit(ev: Event) {
    ev.Show? || ev.UserReconnects?
  }

  predicate Enabled(w: World, ev: Event) {
    match ev
    case SocketOpens(id) => id < |w.browser.sockets| && w.browser.sockets[id].phase == Opening
    case SocketMessage(id, _) => id < |w.browser.sockets| && w.browser.sockets[id].phase == Open
    case SocketBeginsClosing(id) => id < |w.browser.sockets| && (w.browser.sockets[id].phase == Opening || w.browser.sockets[id].phase == Open)
    case SocketFails(id) => id < |w.browser.sockets| && w.browser.sockets[id].phase != Gone
    case SocketCloses(id, _, _) => id < |w.browser.sockets| && w.browser.sockets[id].phase != Gone
    case TimerFires(timer) => timer in w.browser.timers
    case _ => true
  }

  function WithPhase(w: World, id: nat, phase: Phase): World
    requires id < |w.browser.sockets|
  {
    w.(browser := w.browser.(sockets := w.browser.sockets[id := w.browser.sockets[id].(phase := phase)]))
  }

  // The browser does its part first, then calls the handler if it is still set.
  function Step(w: World, ev: Event): World
    requires Enabled(w, ev)
  {
    match ev
    case SocketOpens(id) =>
      var w1 := WithPhase(w, id, Open);
      if w.browser.sockets[id].attached then HandleOpen(w1) else w1
    case SocketMessage(id, m) =>
      if w.browser.sockets[id].attached then HandleMessage(w, m, id) else w
    case SocketBeginsClosing(id) => WithPhase(w, id, Ending)
    case SocketFails(id) =>
      var w1 := WithPhase(w, id, Ending);
      if w.browser.sockets[id].attached then HandleError(w1) else w1
    case SocketCloses(id, code, badToken) =>
      var w1 := WithPhase(w, id, Gone);
      if w.browser.sockets[id].attached then HandleClose(w1, code, badToken) else w1
    case TimerFires(timer) =>
      TimerFired(w.(browser := w.browser.(timers := w.browser.timers - {timer})))
    case TokenChanges(present) => w.(browser := w.browser.(token := present))
    case Show(project) => Mount(Cleanup(w), project)
    case Hide => Cleanup(w)
    case UserReconnects => RequestReconnect(w)
  }

  const START := World(
    Browser([], map[], 0, false),
    Manager(None, Disconnected, 0, None, false, None),
    View(None, false, Disconnected, EMPTY, false),
    [], None)

  ghost predicate EnabledRun(w: World, events: seq<Event>)
    decreases events
  {
    events == [] || (Enabled(w, events[0]) && EnabledRun(Step(w, events[0]), events[1..]))
  }

  function Run(w: World, events: seq<Event>): World
    requires EnabledRun(w, events)
    decreases events
  {
    if events == [] then w else Run(Step(w, events[0]), events[1..])
  }

  // ---------- the invariant ----------

  // A pending timer is the one the manager remembers.
  ghost predicate TimersKnown(w: World) {
    && (forall t :: t in w.browser.timers ==> w.manager.reconnectTimeoutId == Some(t))
    && (w.manager.reconnectTimeoutId.Some? ==> w.manager.reconnectTimeoutId.value < w.browser.nextTimer)
  }

  // A socket that can still call back is the manager's own, opened for the active
  // project, not to be abandoned; while there is one no timer is armed.
  ghost predicate SocketOwned(w: World) {
    && (forall i :: 0 <= i < |w.browser.sockets| && w.browser.sockets[i].attached && w.browser.sockets[i].phase != Gone
          ==> w.manager.socket == Some(i))
    && (w.manager.socket.Some? ==>
          var id := w.manager.socket.value;
          && id < |w.browser.sockets|
          && w.browser.sockets[id].attached
          && w.browser.sockets[id].phase != Gone
          && w.manager.activeProjectId == Some(w.browser.sockets[id].project)
          && !w.manager.intentionalDisconnect
          && w.browser.timers == map[])
  }

  // A reconnect is only ever under way for the active project.
  ghost predicate TimerWanted(w: World) {
    w.browser.timers != map[] ==>
      w.manager.socket.None? && w.manager.activeProjectId.Some? && !w.manager.intentionalDisconnect && w.manager.state == Disconnected
  }

  // What the state says about the socket.
  ghost predicate StateMeans(w: World) {
    && (w.manager.socket.None? ==> w.manager.state == Disconnected || w.manager.state == Error)
    && (w.manager.socket.Some? && w.manager.socket.value < |w.browser.sockets| ==>
          match w.browser.sockets[w.manager.socket.value].phase
          case Opening => w.manager.state == Connecting
          case Open => w.manager.state == Connected
          case _ => w.manager.state != Disconnected)
  }

  // The socket of the last snapshot had opened.
  ghost predicate SnapshotWasOpen(w: World) {
    w.snapshotOn.Some? ==>
      w.snapshotOn.value < |w.browser.sockets| && w.browser.sockets[w.snapshotOn.value].phase != Opening
  }

  // The hook agrees with the manager, and with the messages it was given.
  ghost predicate ViewAgrees(w: World) {
    && (w.view.subscribed ==> w.view.projectId.Some? && w.view.state == w.manager.state)
    && (w.view.subscribed ==> w.view.copy == HandleAll(w.view.projectId.value, w.log))
    && (w.manager.activeProjectId.Some? ==> w.view.subscribed && w.view.projectId == w.manager.activeProjectId)
    && (w.manager.activeProjectId.None? ==> w.manager.state == Disconnected)
    && (w.view.subscribed ==>
          (w.view.isSynchronized <==> w.manager.state == Connected && w.manager.socket.Some? && w.snapshotOn == w.manager.socket))
    && SnapshotWasOpen(w)
  }

  ghost predicate Inv(w: World) {
    TimersKnown(w) && SocketOwned(w) && TimerWanted(w) && StateMeans(w) && ViewAgrees(w)
  }

  lemma StartIsFine()
    ensures Inv(START)
  {
  }

  // ---------- what the calls do ----------

  // No socket, no pending timer: nothing that could call back.
  ghost predicate Quiet(w: World) {
    w.manager.socket.None? && w.browser.timers == map[]
  }

  lemma ClearedTimers(w: World)
    requires TimersKnown(w)
    ensures ClearReconnectTimeout(w).browser.timers == map[]
  {
    var left := ClearReconnectTimeout(w).browser.timers;
    assert forall t :: t !in left;
    assert left == map[];
  }

  /** After disconnect nothing is open, armed or active. */
  lemma DisconnectQuiets(w: World)
    requires TimersKnown(w) && SocketOwned(w)
    requires w.view.subscribed ==> w.view.state == w.manager.state
    ensures var d := Disconnect(w);
      && Quiet(d) && TimersKnown(d) && SocketOwned(d)
      && d.manager == w.manager.(socket := None, state := Disconnected, reconnectTimeoutId := None,
           intentionalDisconnect := true, activeProjectId := None)
      && d.view == (if w.view.subscribed && w.manager.state != Disconnected
                    then w.view.(state := Disconnected, isSynchronized := false) else w.view)
      && d.log == w.log && d.snapshotOn == w.snapshotOn
      && |d.browser.sockets| == |w.browser.sockets| && d.browser.token == w.browser.token
  {
    ClearedTimers(w.(manager := w.manager.(intentionalDisconnect := true)));
  }

  // A state from which connect may be called: quiet, and if a project is active
  // it is the one to connect to.
  ghost predicate MayConnect(w: World, project: int) {
    && Quiet(w) && TimersKnown(w) && SocketOwned(w) && StateMeans(w)
    && w.view.subscribed && w.view.projectId == Some(project)
    && w.view.copy == HandleAll(project, w.log)
    && (w.manager.activeProjectId.None? || w.manager.activeProjectId == Some(project))
    && !w.view.isSynchronized
    && SnapshotWasOpen(w)
  }

  lemma SwitchIsQuiet(w: World, project: int)
    requires MayConnect(w, project) && (w.manager.activeProjectId.None? ==> w.manager.state == Disconnected)
    ensures var s := SwitchProject(w, project);
      && MayConnect(s, project) && s.manager.activeProjectId == Some(project)
      && s.manager.state == w.manager.state && s.view == w.view && s.browser.token == w.browser.token
      && |s.browser.sockets| == |w.browser.sockets|
      && s.log == w.log && s.snapshotOn == w.snapshotOn
  {
    if w.manager.activeProjectId != Some(project) {
      ClearedTimers(w.(manager := w.manager.(intentionalDisconnect := true)));
    }
  }

  /**
   Connecting from such a state gives a good state again; a new socket is opened
   exactly when there is a token, and no socket was there to be abandoned.
   */
  lemma ConnectIsFine(w: World, project: int)
    requires MayConnect(w, project)
    requires w.view.state == w.manager.state ||
      (w.view.state == Connecting && w.browser.token && w.manager.state == Disconnected && w.manager.activeProjectId.None?)
    requires w.manager.activeProjectId.None? ==> w.manager.state == Disconnected
    ensures Inv(Connect(w, project))
    ensures Connect(w, project).manager.socket.Some? <==> w.browser.token
    ensures w.browser.token ==> Connect(w, project).manager.socket == Some(|w.browser.sockets|)
    ensures Connect(w, project).manager.activeProjectId == Some(project)
  {
    SwitchIsQuiet(w, project);
    var s := SwitchProject(w, project);
    assert !Busy(s);
  }

  // ---------- every event ----------

  lemma OpenKeeps(w: World, id: nat)
    requires Inv(w) && Enabled(w, SocketOpens(id))
    ensures Inv(Step(w, SocketOpens(id)))
  {
  }

  lemma MessageKeeps(w: World, id: nat, m: Message)
    requires Inv(w) && Enabled(w, SocketMessage(id, m))
    ensures Inv(Step(w, SocketMessage(id, m)))
  {
    if w.browser.sockets[id].attached && w.view.subscribed {
      assert (w.log + [m])[..|w.log|] == w.log;
    }
  }

  lemma FailKeeps(w: World, id: nat)
    requires Inv(w) && Enabled(w, SocketFails(id))
    ensures Inv(Step(w, SocketFails(id)))
  {
    AttachedIsOwn(w, id);
    if w.browser.sockets[id].attached {
      var w1 := WithPhase(w, id, Ending);
      assert forall i :: 0 <= i < |w.browser.sockets| && i != id ==> w1.browser.sockets[i] == w.browser.sockets[i];
    } else {
      OtherSocketEnds(w, id, Ending);
    }
  }

  lemma BeginCloseKeeps(w: World, id: nat)
    requires Inv(w) && Enabled(w, SocketBeginsClosing(id))
    ensures Inv(Step(w, SocketBeginsClosing(id)))
  {
  }

  // The manager's own socket is gone: nothing is left that could call back.
  lemma OwnSocketGone(w: World, id: nat)
    requires Inv(w) && id < |w.browser.sockets| && w.manager.socket == Some(id)
    ensures var w1 := WithPhase(w, id, Gone);
      && TimersKnown(w1) && w1.browser.timers == map[]
      && forall i :: 0 <= i < |w1.browser.sockets| ==> !(w1.browser.sockets[i].attached && w1.browser.sockets[i].phase != Gone)
  {
    var w1 := WithPhase(w, id, Gone);
    assert forall i :: 0 <= i < |w.browser.sockets| && i != id ==> w1.browser.sockets[i] == w.browser.sockets[i];
  }

  lemma PolicyCloseKeeps(w: World, id: nat, badToken: bool)
    requires Inv(w) && id < |w.browser.sockets| && w.manager.socket == Some(id)
    ensures var w1 := HandleClose(WithPhase(w, id, Gone), POLICY_VIOLATION, badToken);
      Inv(w1) && Quiet(w1) && w1.manager.state == Error && |w1.browser.sockets| == |w.browser.sockets|
  {
    OwnSocketGone(w, id);
  }

  lemma LostCloseKeeps(w: World, id: nat, code: int, badToken: bool)
    requires Inv(w) && id < |w.browser.sockets| && w.manager.socket == Some(id) && code != POLICY_VIOLATION
    ensures var w1 := HandleClose(WithPhase(w, id, Gone), code, badToken);
      && Inv(w1)
      && w1.browser.timers == map[w.browser.nextTimer := Delay(w.manager.reconnectAttempts)]
      && w1.manager.reconnectAttempts == w.manager.reconnectAttempts + 1
      && w1.manager.activeProjectId == w.manager.activeProjectId
      && w1.browser.token == w.browser.token
  {
    OwnSocketGone(w, id);
    var gone := WithPhase(w, id, Gone);
    var w2 := SetState(gone.(manager := gone.manager.(socket := None)), Disconnected);
    ClearedTimers(w2);
  }

  lemma AttachedIsOwn(w: World, id: nat)
    requires Inv(w) && id < |w.browser.sockets| && w.browser.sockets[id].phase != Gone
    ensures w.browser.sockets[id].attached <==> w.manager.socket == Some(id)
  {
  }

  lemma CloseKeeps(w: World, id: nat, code: int, badToken: bool)
    requires Inv(w) && Enabled(w, SocketCloses(id, code, badToken))
    ensures Inv(Step(w, SocketCloses(id, code, badToken)))
  {
    AttachedIsOwn(w, id);
    if !w.browser.sockets[id].attached {
      OtherSocketEnds(w, id, Gone);
    } else if code == POLICY_VIOLATION {
      PolicyCloseKeeps(w, id, badToken);
    } else {
      LostCloseKeeps(w, id, code, badToken);
    }
  }

  lemma OtherSocketEnds(w: World, id: nat, phase: Phase)
    requires Inv(w) && id < |w.browser.sockets| && !w.browser.sockets[id].attached
    requires phase == Ending || phase == Gone
    ensures Inv(WithPhase(w, id, phase))
  {
    var w1 := WithPhase(w, id, phase);
    assert forall i :: 0 <= i < |w.browser.sockets| && i != id ==> w1.browser.sockets[i] == w.browser.sockets[i];
  }

  lemma TimerKeeps(w: World, timer: nat)
    requires Inv(w) && Enabled(w, TimerFires(timer))
    ensures Inv(Step(w, TimerFires(timer)))
    ensures Step(w, TimerFires(timer)).manager.socket.Some? <==> w.browser.token
  {
    var w1 := w.(browser := w.browser.(timers := w.browser.timers - {timer}));
    assert w.browser.timers != map[];
    assert forall t :: t !in w1.browser.timers;
    assert w1.browser.timers == map[];
    ConnectIsFine(w1, w.manager.activeProjectId.value);
  }

  lemma CleanupKeeps(w: World)
    requires Inv(w)
    ensures Inv(Cleanup(w)) && !Cleanup(w).view.subscribed
    ensures Quiet(Cleanup(w)) && Cleanup(w).manager.activeProjectId.None? && Cleanup(w).manager.state == Disconnected
  {
    if w.view.subscribed {
      DisconnectQuiets(w.(view := w.view.(subscribed := false)));
    }
  }

  lemma ShowKeeps(w: World, project: Option<int>)
    requires Inv(w)
    ensures Inv(Step(w, Show(project)))
  {
    CleanupKeeps(w);
    var c := Cleanup(w);
    var start := if project.None? || !c.browser.token then Disconnected else Connecting;
    var w1 := c.(view := View(project, project.Some?, start, EMPTY, false), log := [], snapshotOn := None);
    if project.Some? {
      assert HandleAll(project.value, []) == EMPTY;
      if c.browser.token {
        ConnectIsFine(w1, project.value);
      }
    }
  }

  lemma ReconnectKeeps(w: World)
    requires Inv(w)
    ensures Inv(Step(w, UserReconnects))
  {
    if w.view.subscribed {
      var project := w.view.projectId.value;
      var w1 := w.(view := w.view.(isSynchronized := false));
      DisconnectQuiets(w1);
      var d := Disconnect(w1);
      var w2 := d.(manager := d.manager.(activeProjectId := Some(project), intentionalDisconnect := false, reconnectAttempts := 0));
      ConnectIsFine(w2, project);
    }
  }

  // The hook's reconnect for a project, called while w is on screen or later.
  function KeptReconnect(w: World, project: int): World {
    Reconnect(if w.view.subscribed then w.(view := w.view.(isSynchronized := false)) else w, project)
  }

  /**
   The callback itself does not ask whether the page is still there. It keeps the
   invariant exactly when called for the project of the page on screen; kept past
   that, it opens a socket nobody listens to.
   */
  lemma KeptReconnectExact(w: World, project: int)
    requires Inv(w)
    ensures Inv(KeptReconnect(w, project)) <==> w.view.subscribed && w.view.projectId == Some(project)
    ensures w.browser.token ==> KeptReconnect(w, project).manager.socket.Some?
  {
    var w1 := if w.view.subscribed then w.(view := w.view.(isSynchronized := false)) else w;
    DisconnectQuiets(w1);
    if w.view.subscribed && w.view.projectId == Some(project) {
      ReconnectKeeps(w);
      assert KeptReconnect(w, project) == Step(w, UserReconnects);
    } else {
      assert KeptReconnect(w, project).manager.activeProjectId == Some(project);
    }
  }

  /** Every event the browser or the interface can deliver keeps the invariant. */
  lemma StepKeeps(w: World, ev: Event)
    requires Inv(w) && Enabled(w, ev)
    ensures Inv(Step(w, ev))
  {
    match ev
    case SocketOpens(id) => OpenKeeps(w, id);
    case SocketMessage(id, m) => MessageKeeps(w, id, m);
    case SocketBeginsClosing(id) => BeginCloseKeeps(w, id);
    case SocketFails(id) => FailKeeps(w, id);
    case SocketCloses(id, code, badToken) => CloseKeeps(w, id, code, badToken);
    case TimerFires(timer) => TimerKeeps(w, timer);
    case TokenChanges(_) =>
    case Show(project) => ShowKeeps(w, project);
    case Hide => CleanupKeeps(w);
    case UserReconnects => ReconnectKeeps(w);
  }

  lemma {:induction false} RunKeeps(w: World, events: seq<Event>)
    requires Inv(w) && EnabledRun(w, events)
    ensures Inv(Run(w, events))
    decreases events
  {
    if events != [] {
      StepKeeps(w, events[0]);
      RunKeeps(Step(w, events[0]), events[1..]);
    }
  }

  // ---------- main results ----------

  /** Whatever happens from page load on, the invariant holds. */
  lemma AlwaysFine(events: seq<Event>)
    requires EnabledRun(START, events)
    ensures Inv(Run(START, events))
  {
    StartIsFine();
    RunKeeps(START, events);
  }

  /** At most one socket can still call back, and it is the manager's own. */
  lemma OneLiveSocket(w: World, i: nat, j: nat)
    requires Inv(w) && i < |w.browser.sockets| && j < |w.browser.sockets|
    requires w.browser.sockets[i].attached && w.browser.sockets[i].phase != Gone
    requires w.browser.sockets[j].attached && w.browser.sockets[j].phase != Gone
    ensures i == j && w.manager.socket == Some(i) && w.browser.timers == map[]
  {
  }

  // Opened at most one socket, its own from then on.
  ghost predicate OneMoreAtMost(w: World, w': World) {
    || |w'.browser.sockets| == |w.browser.sockets|
    || (|w'.browser.sockets| == |w.browser.sockets| + 1 && w'.manager.socket == Some(|w.browser.sockets|))
  }

  /**
   A step opens at most one socket, which is then the manager's, and only when asked
   to or when a timer fires while there is none: connect never abandons a socket.
   */
  lemma NewSocketOnlyWhenFree(w: World, ev: Event)
    requires Inv(w) && Enabled(w, ev)
    ensures OneMoreAtMost(w, Step(w, ev))
    ensures |Step(w, ev).browser.sockets| > |w.browser.sockets| ==>
      Explicit(ev) || (ev.TimerFires? && w.manager.socket.None?)
  {
    match ev
    case TimerFires(timer) => SocketCountOnTimer(w, timer);
    case Show(project) => SocketCountOnShow(w, project);
    case UserReconnects => SocketCountOnReconnect(w);
    case Hide => SocketCountOnHide(w);
    case SocketOpens(id) => SocketCountOnOpen(w, id);
    case SocketCloses(id, code, badToken) => SocketCountOnClose(w, id, code, badToken);
    case _ =>
  }

  lemma SocketCountOnTimer(w: World, timer: nat)
    requires Inv(w) && Enabled(w, TimerFires(timer))
    ensures OneMoreAtMost(w, Step(w, TimerFires(timer))) && w.manager.socket.None?
  {
    assert w.browser.timers != map[];
    TimerKeeps(w, timer);
  }

  lemma SocketCountOnOpen(w: World, id: nat)
    requires Enabled(w, SocketOpens(id))
    ensures |Step(w, SocketOpens(id)).browser.sockets| == |w.browser.sockets|
  {
  }

  lemma SocketCountOnClose(w: World, id: nat, code: int, badToken: bool)
    requires Enabled(w, SocketCloses(id, code, badToken))
    ensures |Step(w, SocketCloses(id, code, badToken)).browser.sockets| == |w.browser.sockets|
  {
  }

  lemma SocketCountOnHide(w: World)
    requires Inv(w)
    ensures |Cleanup(w).browser.sockets| == |w.browser.sockets|
  {
  }

  lemma SocketCountOnShow(w: World, project: Option<int>)
    requires Inv(w)
    ensures OneMoreAtMost(w, Step(w, Show(project)))
  {
    SocketCountOnHide(w);
    CleanupKeeps(w);
  }

  lemma SocketCountOnReconnect(w: World)
    requires Inv(w)
    ensures OneMoreAtMost(w, Step(w, UserReconnects))
  {
    if w.view.subscribed {
      DisconnectQuiets(w.(view := w.view.(isSynchronized := false)));
    }
  }

  // None of the events is a call by the interface.
  ghost predicate NoExplicitCall(events: seq<Event>) {
    forall i :: 0 <= i < |events| ==> !Explicit(events[i])
  }

  lemma QuietStep(w: World, ev: Event)
    requires Inv(w) && Quiet(w) && Enabled(w, ev) && !Explicit(ev)
    ensures Quiet(Step(w, ev)) && |Step(w, ev).browser.sockets| == |w.browser.sockets|
  {
    match ev
    case SocketOpens(id) => AttachedIsOwn(w, id);
    case SocketMessage(id, _) => AttachedIsOwn(w, id);
    case SocketFails(id) => AttachedIsOwn(w, id);
    case SocketCloses(id, _, _) => AttachedIsOwn(w, id);
    case Hide => CleanupKeeps(w);
      SocketCountOnHide(w);
    case _ =>
  }

  /**
   Once nothing is open and no timer armed, nothing reconnects by itself: only a
   call by the interface opens a socket again.
   */
  lemma {:induction false} QuietUntilAsked(w: World, events: seq<Event>)
    requires Inv(w) && Quiet(w) && EnabledRun(w, events) && NoExplicitCall(events)
    ensures Quiet(Run(w, events)) && |Run(w, events).browser.sockets| == |w.browser.sockets|
    decreases events
  {
    if events != [] {
      QuietStep(w, events[0]);
      StepKeeps(w, events[0]);
      QuietUntilAsked(Step(w, events[0]), events[1..]);
    }
  }

  /** A close with code 1008 of the manager's socket is final until asked. */
  lemma PolicyCloseIsFinal(w: World, id: nat, badToken: bool, later: seq<Event>)
    requires Inv(w) && w.manager.socket == Some(id) && Enabled(w, SocketCloses(id, POLICY_VIOLATION, badToken))
    requires EnabledRun(Step(w, SocketCloses(id, POLICY_VIOLATION, badToken)), later) && NoExplicitCall(later)
    ensures var closed := Step(w, SocketCloses(id, POLICY_VIOLATION, badToken));
      && Quiet(Run(closed, later)) && |Run(closed, later).browser.sockets| == |w.browser.sockets|
      && closed.manager.state == Error
      && closed.browser.token == (w.browser.token && !badToken)
  {
    var ev := SocketCloses(id, POLICY_VIOLATION, badToken);
    AttachedIsOwn(w, id);
    PolicyCloseKeeps(w, id, badToken);
    StepKeeps(w, ev);
    QuietUntilAsked(Step(w, ev), later);
  }

  /** So is leaving the page: unmounting disconnects for good. */
  lemma HidingIsFinal(w: World, later: seq<Event>)
    requires Inv(w) && EnabledRun(Step(w, Hide), later) && NoExplicitCall(later)
    ensures Quiet(Run(Step(w, Hide), later)) && |Run(Step(w, Hide), later).browser.sockets| == |w.browser.sockets|
  {
    CleanupKeeps(w);
    SocketCountOnHide(w);
    QuietUntilAsked(Step(w, Hide), later);
  }

  /** Any other close of the manager's socket arms one timer, for the same project. */
  lemma LostConnectionIsRetried(w: World, id: nat, code: int, badToken: bool)
    requires Inv(w) && w.manager.socket == Some(id) && code != POLICY_VIOLATION
    requires Enabled(w, SocketCloses(id, code, badToken))
    ensures var lost := Step(w, SocketCloses(id, code, badToken));
      && lost.browser.timers == map[w.browser.nextTimer := Delay(w.manager.reconnectAttempts)]
      && lost.manager.activeProjectId == Some(w.browser.sockets[id].project)
  {
    AttachedIsOwn(w, id);
    LostCloseKeeps(w, id, code, badToken);
  }

  /**
   What the page shows: the expected copy of the messages it was given, the state of
   the manager, and synchronized only while connected through the very socket that
   brought the last snapshot.
   */
  lemma PageShowsExpected(events: seq<Event>)
    requires EnabledRun(START, events) && Run(START, events).view.subscribed
    ensures var w := Run(START, events);
      && w.view.projectId.Some?
      && w.view.copy == Expected(w.view.projectId.value, w.log)
      && w.view.state == w.manager.state
      && (w.view.isSynchronized <==> w.manager.state == Connected && w.manager.socket.Some? && w.snapshotOn == w.manager.socket)
  {
    AlwaysFine(events);
    var w := Run(START, events);
    CopyIsExpected(w.view.projectId.value, w.log);
  }

  // ---------- backoff ----------

  /** A call by the interface that leads to a project starts the count again too. */
  lemma AskingResets(w: World, ev: Event)
    requires Inv(w) && Explicit(ev) && Enabled(w, ev)
    requires Step(w, ev).manager.activeProjectId.Some?
    ensures Step(w, ev).manager.reconnectAttempts == 0
    ensures Step(w, ev).manager.socket.Some? <==> Step(w, ev).browser.token
  {
    match ev
    case Show(project) => ShowOpens(w, project);
    case UserReconnects => ReconnectOpens(w);
  }

  lemma ShowOpens(w: World, project: Option<int>)
    requires Inv(w) && Step(w, Show(project)).manager.activeProjectId.Some?
    ensures Step(w, Show(project)).manager.reconnectAttempts == 0
    ensures Step(w, Show(project)).manager.socket.Some? && Step(w, Show(project)).browser.token
  {
    CleanupKeeps(w);
  }

  lemma ReconnectOpens(w: World)
    requires Inv(w) && Step(w, UserReconnects).manager.activeProjectId.Some?
    ensures Step(w, UserReconnects).manager.reconnectAttempts == 0
    ensures Step(w, UserReconnects).manager.socket.Some? <==> Step(w, UserReconnects).browser.token
  {
    if w.view.subscribed {
      DisconnectQuiets(w.(view := w.view.(isSynchronized := false)));
    }
  }

  /** Opening a connection starts the count of failures again. */
  lemma OpeningResets(w: World, id: nat)
    requires Inv(w) && w.manager.socket == Some(id) && Enabled(w, SocketOpens(id))
    ensures var up := Step(w, SocketOpens(id));
      && Inv(up) && up.manager.socket == Some(id) && up.manager.reconnectAttempts == 0
      && up.browser.token == w.browser.token && up.manager.state == Connected
  {
    OpenKeeps(w, id);
    AttachedIsOwn(w, id);
  }

  // The manager's own socket opens, or is lost with any code but 1008.
  predicate Opens(w: World, ev: Event) {
    ev.SocketOpens? && w.manager.socket == Some(ev.id)
  }

  predicate Fails(w: World, ev: Event) {
    ev.SocketCloses? && w.manager.socket == Some(ev.id) && ev.code != POLICY_VIOLATION
  }

  // The losses of the manager's socket in a run, counted afresh whenever it opens or
  // the interface asks; before is the count to start with.
  function Failures(w: World, events: seq<Event>, before: nat): nat
    requires EnabledRun(w, events)
    decreases events
  {
    if events == [] then before else
      var ev := events[0];
      Failures(Step(w, ev), events[1..], if Opens(w, ev) || Explicit(ev) then 0 else if Fails(w, ev) then before + 1 else before)
  }

  ghost predicate Counts(w: World, n: nat) {
    w.manager.activeProjectId.Some? ==> w.manager.reconnectAttempts == n
  }

  // Every other event leaves the counter alone, or no project active.
  lemma OtherEventsDoNotCount(w: World, ev: Event)
    requires Inv(w) && Enabled(w, ev) && !Explicit(ev) && !Opens(w, ev) && !Fails(w, ev)
    ensures Step(w, ev).manager.activeProjectId.Some? ==>
      w.manager.activeProjectId.Some? && Step(w, ev).manager.reconnectAttempts == w.manager.reconnectAttempts
  {
    match ev
    case SocketOpens(id) => AttachedIsOwn(w, id);
    case SocketCloses(id, _, _) => AttachedIsOwn(w, id);
    case Hide => CleanupKeeps(w);
    case _ =>
  }

  lemma StepCounts(w: World, ev: Event, n: nat)
    requires Inv(w) && Enabled(w, ev) && Counts(w, n)
    ensures Counts(Step(w, ev), if Opens(w, ev) || Explicit(ev) then 0 else if Fails(w, ev) then n + 1 else n)
  {
    if Explicit(ev) {
      if Step(w, ev).manager.activeProjectId.Some? {
        AskingResets(w, ev);
      }
    } else if Opens(w, ev) {
      OpeningResets(w, ev.id);
    } else if Fails(w, ev) {
      AttachedIsOwn(w, ev.id);
      LostCloseKeeps(w, ev.id, ev.code, ev.badToken);
    } else {
      OtherEventsDoNotCount(w, ev);
    }
  }

  /**
   In any run the manager counts exactly the losses of its own socket since that last
   opened or the interface last asked, whatever else happens in between: errors,
   token changes, closes of sockets it has let go, messages.
   */
  lemma {:induction false} AttemptsAreFailures(w: World, events: seq<Event>, before: nat)
    requires Inv(w) && Counts(w, before) && EnabledRun(w, events)
    ensures Counts(Run(w, events), Failures(w, events, before))
    decreases events
  {
    if events != [] {
      var ev := events[0];
      StepCounts(w, ev, before);
      StepKeeps(w, ev);
      AttemptsAreFailures(Step(w, ev), events[1..],
        if Opens(w, ev) || Explicit(ev) then 0 else if Fails(w, ev) then before + 1 else before);
    }
  }

  /**
   After any events since the page was loaded, the next loss of the manager's socket
   arms one timer, of min(1000 * 2^n, 30000) milliseconds after n losses since it
   last opened or the interface last asked.
   */
  lemma WaitsDouble(events: seq<Event>, id: nat, code: int, badToken: bool)
    requires EnabledRun(START, events) && Run(START, events).manager.socket == Some(id)
    requires Enabled(Run(START, events), SocketCloses(id, code, badToken)) && code != POLICY_VIOLATION
    ensures var w, n := Run(START, events), Failures(START, events, 0);
      Step(w, SocketCloses(id, code, badToken)).browser.timers ==
        map[w.browser.nextTimer := Backoff.Min(1000 * Backoff.Pow2(n), 30000)]
  {
    var w := Run(START, events);
    StartIsFine();
    AlwaysFine(events);
    AttemptsAreFailures(START, events, 0);
    LostConnectionIsRetried(w, id, code, badToken);
  }
}

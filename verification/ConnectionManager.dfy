/**
 The connection as it is written: a manager that updates its fields, calls the
 browser and notifies the one hook subscribed to it. Each method is proved to take
 the world to what its specification function says.
 */
module ConnectionManager {
  import opened Results
  import opened QueueView
  import opened Connection

  class BrowserHost {
    var sockets: seq<Socket>
    var timers: map<nat, int>
    var nextTimer: nat
    var token: bool

    constructor ()
      ensures State() == START.browser
    {
      sockets, timers, nextTimer, token := [], map[], 0, false;
    }

    function State(): Browser
      reads this
    {
      Browser(sockets, timers, nextTimer, token)
    }

    method NewWebSocket(project: int) returns (id: nat)
      modifies this`sockets
      ensures id == |old(sockets)| && sockets == old(sockets) + [Socket(project, Opening, true)]
    {
      id := |sockets|;
      sockets := sockets + [Socket(project, Opening, true)];
    }

    // onopen, onclose, onerror and onmessage set to null, then close().
    method Detach(id: nat)
      modifies this`sockets
      ensures sockets == if id < |old(sockets)|
        then old(sockets)[id := old(sockets)[id].(attached := false, phase := Closing(old(sockets)[id].phase))]
        else old(sockets)
    {
      if id < |sockets| {
        sockets := sockets[id := sockets[id].(attached := false)];
        sockets := sockets[id := sockets[id].(phase := Closing(sockets[id].phase))];
      }
    }

    method SetTimeout(delay: int) returns (id: nat)
      modifies this`timers, this`nextTimer
      ensures id == old(nextTimer) && nextTimer == old(nextTimer) + 1 && timers == old(timers)[id := delay]
    {
      id := nextTimer;
      timers := timers[id := delay];
      nextTimer := nextTimer + 1;
    }

    method ClearTimeout(id: nat)
      modifies this`timers
      ensures timers == old(timers) - {id}
    {
      timers := timers - {id};
    }
  }

  class HookState {
    var projectId: Option<int>
    var subscribed: bool
    var state: ConnState
    var copy: Copy
    var isSynchronized: bool
    ghost var log: seq<Message>
    ghost var snapshotOn: Option<nat>

    constructor ()
      ensures View() == START.view && log == [] && snapshotOn == None
    {
      projectId, subscribed, state, copy, isSynchronized := None, false, Disconnected, EMPTY, false;
      log, snapshotOn := [], None;
    }

    function View(): Connection.View
      reads this
    {
      Connection.View(projectId, subscribed, state, copy, isSynchronized)
    }

    // The listener passed to onStateChange.
    method OnStateChange(newState: ConnState)
      modifies this`state, this`isSynchronized
      ensures View() == Notified(old(View()), newState)
    {
      if !subscribed {
        return;
      }
      state := newState;
      if newState != Connected {
        isSynchronized := false;
      }
    }

    // The listeners passed to on(..).
    method OnMessage(m: Message, ghost from: nat)
      modifies this
      ensures projectId == old(projectId) && subscribed == old(subscribed) && state == old(state)
      ensures !subscribed || projectId.None? ==>
        View() == old(View()) && log == old(log) && snapshotOn == old(snapshotOn)
      ensures subscribed && projectId.Some? ==>
        && copy == Handle(projectId.value, old(copy), m)
        && isSynchronized == (old(isSynchronized) || IsSnapshot(projectId.value, m))
        && log == old(log) + [m]
        && snapshotOn == if IsSnapshot(projectId.value, m) then Some(from) else old(snapshotOn)
    {
      if !subscribed || projectId.None? {
        return;
      }
      copy := Handle(projectId.value, copy, m);
      if IsSnapshot(projectId.value, m) {
        isSynchronized := true;
        snapshotOn := Some(from);
      }
      log := log + [m];
    }
  }

  class WebSocketManager {
    const browser: BrowserHost
    const hook: HookState
    var socket: Option<nat>
    var state: ConnState
    var reconnectAttempts: nat
    var reconnectTimeoutId: Option<nat>
    var intentionalDisconnect: bool
    var activeProjectId: Option<int>

    constructor (browser: BrowserHost, hook: HookState)
      ensures this.browser == browser && this.hook == hook
      ensures Fields() == START.manager
      ensures browser.State() == START.browser && hook.View() == START.view && hook.log == [] && hook.snapshotOn == None ==>
        World() == START
    {
      this.browser, this.hook := browser, hook;
      socket, state, reconnectAttempts := None, Disconnected, 0;
      reconnectTimeoutId, intentionalDisconnect, activeProjectId := None, false, None;
    }

    function Fields(): Manager
      reads this
    {
      Manager(socket, state, reconnectAttempts, reconnectTimeoutId, intentionalDisconnect, activeProjectId)
    }

    ghost function World(): Connection.World
      reads this, browser, hook
    {
      Connection.World(browser.State(), Fields(), hook.View(), hook.log, hook.snapshotOn)
    }

    method SetState(newState: ConnState)
      modifies this`state, hook`state, hook`isSynchronized
      ensures World() == Connection.SetState(old(World()), newState)
    {
      if state != newState {
        state := newState;
        hook.OnStateChange(newState);
      }
    }

    method ClearReconnectTimeout()
      modifies this`reconnectTimeoutId, browser`timers
      ensures World() == Connection.ClearReconnectTimeout(old(World()))
    {
      if reconnectTimeoutId.Some? {
        browser.ClearTimeout(reconnectTimeoutId.value);
        reconnectTimeoutId := None;
      }
    }

    method Disconnect()
      modifies this, browser, hook`state, hook`isSynchronized
      ensures World() == Connection.Disconnect(old(World()))
    {
      intentionalDisconnect := true;
      ClearReconnectTimeout();
      activeProjectId := None;
      if socket.Some? {
        browser.Detach(socket.value);
        socket := None;
      }
      SetState(Disconnected);
    }

    method SwitchTo(projectId: int)
      modifies this, browser, hook`state, hook`isSynchronized
      ensures World() == SwitchProject(old(World()), projectId)
    {
      if activeProjectId != Some(projectId) {
        Disconnect();
        activeProjectId := Some(projectId);
        reconnectAttempts := 0;
      }
    }

    method Connect(projectId: int)
      modifies this, browser, hook`state, hook`isSynchronized
      ensures World() == Connection.Connect(old(World()), projectId)
    {
      SwitchTo(projectId);
      if socket.Some? && socket.value < |browser.sockets| &&
         (browser.sockets[socket.value].phase == Open || browser.sockets[socket.value].phase == Opening) {
        return;
      }
      if !browser.token {
        SetState(Error);
        return;
      }
      intentionalDisconnect := false;
      SetState(Connecting);
      var id := browser.NewWebSocket(projectId);
      socket := Some(id);
    }

    method Reconnect(projectId: int)
      modifies this, browser, hook`state, hook`isSynchronized
      ensures World() == Connection.Reconnect(old(World()), projectId)
    {
      Disconnect();
      activeProjectId := Some(projectId);
      intentionalDisconnect := false;
      reconnectAttempts := 0;
      Connect(projectId);
    }

    method HandleOpen()
      modifies this`reconnectAttempts, this`state, hook`state, hook`isSynchronized
      ensures World() == Connection.HandleOpen(old(World()))
    {
      reconnectAttempts := 0;
      SetState(Connected);
    }

    method HandleClose(code: int, badToken: bool)
      modifies this, browser, hook`state, hook`isSynchronized
      ensures World() == Connection.HandleClose(old(World()), code, badToken)
    {
      socket := None;
      if code == POLICY_VIOLATION {
        SetState(Error);
        if badToken {
          browser.token := false;
        }
        return;
      }
      SetState(Disconnected);
      if intentionalDisconnect {
        return;
      }
      ScheduleReconnect();
    }

    method HandleError()
      modifies this`state, hook`state, hook`isSynchronized
      ensures World() == Connection.HandleError(old(World()))
    {
      SetState(Error);
    }

    method HandleMessage(m: Message, ghost from: nat)
      modifies hook
      ensures World() == Connection.HandleMessage(old(World()), m, from)
    {
      hook.OnMessage(m, from);
    }

    method ScheduleReconnect()
      modifies this`reconnectAttempts, this`reconnectTimeoutId, browser`timers, browser`nextTimer
      ensures World() == Connection.ScheduleReconnect(old(World()))
    {
      ClearReconnectTimeout();
      var delay := Delay(reconnectAttempts);
      reconnectAttempts := reconnectAttempts + 1;
      var id := browser.SetTimeout(delay);
      reconnectTimeoutId := Some(id);
    }

    // The timeout's callback.
    method OnTimeout()
      modifies this, browser, hook`state, hook`isSynchronized
      ensures World() == Connection.TimerFired(old(World()))
    {
      if activeProjectId.Some? {
        Connect(activeProjectId.value);
      }
    }

    // ---------- the hook's calls ----------

    method MountEffect(project: Option<int>)
      modifies this, browser, hook
      ensures World() == Mount(old(World()), project)
    {
      hook.projectId, hook.subscribed := project, project.Some?;
      hook.copy, hook.isSynchronized := EMPTY, false;
      hook.state := if project.None? || !browser.token then Disconnected else Connecting;
      hook.log, hook.snapshotOn := [], None;
      if project.None? {
        return;
      }
      if browser.token {
        Connect(project.value);
      }
    }

    method CleanupEffect()
      modifies this, browser, hook
      ensures World() == Cleanup(old(World()))
    {
      if hook.subscribed {
        hook.subscribed := false;
        Disconnect();
      }
    }

    method OnUserReconnect()
      modifies this, browser, hook
      ensures World() == RequestReconnect(old(World()))
    {
      if hook.subscribed && hook.projectId.Some? {
        hook.isSynchronized := false;
        Reconnect(hook.projectId.value);
      }
    }

    // ---------- what the browser and the interface do ----------

    method SetPhase(id: nat, phase: Phase)
      requires id < |browser.sockets|
      modifies browser`sockets
      ensures World() == WithPhase(old(World()), id, phase)
    {
      browser.sockets := browser.sockets[id := browser.sockets[id].(phase := phase)];
    }

    /**
     One event: the browser does its part first, then calls the handler if the socket
     still has it.
     */
    method Deliver(ev: Event)
      requires Enabled(World(), ev)
      modifies this, browser, hook
      ensures World() == Connection.Step(old(World()), ev)
    {
      match ev
      case SocketOpens(id) =>
        SetPhase(id, Open);
        if browser.sockets[id].attached {
          HandleOpen();
        }
      case SocketMessage(id, m) =>
        if browser.sockets[id].attached {
          HandleMessage(m, id);
        }
      case SocketBeginsClosing(id) =>
        SetPhase(id, Ending);
      case SocketFails(id) =>
        SetPhase(id, Ending);
        if browser.sockets[id].attached {
          HandleError();
        }
      case SocketCloses(id, code, badToken) =>
        SetPhase(id, Gone);
        if browser.sockets[id].attached {
          HandleClose(code, badToken);
        }
      case TimerFires(timer) =>
        browser.timers := browser.timers - {timer};
        OnTimeout();
      case TokenChanges(present) =>
        browser.token := present;
      case Show(project) =>
        CleanupEffect();
        MountEffect(project);
      case Hide =>
        CleanupEffect();
      case UserReconnects =>
        OnUserReconnect();
    }

    /** Any events, one after the other: the objects never leave the invariant. */
    method DeliverAll(events: seq<Event>)
      requires Connection.Inv(World()) && EnabledRun(World(), events)
      modifies this, browser, hook
      ensures Connection.Inv(World()) && World() == Connection.Run(old(World()), events)
    {
      for i := 0 to |events|
        invariant Connection.Inv(World()) && EnabledRun(World(), events[i..])
        invariant Connection.Run(World(), events[i..]) == Connection.Run(old(World()), events)
      {
        assert events[i..][0] == events[i] && events[i..][1..] == events[i + 1..];
        Connection.StepKeeps(World(), events[i]);
        Deliver(events[i]);
      }
    }
  }

  /** A page from its load on: new objects, then any events. */
  method PageLoad(events: seq<Event>) returns (manager: WebSocketManager)
    requires EnabledRun(START, events)
    ensures Connection.Inv(manager.World()) && manager.World() == Connection.Run(START, events)
  {
    var browser := new BrowserHost();
    var hook := new HookState();
    manager := new WebSocketManager(browser, hook);
    Connection.StartIsFine();
    manager.DeliverAll(events);
  }
}

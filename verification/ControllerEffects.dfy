/** What each event shows to the outside: the published labels, the responses and
    their codes, what is posted; and that a stopped controller stays silent. */
module ControllerEffects {
  import opened Wrappers
  import opened S = ControllerState
  import T = ControllerTheorems
  import L = ControllerLiveness

  // ---------- stopping ----------

  /** Stopped: nothing held, nothing waiting for an answer. */
  predicate Silent(c: Controller) {
    && !c.started && c.websocket.None? && c.nativePort.None? && c.currentRequest.None?
  }

  lemma StopParts(c: Controller)
    ensures var d := DisconnectNative(CancelReconnect(c.(started := false)), false);
            && OnStop(c) == DisconnectWebSocket(d)
            && Silent(d.(websocket := None)) && d.pendingQueue == [] && d.reconnectTimer.None?
            && |d.env.ports| == |c.env.ports|
            && d.websocket == c.websocket && d.env.ready == c.env.ready
            && d.env.timers == c.env.timers - (if c.reconnectTimer.Some? then {c.reconnectTimer.value} else {})
            && (forall q | 0 <= q < |c.env.ports| :: q < |d.env.ports|
                  && d.env.ports[q] == if c.nativePort == Some(q) then c.env.ports[q].(live := false) else c.env.ports[q])
  {
  }

  /** After stopping, from any state: not started; no socket, port, timer, request in
      flight or queue held; the socket held before is closing or closed, the port held
      before is dead, the timer held before is disarmed. */
  lemma StopLetsGoOfAll(c: Controller)
    ensures var v := Apply(c, Stop);
            && Silent(v) && v.pendingQueue == [] && v.reconnectTimer.None?
            && (c.websocket.Some? ==> ReadyState(v.env, c.websocket.value) >= 2)
            && (c.nativePort.Some? && c.nativePort.value < |c.env.ports| ==>
                  c.nativePort.value < |v.env.ports| && !v.env.ports[c.nativePort.value].live)
            && v.env.timers == c.env.timers - (if c.reconnectTimer.Some? then {c.reconnectTimer.value} else {})
  {
    StopParts(c);
  }

  /** From a state any orderly run can reach: after stopping no timer is armed, no port
      lives, and no socket is connecting or open. */
  lemma StopEndsEverything(c: Controller)
    requires T.Linked(c) && L.OneTimer(c) && L.NoOrphan(c)
    ensures var v := Apply(c, Stop);
            && v.env.timers == {}
            && (forall q | 0 <= q < |v.env.ports| :: !v.env.ports[q].live)
            && (forall s | 0 <= s < |v.env.ready| :: v.env.ready[s] >= 2)
  {
    StopParts(c);
    var d := DisconnectNative(CancelReconnect(c.(started := false)), false);
    var v := DisconnectWebSocket(d);
    assert v.env.ports == d.env.ports && v.env.timers == d.env.timers && |d.env.ports| == |c.env.ports|;
    forall s | 0 <= s < |v.env.ready| ensures v.env.ready[s] >= 2 {
      assert c.env.ready[s] < CLOSING ==> c.websocket == Some(s);
    }
  }

  /** From c to v no socket was created, no port opened, nothing posted, and no
      response went on the wire. */
  predicate Nothing(c: Controller, v: Controller) {
    && |v.env.ready| == |c.env.ready|
    && |v.env.ports| == |c.env.ports|
    && (forall q | 0 <= q < |c.env.ports| :: v.env.ports[q].posted == c.env.ports[q].posted)
    && c.responses <= v.responses
    && (forall i | |c.responses| <= i < |v.responses| :: !v.responses[i].onWire)
  }

  lemma SilentFlush(c: Controller, f: Faults)
    requires c.websocket.None?
    ensures FlushQueue(c, f) == Refresh(c)
  {
  }

  lemma SilentStep(c: Controller, e: Event)
    requires Silent(c) && Enabled(c, e) && !e.Start?
    ensures Silent(Apply(c, e)) && Nothing(c, Apply(c, e))
  {
    match e
    case Opened(s, f) => SilentFlush(Update(CancelReconnect(c.(env := SetReady(c.env, s, OPEN))), Connected, c.state.nativeHost), f);
    case Message(_, _, f) =>
      var r := T.Arriving(e);
      SilentFlush(Refresh(c.(pendingQueue := c.pendingQueue + r, accepted := c.accepted + r)), f);
    case Stop => StopParts(c);
    case _ =>
  }

  lemma NothingThrough(c: Controller, v: Controller, w: Controller)
    requires Nothing(c, v) && Nothing(v, w)
    ensures Nothing(c, w)
  {
  }

  /** Until it is started again a stopped controller does nothing, whatever happens. */
  lemma {:induction false} StoppedStaysSilent(c: Controller, run: seq<Event>)
    requires Silent(c) && Valid(c, run) && forall k | 0 <= k < |run| :: !run[k].Start?
    ensures Silent(Exec(c, run)) && Nothing(c, Exec(c, run))
    decreases |run|
  {
    if run != [] {
      var next := Apply(c, run[0]);
      assert !run[0].Start?;
      SilentStep(c, run[0]);
      assert forall k | 0 <= k < |run[1..]| :: run[1..][k] == run[k + 1];
      StoppedStaysSilent(next, run[1..]);
      NothingThrough(c, next, Exec(next, run[1..]));
    }
  }

  // ---------- the events that end by flushing the queue ----------

  predicate Flushes(c: Controller, e: Event) {
    e.Opened? || T.Arriving(e) != [] || (e.NativeReplied? && c.currentRequest.Some?)
  }

  function BeforeFlush(c: Controller, e: Event): Controller
    requires Enabled(c, e) && Flushes(c, e)
  {
    match e
    case Opened(s, _) =>
      var c1 := CancelReconnect(c.(env := SetReady(c.env, s, OPEN)));
      Update(c1, Connected, c1.state.nativeHost)
    case NativeReplied(p, isObject, body, _) =>
      var m := NativeMessage(p, c.env.ports[p].replied, isObject, body);
      SendResponse(c.(env := Advance(c.env, p)).(currentRequest := None), c.currentRequest.value,
                   if isObject then Success(m) else Failed(PROTO_INVALID_RESPONSE))
    case _ =>
      var r := T.Arriving(e);
      Refresh(c.(pendingQueue := c.pendingQueue + r, accepted := c.accepted + r))
  }

  lemma StepIsFlush(c: Controller, e: Event)
    requires Enabled(c, e) && Flushes(c, e)
    ensures Apply(c, e) == FlushQueue(BeforeFlush(c, e), e.f)
  {
  }

  // ---------- responses and what they carry ----------

  /** The responses from c to v are rejections with code 103, all on the wire or none. */
  predicate OnlyRejections(c: Controller, v: Controller, onWire: bool) {
    && c.responses <= v.responses
    && forall i | |c.responses| <= i < |v.responses| ::
         v.responses[i].answer == Failed(103) && v.responses[i].onWire == onWire
  }

  lemma LaunchRejects(c: Controller, postThrows: bool)
    requires c.pendingQueue != [] && SocketOpen(c)
    ensures OnlyRejections(c, Launch(c, postThrows), true)
  {
  }

  lemma FlushRejects(c: Controller, f: Faults)
    ensures OnlyRejections(c, FlushQueue(c, f), true)
  {
    if c.currentRequest.None? && c.pendingQueue != [] && SocketOpen(c) {
      LaunchRejects(ConnectNative(c, f.connectNative), f.post);
    }
  }

  /** The first response to a port's message answers the request in flight: with that
      message if it is an object, else with code 104; on the wire exactly if the socket
      is open. Any further ones are rejections. */
  lemma ReplyAnswersInFlight(c: Controller, p: PortId, isObject: bool, body: string, f: Faults)
    requires Enabled(c, NativeReplied(p, isObject, body, f))
    ensures var v := Apply(c, NativeReplied(p, isObject, body, f));
            var n := |c.responses|;
            if c.currentRequest.None? then v.responses == c.responses else
              && n < |v.responses| && v.responses[..n] == c.responses
              && v.responses[n].request == c.currentRequest.value
              && v.responses[n].answer == (if isObject then Success(NativeMessage(p, c.env.ports[p].replied, true, body)) else Failed(104))
              && v.responses[n].onWire == (c.websocket.Some? && ReadyState(c.env, c.websocket.value) == 1)
              && (forall i | n < i < |v.responses| :: v.responses[i].answer == Failed(103))
  {
    var e := NativeReplied(p, isObject, body, f);
    if c.currentRequest.Some? {
      StepIsFlush(c, e);
      FlushRejects(BeforeFlush(c, e), f);
      assert BeforeFlush(c, e).responses[..|c.responses|] == c.responses;
    }
  }

  lemma CloseRejects(c: Controller)
    ensures OnlyRejections(c, OnClose(c), false) && OnlyRejections(c, DisconnectWebSocket(c), false)
  {
  }

  lemma StopRejects(c: Controller)
    ensures OnlyRejections(c, OnStop(c), SocketOpen(c))
  {
    var d := DisconnectNative(CancelReconnect(c.(started := false)), false);
    assert OnlyRejections(c, d, SocketOpen(c)) && d.currentRequest.None? && d.pendingQueue == [];
    assert DisconnectWebSocket(d).responses == d.responses;
  }

  lemma PlainRejects(c: Controller, e: Event)
    requires Enabled(c, e) && !Flushes(c, e) && !e.Stop? && !e.SettingsSaved? && !e.Closed?
    ensures OnlyRejections(c, Apply(c, e), e.NativeGone? && SocketOpen(c))
  {
  }

  /** Every event but a port's message adds only rejections. They reach the daemon when
      the queue is flushed, and when the controller stops or loses its port with the
      socket open; never when a socket closes. */
  lemma OthersOnlyReject(c: Controller, e: Event)
    requires Enabled(c, e) && !e.NativeReplied?
    ensures OnlyRejections(c, Apply(c, e), Flushes(c, e) || ((e.Stop? || e.NativeGone?) && SocketOpen(c)))
  {
    if Flushes(c, e) {
      StepIsFlush(c, e);
      FlushRejects(BeforeFlush(c, e), e.f);
    } else {
      match e
      case Stop => StopRejects(c);
      case SettingsSaved(_) => CloseRejects(Refresh(c));
      case Closed(s) => CloseRejects(c.(env := SetReady(c.env, s, CLOSED)));
      case _ => PlainRejects(c, e);
    }
  }

  // ---------- posting ----------

  predicate NothingPosted(c: Controller, v: Controller) {
    && |c.env.ports| <= |v.env.ports|
    && (forall q | 0 <= q < |c.env.ports| :: v.env.ports[q].posted == c.env.ports[q].posted)
    && (forall q | |c.env.ports| <= q < |v.env.ports| :: v.env.ports[q].posted == [])
  }

  lemma FlushPostsWhenOpen(c: Controller, f: Faults)
    ensures NothingPosted(c, FlushQueue(c, f)) || SocketOpen(FlushQueue(c, f))
  {
    L.FlushKeepsLine(c, f);
  }

  lemma BeforeFlushPostsNothing(c: Controller, e: Event)
    requires Enabled(c, e) && Flushes(c, e)
    ensures NothingPosted(c, BeforeFlush(c, e))
  {
  }

  lemma SocketCallsKeepPorts(c: Controller, throws: bool)
    ensures OnClose(c).env.ports == c.env.ports && DisconnectWebSocket(c).env.ports == c.env.ports
    ensures ConnectWebSocket(c, throws).env.ports == c.env.ports
  {
  }

  lemma PlainPostsNothing(c: Controller, e: Event)
    requires Enabled(c, e) && !Flushes(c, e) && !e.Stop? && !e.SettingsSaved? && !e.Closed?
    ensures NothingPosted(c, Apply(c, e))
  {
  }

  lemma QuietPostsNothing(c: Controller, e: Event)
    requires Enabled(c, e) && !Flushes(c, e)
    ensures NothingPosted(c, Apply(c, e))
  {
    match e
    case Stop =>
      StopParts(c);
      SocketCallsKeepPorts(DisconnectNative(CancelReconnect(c.(started := false)), false), false);
    case SettingsSaved(throws) =>
      SocketCallsKeepPorts(Refresh(c), false);
      SocketCallsKeepPorts(DisconnectWebSocket(Refresh(c)), throws);
    case Closed(s) => SocketCallsKeepPorts(c.(env := SetReady(c.env, s, CLOSED)), false);
    case _ => PlainPostsNothing(c, e);
  }

  /** Whenever an event posts a request, the controller holds an open socket. */
  lemma PostsOnlyWhenOpen(c: Controller, e: Event)
    requires Enabled(c, e)
    ensures NothingPosted(c, Apply(c, e)) || SocketOpen(Apply(c, e))
  {
    if Flushes(c, e) {
      StepIsFlush(c, e);
      BeforeFlushPostsNothing(c, e);
      FlushPostsWhenOpen(BeforeFlush(c, e), e.f);
    } else {
      QuietPostsNothing(c, e);
    }
  }

  // ---------- published labels ----------

  /** The label of the native host says "connected" exactly when a port is held. */
  predicate PortShown(c: Controller) {
    c.nativePort.Some? <==> c.state.nativeHost == Connected
  }

  lemma FlushShows(c: Controller, f: Faults)
    requires PortShown(c)
    ensures var v := FlushQueue(c, f);
            && PortShown(v) && v.state.websocket == c.state.websocket
            && (v.state.nativeHost == c.state.nativeHost
                || (c.nativePort.None? && v.state.nativeHost == (if f.connectNative then Faulted else Connected)))
  {
  }

  /** How an event changes the label of the socket. */
  function SocketLabel(c: Controller, e: Event): Label
    requires Enabled(c, e)
  {
    var closesNow := c.websocket.Some? && ReadyState(c.env, c.websocket.value) < 2 && c.env.closesSynchronously;
    match e
    case Opened(_, _) => Connected
    case SocketFault(_) => Faulted
    case Closed(_) => Disconnected
    case SettingsSaved(throws) =>
      if c.started then (if throws then Faulted else Connecting)
      else if closesNow then Disconnected else c.state.websocket
    case SettingsLoaded(throws) =>
      if c.started && c.websocket.None? then (if throws then Faulted else Connecting) else c.state.websocket
    case TimerFired(_, throws) =>
      if c.started && c.websocket.None? then (if throws then Faulted else Connecting) else c.state.websocket
    case Stop => if closesNow then Disconnected else c.state.websocket
    case _ => c.state.websocket
  }

  lemma StopShows(c: Controller)
    ensures var v := OnStop(c);
            && v.state.nativeHost == Disconnected && v.nativePort.None?
            && v.state.websocket == (if c.websocket.Some? && ReadyState(c.env, c.websocket.value) < 2 && c.env.closesSynchronously
                                     then Disconnected else c.state.websocket)
  {
    var d := DisconnectNative(CancelReconnect(c.(started := false)), false);
    assert d.state.nativeHost == Disconnected && d.state.websocket == c.state.websocket;
    assert d.websocket == c.websocket && d.env.ready == c.env.ready;
  }

  lemma PlainShows(c: Controller, e: Event)
    requires PortShown(c) && Enabled(c, e) && !Flushes(c, e) && !e.Stop? && !e.SettingsSaved?
    ensures Apply(c, e).state.websocket == SocketLabel(c, e) && PortShown(Apply(c, e))
    ensures Apply(c, e).state.nativeHost ==
            if e.NativeGone? then (if e.runtimeError then Faulted else Disconnected) else c.state.nativeHost
  {
  }

  lemma SavedShows(c: Controller, throws: bool)
    requires PortShown(c)
    ensures var v := OnSettingsSaved(c, throws);
            v.state.websocket == SocketLabel(c, SettingsSaved(throws)) && PortShown(v) && v.state.nativeHost == c.state.nativeHost
  {
    var d := DisconnectWebSocket(Refresh(c));
    assert d.websocket.None? && d.started == c.started && PortShown(d) && d.state.nativeHost == c.state.nativeHost;
  }

  lemma BeforeFlushShows(c: Controller, e: Event)
    requires PortShown(c) && Enabled(c, e) && Flushes(c, e)
    ensures BeforeFlush(c, e).state.websocket == SocketLabel(c, e) && PortShown(BeforeFlush(c, e))
    ensures BeforeFlush(c, e).state.nativeHost == c.state.nativeHost && BeforeFlush(c, e).nativePort == c.nativePort
  {
  }

  /** Each event publishes this socket label, and keeps the port label honest. A lost
      port is shown as a fault exactly when the browser reported one; otherwise the port
      label changes only when a flush opens a port or fails to. */
  lemma LabelsAfterStep(c: Controller, e: Event)
    requires PortShown(c) && Enabled(c, e)
    ensures Apply(c, e).state.websocket == SocketLabel(c, e) && PortShown(Apply(c, e))
    ensures var shown := Apply(c, e).state.nativeHost;
            if e.NativeGone? then shown == (if e.runtimeError then Faulted else Disconnected)
            else if e.Stop? then shown == Disconnected
            else shown == c.state.nativeHost
                 || (Flushes(c, e) && c.nativePort.None? && shown == (if e.f.connectNative then Faulted else Connected))
  {
    if Flushes(c, e) {
      StepIsFlush(c, e);
      BeforeFlushShows(c, e);
      FlushShows(BeforeFlush(c, e), e.f);
    } else {
      match e
      case Stop => StopShows(c);
      case SettingsSaved(throws) => SavedShows(c, throws);
      case _ => PlainShows(c, e);
    }
  }

  /** Over any run the port label says "connected" exactly when a port is held. */
  lemma {:induction false} PortLabelIsHonest(c: Controller, run: seq<Event>)
    requires PortShown(c) && Valid(c, run)
    ensures PortShown(Exec(c, run))
    decreases |run|
  {
    if run != [] {
      LabelsAfterStep(c, run[0]);
      PortLabelIsHonest(Apply(c, run[0]), run[1..]);
    }
  }

  /** The socket label tells of a socket, or of its closing, only if there was one. */
  predicate SocketShown(c: Controller) {
    c.state.websocket in {Connecting, Connected, Disconnected} ==> c.env.ready != []
  }

  lemma FlushKeepsShown(c: Controller, f: Faults)
    requires SocketShown(c)
    ensures SocketShown(FlushQueue(c, f))
  {
    L.FlushKeepsLine(c, f);
  }

  lemma BeforeFlushShown(c: Controller, e: Event)
    requires SocketShown(c) && Enabled(c, e) && Flushes(c, e)
    ensures SocketShown(BeforeFlush(c, e))
  {
  }

  lemma SocketCallsShown(c: Controller, throws: bool)
    requires SocketShown(c) && (c.websocket.Some? ==> c.env.ready != [])
    ensures SocketShown(ConnectWebSocket(c, throws)) && SocketShown(DisconnectWebSocket(c))
  {
  }

  lemma SavedShown(c: Controller, throws: bool)
    requires SocketShown(c)
    ensures SocketShown(OnSettingsSaved(c, throws))
  {
    var d := DisconnectWebSocket(Refresh(c));
    assert d.websocket.None? && SocketShown(d);
    SocketCallsShown(d, throws);
  }

  lemma PlainShown(c: Controller, e: Event)
    requires SocketShown(c) && Enabled(c, e) && !Flushes(c, e) && !e.Stop? && !e.SettingsSaved?
    ensures SocketShown(Apply(c, e))
  {
  }

  lemma SocketShownStep(c: Controller, e: Event)
    requires SocketShown(c) && Enabled(c, e)
    ensures SocketShown(Apply(c, e))
  {
    if Flushes(c, e) {
      StepIsFlush(c, e);
      BeforeFlushShown(c, e);
      FlushKeepsShown(BeforeFlush(c, e), e.f);
    } else {
      match e
      case Stop =>
        StopParts(c);
        StopShows(c);
      case SettingsSaved(throws) => SavedShown(c, throws);
      case _ => PlainShown(c, e);
    }
  }

  /** In every reachable state the socket label is about a socket, and the port label says
      "connected" exactly when a port is held. */
  lemma ReachableLabels(closesSynchronously: bool, run: seq<Event>)
    requires Valid(Initial(closesSynchronously), run)
    ensures SocketShown(Exec(Initial(closesSynchronously), run)) && PortShown(Exec(Initial(closesSynchronously), run))
  {
    PortLabelIsHonest(Initial(closesSynchronously), run);
    SocketShownThrough(Initial(closesSynchronously), run);
  }

  lemma {:induction false} SocketShownThrough(c: Controller, run: seq<Event>)
    requires SocketShown(c) && Valid(c, run)
    ensures SocketShown(Exec(c, run))
    decreases |run|
  {
    if run != [] {
      SocketShownStep(c, run[0]);
      SocketShownThrough(Apply(c, run[0]), run[1..]);
    }
  }
}

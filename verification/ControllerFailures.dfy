/** Concrete runs in which a socket closing at the wrong moment, or a failed load,
    costs the controller its way back or pairs a reply with the wrong request. */
module ControllerFailures {
  import opened Wrappers
  import opened S = ControllerState
  import T = ControllerTheorems
  import opened L = ControllerLiveness

  lemma ExecThen(c: Controller, run: seq<Event>, e: Event)
    requires Valid(c, run) && Enabled(Exec(c, run), e)
    ensures Valid(c, run + [e]) && Exec(c, run + [e]) == Apply(Exec(c, run), e)
    decreases |run|
  {
    if run == [] {
      assert run + [e] == [e] && [e][1..] == [];
    } else {
      ExecThen(Apply(c, run[0]), run[1..], e);
      assert (run + [e])[1..] == run[1..] + [e];
    }
  }

  ghost predicate Reachable(sync: bool, c: Controller) {
    exists run: seq<Event> :: Valid(Initial(sync), run) && Exec(Initial(sync), run) == c
  }

  lemma ReachableThen(sync: bool, c: Controller, e: Event)
    requires Reachable(sync, c) && Enabled(c, e)
    ensures Reachable(sync, Apply(c, e))
  {
    var run :| Valid(Initial(sync), run) && Exec(Initial(sync), run) == c;
    ExecThen(Initial(sync), run, e);
  }

  const CALM := Faults(false, false)
  const FIRST := Message(0, Envelope(true, "bridge-1", "first"), CALM)
  const SECOND := Message(1, Envelope(true, "bridge-2", "second"), CALM)
  const ANSWER := NativeReplied(0, true, "answer to first", CALM)

  /** Flushing one waiting request into an open line posts it. */
  lemma FlushOne(c: Controller, r: Request)
    requires c.pendingQueue == [r] && c.currentRequest.None? && SocketOpen(c)
    requires c.nativePort.None? || c.nativePort.value < |c.env.ports|
    ensures var c1 := ConnectNative(c, false);
            var v := FlushQueue(c, CALM);
            && v.currentRequest == Some(r) && v.pendingQueue == [] && v.nativePort == c1.nativePort
            && v.responses == c.responses && v.env == Deliver(c1.env, c1.nativePort.value, Posted(|c.responses|, r.payload))
  {
  }

  // The states of one run: opened, a request in flight, closed under it and opened
  // again, a second request in flight, the port's answer to the first.

  predicate FirstConnecting(c: Controller) {
    && c.started && c.loads == 0 && c.websocket == Some(0) && c.reconnectTimer.None? && c.nativePort.None?
    && c.env == Env(c.env.closesSynchronously, [CONNECTING], {}, 0, [])
    && c.currentRequest.None? && c.pendingQueue == [] && c.responses == [] && c.accepted == []
  }

  predicate JustOpened(c: Controller) {
    && c.started && c.loads == 0 && c.websocket == Some(0) && c.reconnectTimer.None? && c.nativePort.None?
    && c.env == Env(c.env.closesSynchronously, [OPEN], {}, 0, [])
    && c.currentRequest.None? && c.pendingQueue == [] && c.responses == [] && c.accepted == []
  }

  predicate FirstInFlight(c: Controller) {
    && c.started && c.loads == 0 && c.websocket == Some(0) && c.reconnectTimer.None?
    && c.env == Env(c.env.closesSynchronously, [OPEN], {}, 0, [Port(true, [Posted(0, "first")], 0)])
    && c.nativePort == Some(0) && c.responses == []
    && c.currentRequest == Some(Request("bridge-1", "first")) && c.pendingQueue == []
  }

  predicate ClosedUnderFirst(c: Controller) {
    && c.started && c.websocket.None? && c.reconnectTimer == Some(0)
    && c.env == Env(c.env.closesSynchronously, [CLOSED], {0}, 1, [Port(true, [Posted(0, "first")], 0)])
    && c.nativePort == Some(0) && |c.responses| == 1 && c.responses[0].answer.Failed?
    && c.currentRequest.None? && c.pendingQueue == []
  }

  predicate Reconnecting(c: Controller) {
    && c.started && c.websocket == Some(1)
    && c.env == Env(c.env.closesSynchronously, [CLOSED, CONNECTING], {}, 1, [Port(true, [Posted(0, "first")], 0)])
    && c.nativePort == Some(0) && |c.responses| == 1 && c.responses[0].answer.Failed?
    && c.currentRequest.None? && c.pendingQueue == []
  }

  predicate ReopenedOwing(c: Controller) {
    && c.websocket == Some(1) && c.env.ready == [CLOSED, OPEN]
    && c.env.ports == [Port(true, [Posted(0, "first")], 0)]
    && c.nativePort == Some(0) && |c.responses| == 1 && c.responses[0].answer.Failed?
    && c.currentRequest.None? && c.pendingQueue == []
  }

  const OWING := Port(true, [Posted(0, "first"), Posted(1, "second")], 0)

  predicate SecondInFlight(c: Controller) {
    && c.websocket == Some(1) && c.env.ready == [CLOSED, OPEN] && c.env.ports == [OWING]
    && |c.responses| == 1 && c.responses[0].answer.Failed?
    && c.currentRequest == Some(Request("bridge-2", "second")) && c.pendingQueue == []
  }

  /** The second request was answered with the port's answer to the first. */
  predicate Mispaired(c: Controller) {
    && c.env.ports == [OWING.(replied := 1)] && |c.responses| == 2 && c.responses[0].answer.Failed?
    && c.responses[1] == Response(Request("bridge-2", "second"), Success(NativeMessage(0, 0, true, "answer to first")), true)
  }

  lemma FirstConnects(sync: bool)
    ensures Enabled(Initial(sync), Start) && Enabled(Apply(Initial(sync), Start), SettingsLoaded(false))
    ensures var c := Apply(Apply(Initial(sync), Start), SettingsLoaded(false));
            FirstConnecting(c) && c.env.closesSynchronously == sync
  {
    assert Apply(Apply(Initial(sync), Start), SettingsLoaded(false)).env.ready == [CONNECTING];
  }

  lemma FirstOpens(c: Controller)
    requires FirstConnecting(c)
    ensures Enabled(c, Opened(0, CALM)) && JustOpened(Apply(c, Opened(0, CALM)))
    ensures Apply(c, Opened(0, CALM)).env.closesSynchronously == c.env.closesSynchronously
  {
    assert Apply(c, Opened(0, CALM)).env.ready == [OPEN];
  }

  lemma FirstArrives(c: Controller)
    requires JustOpened(c)
    ensures Enabled(c, FIRST) && FirstInFlight(Apply(c, FIRST))
  {
    var r := Request("bridge-1", "first");
    var queued := Refresh(c.(pendingQueue := [r], accepted := [r]));
    FlushOne(queued, r);
    FlushKeepsLine(queued, CALM);
    assert Apply(c, FIRST).env.ports[0].posted == [Posted(0, "first")];
  }

  lemma ClosesUnderFirst(c: Controller)
    requires FirstInFlight(c)
    ensures Enabled(c, Closed(0)) && ClosedUnderFirst(Apply(c, Closed(0)))
  {
    assert Apply(c, Closed(0)).env.ready == [CLOSED];
  }

  lemma Reconnects(c: Controller)
    requires ClosedUnderFirst(c)
    ensures Enabled(c, TimerFired(0, false)) && Reconnecting(Apply(c, TimerFired(0, false)))
  {
    assert Apply(c, TimerFired(0, false)).env.ready == [CLOSED, CONNECTING];
  }

  lemma Reopens(c: Controller)
    requires Reconnecting(c)
    ensures Enabled(c, Opened(1, CALM)) && ReopenedOwing(Apply(c, Opened(1, CALM)))
  {
  }

  lemma SecondArrives(c: Controller)
    requires ReopenedOwing(c)
    ensures Enabled(c, SECOND) && SecondInFlight(Apply(c, SECOND))
  {
    var r := Request("bridge-2", "second");
    var queued := Refresh(c.(pendingQueue := [r], accepted := c.accepted + [r]));
    FlushOne(queued, r);
    FlushKeepsLine(queued, CALM);
    assert Apply(c, SECOND).env.ports[0] == OWING;
  }

  lemma AnswerIsMispaired(c: Controller)
    requires SecondInFlight(c)
    ensures Enabled(c, ANSWER) && Mispaired(Apply(c, ANSWER))
  {
  }

  lemma OpensFirst(sync: bool) returns (c: Controller)
    ensures Reachable(sync, c) && JustOpened(c) && c.env.closesSynchronously == sync
  {
    c := Initial(sync);
    assert Valid(c, []) && Exec(c, []) == c;
    FirstConnects(sync);
    ReachableThen(sync, c, Start);
    c := Apply(c, Start);
    ReachableThen(sync, c, SettingsLoaded(false));
    c := Apply(c, SettingsLoaded(false));
    FirstOpens(c);
    ReachableThen(sync, c, Opened(0, CALM));
    c := Apply(c, Opened(0, CALM));
  }

  lemma PostsFirst(sync: bool) returns (c: Controller)
    ensures Reachable(sync, c) && FirstInFlight(c) && c.env.closesSynchronously == sync
  {
    var c0 := OpensFirst(sync);
    FirstArrives(c0);
    ReachableThen(sync, c0, FIRST);
    c := Apply(c0, FIRST);
  }

  /** The socket closes under request 1; after the reconnect request 2 is posted,
      and the port's answer to request 1 is sent as the answer to request 2. */
  lemma CloseInFlightMispairs(sync: bool)
    ensures exists c :: Reachable(sync, c) && Mispaired(c) && !T.Matched(c)
  {
    var c := PostsFirst(sync);
    ClosesUnderFirst(c);
    ReachableThen(sync, c, Closed(0));
    c := Apply(c, Closed(0));
    Reconnects(c);
    ReachableThen(sync, c, TimerFired(0, false));
    c := Apply(c, TimerFired(0, false));
    Reopens(c);
    ReachableThen(sync, c, Opened(1, CALM));
    c := Apply(c, Opened(1, CALM));
    SecondArrives(c);
    ReachableThen(sync, c, SECOND);
    c := Apply(c, SECOND);
    AnswerIsMispaired(c);
    ReachableThen(sync, c, ANSWER);
    c := Apply(c, ANSWER);
    assert c.env.ports[0].posted[0].position == 0;
  }

  /** Settings saved under an open socket: it is closing, its successor connecting. */
  lemma Resettled() returns (c: Controller)
    ensures Reachable(false, c) && c.started && c.loads == 0
    ensures c.websocket == Some(1) && c.reconnectTimer.None?
    ensures c.env.ready == [CLOSING, CONNECTING] && c.env.timers == {} && c.pendingQueue == []
  {
    var c0 := PostsFirst(false);
    ReachableThen(false, c0, SettingsSaved(false));
    c := Apply(c0, SettingsSaved(false));
    assert c.env.ready == [CLOSING, CONNECTING];
  }

  /** With sockets that close later, as browsers' do, saving the settings strands
      the controller: the old socket's close drops the new one, whose opening then
      cancels the retry. It holds no socket and no timer, with the new one open. */
  lemma LateCloseStrands()
    ensures exists c ::
              && Reachable(false, c) && Stranded(c) && c.env.timers == {} && c.env.ready == [CLOSED, OPEN]
  {
    var c1 := Resettled();
    ReachableThen(false, c1, Closed(0));
    var c2 := Apply(c1, Closed(0));
    assert c2.env.ready == [CLOSED, CONNECTING] && c2.websocket.None? && c2.pendingQueue == [];
    ReachableThen(false, c2, Opened(1, CALM));
    var c3 := Apply(c2, Opened(1, CALM));
    assert c3.env.ready == [CLOSED, OPEN] && c3.env.timers == {};
  }

  /** A rejected load leaves the controller started with nothing to go by, and
      starting again changes nothing. */
  lemma FailedLoadStrands(sync: bool)
    ensures exists c :: Reachable(sync, c) && Stranded(c) && Apply(c, Start) == c
  {
    var c0 := Initial(sync);
    assert Valid(c0, []) && Exec(c0, []) == c0;
    ReachableThen(sync, c0, Start);
    var c1 := Apply(c0, Start);
    ReachableThen(sync, c1, LoadFailed);
    var c2 := Apply(c1, LoadFailed);
    assert Stranded(c2) && Apply(c2, Start) == c2;
  }
}

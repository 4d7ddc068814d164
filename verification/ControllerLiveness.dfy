/** When the controller has a way back to the daemon: exactly which events strand
    it, and the invariant it keeps in runs without a late close or a failed load. */
module ControllerLiveness {
  import opened Wrappers
  import opened S = ControllerState

  /** At most one timer is armed, and it is the one on record. */
  ghost predicate OneTimer(c: Controller) {
    && c.env.timers == (if c.reconnectTimer.Some? then {c.reconnectTimer.value} else {})
    && (c.reconnectTimer.Some? ==> c.reconnectTimer.value < c.env.nextTimer)
  }

  /** No socket is connecting or open but the one the controller holds. */
  ghost predicate NoOrphan(c: Controller) {
    && (c.websocket.Some? ==> c.websocket.value < |c.env.ready|)
    && (forall s | 0 <= s < |c.env.ready| :: c.env.ready[s] < CLOSING ==> c.websocket == Some(s))
  }

  /** Started, no load awaited, no socket held, no retry armed: nothing the controller
      has set in motion will connect it. */
  predicate Stranded(c: Controller) {
    c.started && c.loads == 0 && c.websocket.None? && c.reconnectTimer.None?
  }

  ghost predicate Anchored(c: Controller) {
    OneTimer(c) && NoOrphan(c) && !Stranded(c)
  }

  /** A socket the controller has already given up closes while a newer one lives. */
  predicate LateClose(c: Controller, e: Event) {
    e.Closed? && c.websocket.Some? && c.websocket.value != e.s && ReadyState(c.env, c.websocket.value) < CLOSING
  }

  /** A socket the controller does not hold opens: the open listener cancels the retry
      without asking whose socket it is. */
  predicate UnheldOpens(c: Controller, e: Event) {
    e.Opened? && c.started && c.loads == 0 && c.websocket.None?
  }

  /** The only load awaited fails, with nothing else to go by. */
  predicate LastLoadFails(c: Controller, e: Event) {
    e.LoadFailed? && c.started && c.loads == 1 && c.websocket.None? && c.reconnectTimer.None?
  }

  predicate Strands(c: Controller, e: Event) {
    UnheldOpens(c, e) || LastLoadFails(c, e)
  }

  /** The events that end a stranding; starting again is not one of them. */
  predicate Rescues(e: Event) {
    e.Stop? || e.SettingsSaved? || e.SettingsLoaded? || e.Closed? || e.TimerFired?
  }

  predicate SameLine(c: Controller, v: Controller) {
    && v.started == c.started && v.loads == c.loads && v.websocket == c.websocket
    && v.reconnectTimer == c.reconnectTimer && v.env.ready == c.env.ready
    && v.env.timers == c.env.timers && v.env.nextTimer == c.env.nextTimer
    && v.env.closesSynchronously == c.env.closesSynchronously
  }

  lemma FailKeepsLine(c: Controller)
    ensures SameLine(c, FailCurrentAndQueue(c))
  {
  }

  lemma LaunchKeepsLine(c: Controller, postThrows: bool)
    requires c.pendingQueue != []
    ensures SameLine(c, Launch(c, postThrows))
  {
    FailKeepsLine(c);
    FailKeepsLine(Promote(c));
  }

  lemma FlushKeepsLine(c: Controller, f: Faults)
    ensures SameLine(c, FlushQueue(c, f))
  {
    if c.currentRequest.None? && c.pendingQueue != [] && SocketOpen(c) {
      LaunchKeepsLine(ConnectNative(c, f.connectNative), f.post);
    }
  }

  lemma DisconnectNativeKeepsLine(c: Controller, runtimeError: bool)
    ensures SameLine(c, DisconnectNative(c, runtimeError))
  {
  }

  lemma FrameKeepsLine(c: Controller, frame: Frame, f: Faults)
    ensures SameLine(c, HandleWebSocketMessage(c, frame, f))
  {
    if frame.Envelope? && frame.isRequest && frame.requestId != "" {
      var r := Request(frame.requestId, frame.payload);
      FlushKeepsLine(Refresh(c.(pendingQueue := c.pendingQueue + [r], accepted := c.accepted + [r])), f);
    }
  }

  lemma ReplyKeepsLine(c: Controller, p: PortId, m: NativeMessage, f: Faults)
    ensures SameLine(c, HandleNativeMessage(c.(env := Advance(c.env, p)), m, f))
  {
    var c1 := c.(env := Advance(c.env, p));
    if c1.currentRequest.Some? {
      var answer := if m.isObject then Success(m) else Failed(PROTO_INVALID_RESPONSE);
      FlushKeepsLine(S.SendResponse(c1.(currentRequest := None), c1.currentRequest.value, answer), f);
    }
  }

  lemma SameLineAnchored(c: Controller, v: Controller)
    requires SameLine(c, v)
    ensures Anchored(v) <==> Anchored(c)
  {
  }

  lemma CloseAnchored(c: Controller, s: SocketId)
    requires Anchored(c) && Enabled(c, Closed(s))
    ensures Anchored(Apply(c, Closed(s))) <==> !LateClose(c, Closed(s))
  {
    var v := Apply(c, Closed(s));
    assert v.websocket.None?;
    if LateClose(c, Closed(s)) {
      assert v.env.ready[c.websocket.value] < CLOSING;
    }
  }

  lemma ConnectAnchored(c: Controller, throws: bool)
    requires OneTimer(c) && NoOrphan(c)
    ensures Anchored(ConnectWebSocket(c, throws))
  {
  }

  lemma DisconnectAnchored(c: Controller)
    requires OneTimer(c) && NoOrphan(c)
    ensures var v := DisconnectWebSocket(c); OneTimer(v) && NoOrphan(v) && v.started == c.started && v.loads == c.loads
  {
  }

  lemma StopAnchored(c: Controller)
    requires Anchored(c)
    ensures Anchored(OnStop(c))
  {
    var c1 := CancelReconnect(c.(started := false));
    DisconnectNativeKeepsLine(c1, false);
    DisconnectAnchored(DisconnectNative(c1, false));
  }

  lemma OpenAnchored(c: Controller, s: SocketId, f: Faults)
    requires Anchored(c) && Enabled(c, Opened(s, f))
    ensures Anchored(Apply(c, Opened(s, f)))
  {
    assert c.websocket == Some(s);
    var c1 := CancelReconnect(c.(env := SetReady(c.env, s, OPEN)));
    FlushKeepsLine(Update(c1, Connected, c1.state.nativeHost), f);
    SameLineAnchored(c1, Apply(c, Opened(s, f)));
  }

  predicate LosesHold(c: Controller, e: Event) {
    LateClose(c, e) || LastLoadFails(c, e)
  }

  lemma PlainAnchored(c: Controller, e: Event)
    requires Anchored(c) && Enabled(c, e) && (e.Start? || e.LoadFailed? || e.SocketFault? || e.PeerClosing?)
    ensures Anchored(Apply(c, e)) <==> !LastLoadFails(c, e)
  {
  }

  // Native messages and daemon frames touch neither socket nor timer.
  lemma MessageAnchored(c: Controller, e: Event)
    requires Enabled(c, e) && (e.Message? || e.NativeReplied? || e.NativeGone?)
    ensures Anchored(Apply(c, e)) <==> Anchored(c)
  {
    match e
    case Message(_, frame, f) => FrameKeepsLine(c, frame, f);
    case NativeReplied(p, isObject, body, f) =>
      ReplyKeepsLine(c, p, NativeMessage(p, c.env.ports[p].replied, isObject, body), f);
    case NativeGone(p, runtimeError) => DisconnectNativeKeepsLine(c.(env := Kill(c.env, p)), runtimeError);
  }

  lemma ConnectingAnchored(c: Controller, e: Event)
    requires Anchored(c) && Enabled(c, e) && (e.SettingsSaved? || e.SettingsLoaded? || e.TimerFired?)
    ensures Anchored(Apply(c, e))
  {
    match e
    case SettingsSaved(throws) =>
      DisconnectAnchored(Refresh(c));
      ConnectAnchored(DisconnectWebSocket(Refresh(c)), throws);
    case SettingsLoaded(throws) => ConnectAnchored(Refresh(c.(loads := c.loads - 1)), throws);
    case TimerFired(t, throws) =>
      ConnectAnchored(c.(env := c.env.(timers := c.env.timers - {t}), reconnectTimer := None), throws);
  }

  /** One event ends the invariant exactly when it is a late close or the failure of
      the last load. */
  lemma AnchoredAfterStep(c: Controller, e: Event)
    requires Anchored(c) && Enabled(c, e)
    ensures Anchored(Apply(c, e)) <==> !LosesHold(c, e)
  {
    if e.Closed? {
      CloseAnchored(c, e.s);
    } else if e.Stop? {
      StopAnchored(c);
    } else if e.Opened? {
      OpenAnchored(c, e.s, e.f);
    } else if e.SettingsSaved? || e.SettingsLoaded? || e.TimerFired? {
      ConnectingAnchored(c, e);
    } else if e.Message? || e.NativeReplied? || e.NativeGone? {
      MessageAnchored(c, e);
    } else {
      PlainAnchored(c, e);
    }
  }

  predicate SteadyRun(c: Controller, run: seq<Event>)
    requires Valid(c, run)
    decreases |run|
  {
    run == [] || (!LosesHold(c, run[0]) && SteadyRun(Apply(c, run[0]), run[1..]))
  }

  ghost predicate AlwaysAnchored(c: Controller, run: seq<Event>)
    requires Valid(c, run)
    decreases |run|
  {
    Anchored(c) && (run == [] || AlwaysAnchored(Apply(c, run[0]), run[1..]))
  }

  /** The invariant holds at every point of a run if and only if the run has no late
      close and no failure of the last load. */
  lemma {:induction false} AnchoredThroughoutExactly(c: Controller, run: seq<Event>)
    requires Anchored(c) && Valid(c, run)
    ensures AlwaysAnchored(c, run) <==> SteadyRun(c, run)
    ensures SteadyRun(c, run) ==> Anchored(Exec(c, run))
    decreases |run|
  {
    if run != [] {
      var next := Apply(c, run[0]);
      AnchoredAfterStep(c, run[0]);
      if Anchored(next) {
        AnchoredThroughoutExactly(next, run[1..]);
      } else {
        assert !AlwaysAnchored(next, run[1..]);
      }
    }
  }

  /** After every such run the controller is not stranded, no socket but its own is
      connecting or open, and at most one timer is armed. */
  lemma NeverStranded(closesSynchronously: bool, run: seq<Event>)
    requires Valid(Initial(closesSynchronously), run) && SteadyRun(Initial(closesSynchronously), run)
    ensures var c := Exec(Initial(closesSynchronously), run);
            && !Stranded(c)
            && (forall s | 0 <= s < |c.env.ready| :: c.env.ready[s] < CLOSING ==> c.websocket == Some(s))
            && |c.env.timers| <= 1
  {
    AnchoredThroughoutExactly(Initial(closesSynchronously), run);
  }

  // ---------- being stranded, exactly ----------

  lemma ConnectedIsNotStranded(c: Controller, throws: bool)
    ensures !Stranded(ConnectWebSocket(c, throws))
  {
  }

  lemma StopIsNotStranded(c: Controller)
    ensures !Stranded(OnStop(c))
  {
    var c1 := CancelReconnect(c.(started := false));
    DisconnectNativeKeepsLine(c1, false);
  }

  lemma OpenStrands(c: Controller, s: SocketId, f: Faults)
    ensures Stranded(OnOpen(c.(env := SetReady(c.env, s, OPEN)), f)) <==> c.started && c.loads == 0 && c.websocket.None?
  {
    var c1 := CancelReconnect(c.(env := SetReady(c.env, s, OPEN)));
    FlushKeepsLine(Update(c1, Connected, c1.state.nativeHost), f);
  }

  /** From any state, one event leaves the controller stranded if and only if it
      strands it, or it was stranded and the event does not rescue it. A late close
      alone never does. */
  lemma StrandedAfterStep(c: Controller, e: Event)
    requires Enabled(c, e)
    ensures Stranded(Apply(c, e)) <==> Strands(c, e) || (Stranded(c) && !Rescues(e))
  {
    match e
    case Stop => StopIsNotStranded(c);
    case SettingsSaved(throws) => ConnectedIsNotStranded(DisconnectWebSocket(Refresh(c)), throws);
    case SettingsLoaded(throws) => ConnectedIsNotStranded(Refresh(c.(loads := c.loads - 1)), throws);
    case TimerFired(t, throws) =>
      ConnectedIsNotStranded(c.(env := c.env.(timers := c.env.timers - {t}), reconnectTimer := None), throws);
    case Opened(s, f) => OpenStrands(c, s, f);
    case Message(_, frame, f) => FrameKeepsLine(c, frame, f);
    case NativeReplied(p, isObject, body, f) =>
      ReplyKeepsLine(c, p, NativeMessage(p, c.env.ports[p].replied, isObject, body), f);
    case NativeGone(p, runtimeError) => DisconnectNativeKeepsLine(c.(env := Kill(c.env, p)), runtimeError);
    case _ =>
  }

  /** The state before event number k of a run. */
  function At(c: Controller, run: seq<Event>, k: nat): Controller
    requires Valid(c, run) && k <= |run|
    decreases |run|
  {
    if k == 0 then c else At(Apply(c, run[0]), run[1..], k - 1)
  }

  predicate Unrescued(run: seq<Event>, from: nat) {
    forall j | from <= j < |run| :: !Rescues(run[j])
  }

  predicate StrandsAt(c: Controller, run: seq<Event>, k: nat)
    requires Valid(c, run) && k < |run|
  {
    Strands(At(c, run, k), run[k]) && Unrescued(run, k + 1)
  }

  lemma UnrescuedTail(run: seq<Event>, k: nat)
    requires run != []
    ensures Unrescued(run, k + 1) <==> Unrescued(run[1..], k)
  {
    if Unrescued(run[1..], k) {
      forall j | k + 1 <= j < |run| ensures !Rescues(run[j]) {
        assert run[j] == run[1..][j - 1];
      }
    }
  }

  lemma StrandsAtTail(c: Controller, run: seq<Event>)
    requires Valid(c, run) && run != []
    ensures (exists k: nat :: k < |run| && StrandsAt(c, run, k))
       <==> StrandsAt(c, run, 0) || (exists k: nat :: k < |run[1..]| && StrandsAt(Apply(c, run[0]), run[1..], k))
  {
    var next, rest := Apply(c, run[0]), run[1..];
    forall k: nat | k < |rest| ensures StrandsAt(next, rest, k) <==> StrandsAt(c, run, k + 1) {
      assert rest[k] == run[k + 1] && At(next, rest, k) == At(c, run, k + 1);
      UnrescuedTail(run, k + 1);
    }
    if k: nat :| k < |run| && k > 0 && StrandsAt(c, run, k) {
      assert k - 1 < |rest| && StrandsAt(next, rest, k - 1);
    }
  }

  /** Over any run from any state: the controller ends stranded if and only if it
      began so and was not rescued, or some event stranded it and none after that
      rescued it. */
  lemma {:induction false} StrandedExactly(c: Controller, run: seq<Event>)
    requires Valid(c, run)
    ensures Stranded(Exec(c, run))
       <==> (Stranded(c) && Unrescued(run, 0)) || (exists k: nat :: k < |run| && StrandsAt(c, run, k))
    decreases |run|
  {
    if run != [] {
      StrandedAfterStep(c, run[0]);
      StrandedExactly(Apply(c, run[0]), run[1..]);
      StrandsAtTail(c, run);
      UnrescuedTail(run, 0);
      assert Unrescued(run, 0) <==> !Rescues(run[0]) && Unrescued(run, 1);
    }
  }

  // ---------- sockets that close at once ----------

  /** Sockets whose `close()` fires its event at once and which the peer never
      leaves half closed. */
  ghost predicate Prompt(c: Controller) {
    c.env.closesSynchronously && forall s | 0 <= s < |c.env.ready| :: c.env.ready[s] != CLOSING
  }

  lemma PromptDisconnect(c: Controller)
    requires Prompt(c)
    ensures Prompt(DisconnectWebSocket(c))
  {
  }

  lemma PromptOpen(c: Controller, s: SocketId, f: Faults)
    requires Prompt(c)
    ensures Prompt(OnOpen(c.(env := SetReady(c.env, s, OPEN)), f))
  {
    var c1 := CancelReconnect(c.(env := SetReady(c.env, s, OPEN)));
    FlushKeepsLine(Update(c1, Connected, c1.state.nativeHost), f);
  }

  lemma PromptStop(c: Controller)
    requires Prompt(c)
    ensures Prompt(OnStop(c))
  {
    var c1 := CancelReconnect(c.(started := false));
    DisconnectNativeKeepsLine(c1, false);
    PromptDisconnect(DisconnectNative(c1, false));
  }

  lemma PromptStep(c: Controller, e: Event)
    requires Prompt(c) && Enabled(c, e) && !e.PeerClosing?
    ensures Prompt(Apply(c, e))
  {
    match e
    case Message(_, frame, f) => FrameKeepsLine(c, frame, f);
    case NativeReplied(p, isObject, body, f) =>
      ReplyKeepsLine(c, p, NativeMessage(p, c.env.ports[p].replied, isObject, body), f);
    case NativeGone(p, runtimeError) => DisconnectNativeKeepsLine(c.(env := Kill(c.env, p)), runtimeError);
    case Opened(s, f) => PromptOpen(c, s, f);
    case Stop => PromptStop(c);
    case SettingsSaved(_) => PromptDisconnect(Refresh(c));
    case _ =>
  }

  /** With such sockets no close is ever late: only a failed load can strand the controller. */
  lemma {:induction false} PromptSocketsNeverStrand(c: Controller, run: seq<Event>)
    requires Anchored(c) && Prompt(c) && Valid(c, run)
    requires forall i | 0 <= i < |run| :: !run[i].PeerClosing? && !run[i].LoadFailed?
    ensures SteadyRun(c, run) && Anchored(Exec(c, run))
    decreases |run|
  {
    if run != [] {
      var next := Apply(c, run[0]);
      assert run[0] == run[0] && !run[0].PeerClosing?;
      PromptStep(c, run[0]);
      AnchoredAfterStep(c, run[0]);
      PromptSocketsNeverStrand(next, run[1..]);
    }
  }
}

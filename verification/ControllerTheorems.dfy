/** In-order exactly-once answering, no idle work, and which payload a success
    response carries, over every run of the controller. */
module ControllerTheorems {
  import opened Wrappers
  import opened S = ControllerState

  function Requests(responses: seq<Response>): seq<Request> {
    seq(|responses|, i requires 0 <= i < |responses| => responses[i].request)
  }

  /** Accepted requests are the answered ones, in order, then the one in flight, then the queue. */
  ghost predicate Accounted(c: Controller) {
    c.accepted == Requests(c.responses) + InFlight(c) + c.pendingQueue
  }

  /** The published depth is right, and no request waits while the line is free. */
  ghost predicate Tidy(c: Controller) {
    && c.state.queueDepth == |c.pendingQueue| + |InFlight(c)|
    && (c.pendingQueue != [] && c.currentRequest.None? ==> !SocketOpen(c))
  }

  lemma RequestsAppend(a: seq<Response>, b: seq<Response>)
    ensures Requests(a + b) == Requests(a) + Requests(b)
  {
  }

  lemma FailAccounted(c: Controller)
    requires Accounted(c)
    ensures Accounted(FailCurrentAndQueue(c)) && Tidy(FailCurrentAndQueue(c))
  {
    var rejected := InFlight(c) + c.pendingQueue;
    RequestsAppend(c.responses, Rejections(rejected, SocketOpen(c)));
    assert Requests(Rejections(rejected, SocketOpen(c))) == rejected;
  }

  lemma LaunchAccounted(c: Controller, postThrows: bool)
    requires Accounted(c) && c.pendingQueue != [] && c.currentRequest.None?
    ensures Accounted(Launch(c, postThrows)) && Tidy(Launch(c, postThrows))
  {
    assert c.pendingQueue == [c.pendingQueue[0]] + c.pendingQueue[1..];
    assert Accounted(Promote(c));
    if c.nativePort.None? {
      FailAccounted(c);
    } else if postThrows {
      FailAccounted(Promote(c));
    }
  }

  lemma FlushAccounted(c: Controller, f: Faults)
    requires Accounted(c)
    ensures Accounted(FlushQueue(c, f)) && Tidy(FlushQueue(c, f))
  {
    if c.currentRequest.None? && c.pendingQueue != [] && SocketOpen(c) {
      LaunchAccounted(ConnectNative(c, f.connectNative), f.post);
    }
  }

  lemma CloseAccounted(c: Controller)
    requires Accounted(c)
    ensures Accounted(OnClose(c)) && Tidy(OnClose(c)) && OnClose(c).pendingQueue == []
  {
    var c1 := c.(websocket := None);
    FailAccounted(Update(c1, Disconnected, c1.state.nativeHost));
  }

  lemma DisconnectAccounted(c: Controller)
    requires Accounted(c) && Tidy(c)
    ensures Accounted(DisconnectWebSocket(c)) && Tidy(DisconnectWebSocket(c))
  {
    if c.websocket.Some? && ReadyState(c.env, c.websocket.value) < CLOSING && c.env.closesSynchronously {
      CloseAccounted(c.(websocket := None, env := SetReady(c.env, c.websocket.value, CLOSED)));
    }
  }

  lemma DisconnectNativeAccounted(c: Controller, runtimeError: bool)
    requires Accounted(c)
    ensures Accounted(DisconnectNative(c, runtimeError)) && Tidy(DisconnectNative(c, runtimeError))
  {
    var e := if c.nativePort.Some? then Kill(c.env, c.nativePort.value) else c.env;
    FailAccounted(Update(c.(nativePort := None, env := e), c.state.websocket, if runtimeError then Faulted else Disconnected));
  }

  lemma ReplyAccounted(c: Controller, m: NativeMessage, f: Faults)
    requires Accounted(c) && Tidy(c)
    ensures Accounted(HandleNativeMessage(c, m, f)) && Tidy(HandleNativeMessage(c, m, f))
  {
    if c.currentRequest.Some? {
      var answer := if m.isObject then Success(m) else Failed(PROTO_INVALID_RESPONSE);
      var c1 := S.SendResponse(c.(currentRequest := None), c.currentRequest.value, answer);
      assert Requests(c1.responses) == Requests(c.responses) + [c.currentRequest.value];
      FlushAccounted(c1, f);
    }
  }

  lemma ConnectTidy(c: Controller, createThrows: bool)
    requires Accounted(c) && Tidy(c)
    ensures Accounted(ConnectWebSocket(c, createThrows)) && Tidy(ConnectWebSocket(c, createThrows))
  {
  }

  lemma StopOrderly(c: Controller)
    requires Accounted(c)
    ensures Accounted(OnStop(c)) && Tidy(OnStop(c))
  {
    var c1 := CancelReconnect(c.(started := false));
    DisconnectNativeAccounted(c1, false);
    DisconnectAccounted(DisconnectNative(c1, false));
  }

  lemma OpenOrderly(c: Controller, s: SocketId, f: Faults)
    requires Accounted(c)
    ensures var v := OnOpen(c.(env := SetReady(c.env, s, OPEN)), f); Accounted(v) && Tidy(v)
  {
    var c1 := CancelReconnect(c.(env := SetReady(c.env, s, OPEN)));
    FlushAccounted(Update(c1, Connected, c1.state.nativeHost), f);
  }

  lemma MessageOrderly(c: Controller, frame: Frame, f: Faults)
    requires Accounted(c) && Tidy(c)
    ensures var v := HandleWebSocketMessage(c, frame, f); Accounted(v) && Tidy(v)
  {
    if frame.Envelope? && frame.isRequest && frame.requestId != "" {
      var r := Request(frame.requestId, frame.payload);
      FlushAccounted(Refresh(c.(pendingQueue := c.pendingQueue + [r], accepted := c.accepted + [r])), f);
    }
  }

  lemma ReconnectOrderly(c: Controller, e: Event)
    requires Accounted(c) && Tidy(c) && Enabled(c, e) && (e.SettingsLoaded? || e.SettingsSaved? || e.TimerFired?)
    ensures Accounted(Apply(c, e)) && Tidy(Apply(c, e))
  {
    match e
    case SettingsLoaded(throws) => ConnectTidy(Refresh(c.(loads := c.loads - 1)), throws);
    case SettingsSaved(throws) =>
      DisconnectAccounted(Refresh(c));
      ConnectTidy(DisconnectWebSocket(Refresh(c)), throws);
    case TimerFired(t, throws) =>
      ConnectTidy(c.(env := c.env.(timers := c.env.timers - {t}), reconnectTimer := None), throws);
  }

  lemma PlainOrderly(c: Controller, e: Event)
    requires Accounted(c) && Tidy(c) && Enabled(c, e) && (e.Start? || e.LoadFailed? || e.SocketFault? || e.PeerClosing?)
    ensures Accounted(Apply(c, e)) && Tidy(Apply(c, e))
  {
  }

  lemma StepOrderly(c: Controller, e: Event)
    requires Accounted(c) && Tidy(c) && Enabled(c, e)
    ensures Accounted(Apply(c, e)) && Tidy(Apply(c, e))
  {
    if e.Stop? {
      StopOrderly(c);
    } else if e.Opened? {
      OpenOrderly(c, e.s, e.f);
    } else if e.Message? {
      MessageOrderly(c, e.frame, e.f);
    } else if e.Closed? {
      CloseAccounted(c.(env := SetReady(c.env, e.s, CLOSED)));
    } else if e.NativeReplied? {
      ReplyAccounted(c.(env := Advance(c.env, e.p)),
                     NativeMessage(e.p, c.env.ports[e.p].replied, e.isObject, e.body), e.f);
    } else if e.NativeGone? {
      DisconnectNativeAccounted(c.(env := Kill(c.env, e.p)), e.runtimeError);
    } else if e.SettingsLoaded? || e.SettingsSaved? || e.TimerFired? {
      ReconnectOrderly(c, e);
    } else {
      PlainOrderly(c, e);
    }
  }

  lemma {:induction false} RunOrderly(c: Controller, run: seq<Event>)
    requires Accounted(c) && Tidy(c) && Valid(c, run)
    ensures Accounted(Exec(c, run)) && Tidy(Exec(c, run))
    decreases |run|
  {
    if run != [] {
      StepOrderly(c, run[0]);
      RunOrderly(Apply(c, run[0]), run[1..]);
    }
  }

  /** After any run of events the requests accepted are those answered, in the order
      answered, then the one in flight, then the queue; the i-th answer is to the
      i-th request. Nothing waits while the line is free, and the depth is right. */
  lemma AnsweredInOrderExactlyOnce(closesSynchronously: bool, run: seq<Event>)
    requires Valid(Initial(closesSynchronously), run)
    ensures var c := Exec(Initial(closesSynchronously), run);
            && |c.responses| + |InFlight(c)| + |c.pendingQueue| == |c.accepted|
            && (forall i | 0 <= i < |c.responses| :: c.responses[i].request == c.accepted[i])
            && c.accepted[|c.responses|..] == InFlight(c) + c.pendingQueue
            && Tidy(c)
  {
    RunOrderly(Initial(closesSynchronously), run);
  }

  ghost predicate OnlyAnswers(c: Controller, v: Controller) {
    c.responses <= v.responses && v.accepted == c.accepted
  }

  /** The request an event brings, if it brings one. */
  function Arriving(e: Event): seq<Request> {
    if e.Message? && e.frame.Envelope? && e.frame.isRequest && e.frame.requestId != "" then
      [Request(e.frame.requestId, e.frame.payload)]
    else []
  }

  lemma LaunchGrows(c: Controller, postThrows: bool)
    requires c.pendingQueue != []
    ensures OnlyAnswers(c, Launch(c, postThrows))
  {
  }

  lemma FlushGrows(c: Controller, f: Faults)
    ensures OnlyAnswers(c, FlushQueue(c, f))
  {
    if c.currentRequest.None? && c.pendingQueue != [] && SocketOpen(c) {
      LaunchGrows(ConnectNative(c, f.connectNative), f.post);
    }
  }

  lemma CloseGrows(c: Controller)
    ensures OnlyAnswers(c, OnClose(c)) && OnlyAnswers(c, DisconnectWebSocket(c))
  {
  }

  lemma StopGrows(c: Controller)
    ensures OnlyAnswers(c, OnStop(c))
  {
    CloseGrows(DisconnectNative(CancelReconnect(c.(started := false)), false));
  }

  lemma FrameGrows(c: Controller, s: SocketId, frame: Frame, f: Faults)
    ensures var v := HandleWebSocketMessage(c, frame, f);
            c.responses <= v.responses && v.accepted == c.accepted + Arriving(Message(s, frame, f))
  {
    if frame.Envelope? && frame.isRequest && frame.requestId != "" {
      var r := Request(frame.requestId, frame.payload);
      FlushGrows(Refresh(c.(pendingQueue := c.pendingQueue + [r], accepted := c.accepted + [r])), f);
    }
  }

  lemma ReplyGrows(c: Controller, m: NativeMessage, f: Faults)
    ensures OnlyAnswers(c, HandleNativeMessage(c, m, f))
  {
    if c.currentRequest.Some? {
      var answer := if m.isObject then Success(m) else Failed(PROTO_INVALID_RESPONSE);
      FlushGrows(S.SendResponse(c.(currentRequest := None), c.currentRequest.value, answer), f);
    }
  }

  lemma OpenGrows(c: Controller, f: Faults)
    ensures OnlyAnswers(c, OnOpen(c, f))
  {
    var c1 := CancelReconnect(c);
    FlushGrows(Update(c1, Connected, c1.state.nativeHost), f);
  }

  lemma StepGrows(c: Controller, e: Event)
    requires Enabled(c, e)
    ensures c.responses <= Apply(c, e).responses && Apply(c, e).accepted == c.accepted + Arriving(e)
  {
    match e
    case SettingsSaved(_) => CloseGrows(Refresh(c));
    case Closed(s) => CloseGrows(c.(env := SetReady(c.env, s, CLOSED)));
    case Stop => StopGrows(c);
    case Opened(s, f) => OpenGrows(c.(env := SetReady(c.env, s, OPEN)), f);
    case Message(s, frame, f) => FrameGrows(c, s, frame, f);
    case NativeReplied(p, isObject, body, f) =>
      ReplyGrows(c.(env := Advance(c.env, p)), NativeMessage(p, c.env.ports[p].replied, isObject, body), f);
    case _ =>
  }

  /** The rejections of a lost port reach the daemon exactly when the socket is open;
      those of a closed socket never do. */
  lemma WhichRejectionsReachTheDaemon(c: Controller, e: Event)
    requires Enabled(c, e) && (e.Closed? || e.NativeGone?)
    ensures var v := Apply(c, e);
            |v.responses| == |c.responses| + |InFlight(c)| + |c.pendingQueue|
            && forall i | |c.responses| <= i < |v.responses| ::
                 v.responses[i].onWire <==> e.NativeGone? && SocketOpen(c)
  {
  }

  // ---------- which reply a success response carries ----------

  /** What a port was given and has answered, against the requests accepted. */
  ghost predicate PortOk(p: Port, accepted: seq<Request>, limit: nat) {
    && p.replied <= |p.posted|
    && (forall k | 0 <= k < |p.posted| ::
          && p.posted[k].position < limit && p.posted[k].position < |accepted|
          && p.posted[k].payload == accepted[p.posted[k].position].payload)
    && (forall j, k | 0 <= j < k < |p.posted| :: p.posted[j].position < p.posted[k].position)
  }

  /** The only live port is the current one, and the request in flight is the last
      thing posted to it. */
  ghost predicate Linked(c: Controller) {
    && (forall q | 0 <= q < |c.env.ports| ::
          && PortOk(c.env.ports[q], c.accepted, |c.responses| + |InFlight(c)|)
          && (c.env.ports[q].live <==> c.nativePort == Some(q)))
    && (c.nativePort.Some? ==> c.nativePort.value < |c.env.ports|)
    && (c.currentRequest.Some? ==>
          && c.nativePort.Some?
          && var p := c.env.ports[c.nativePort.value];
             p.replied < |p.posted| && p.posted[|p.posted| - 1].position == |c.responses|)
    && (forall i | 0 <= i < |c.responses| && c.responses[i].answer.Success? ::
          var m := c.responses[i].answer.message;
          m.port < |c.env.ports| && m.index < c.env.ports[m.port].replied)
  }

  /** Replies the current port still owes for requests no longer in flight. */
  ghost function Skew(c: Controller): int {
    if c.nativePort.None? || c.nativePort.value >= |c.env.ports| then 0 else
      var p := c.env.ports[c.nativePort.value];
      |p.posted| - p.replied - |InFlight(c)|
  }

  /** Each success response carries the port's answer to the payload of that same request. */
  ghost predicate Matched(c: Controller) {
    forall i | 0 <= i < |c.responses| && c.responses[i].answer.Success? ::
      var m := c.responses[i].answer.message;
      && m.port < |c.env.ports| && m.index < |c.env.ports[m.port].posted|
      && c.env.ports[m.port].posted[m.index].position == i
  }

  ghost predicate PortsGrow(c: Controller, v: Controller) {
    && |c.env.ports| <= |v.env.ports|
    && (forall q | 0 <= q < |c.env.ports| ::
          c.env.ports[q].posted <= v.env.ports[q].posted && c.env.ports[q].replied <= v.env.ports[q].replied)
  }

  /** From c to v only failures are answered, and ports only gain. */
  ghost predicate Extends(c: Controller, v: Controller) {
    && c.responses <= v.responses
    && (forall i | |c.responses| <= i < |v.responses| :: v.responses[i].answer.Failed?)
    && c.accepted <= v.accepted
    && PortsGrow(c, v)
  }

  /** v is a linked state reached from c with only failures answered and `owed`
      more replies due. */
  ghost predicate Follows(c: Controller, v: Controller, owed: int) {
    Linked(v) && Extends(c, v) && Skew(v) == Skew(c) + owed
  }

  lemma FollowsThrough(c: Controller, v: Controller, a: int, w: Controller, b: int)
    requires Follows(c, v, a) && Follows(v, w, b)
    ensures Follows(c, w, a + b)
  {
  }

  lemma ExtendsMatched(c: Controller, v: Controller)
    requires Linked(c) && Extends(c, v)
    ensures Matched(v) <==> Matched(c)
  {
    forall i | 0 <= i < |c.responses| && c.responses[i].answer.Success?
      ensures var m := c.responses[i].answer.message;
              && m.port < |c.env.ports| && m.index < |c.env.ports[m.port].posted|
              && v.responses[i] == c.responses[i]
              && v.env.ports[m.port].posted[m.index] == c.env.ports[m.port].posted[m.index]
    {
    }
  }

  lemma PortOkMonotone(p: Port, a: seq<Request>, n: nat, b: seq<Request>, m: nat)
    requires PortOk(p, a, n) && a <= b && n <= m
    ensures PortOk(p, b, m)
  {
  }

  /** Sockets, timers and the published state play no part in the pairing of replies. */
  predicate Quiet(c: Controller, v: Controller) {
    && v.env.ports == c.env.ports && v.nativePort == c.nativePort
    && v.currentRequest == c.currentRequest && v.responses == c.responses && c.accepted <= v.accepted
  }

  lemma QuietLinked(c: Controller, v: Controller)
    requires Linked(c) && Quiet(c, v)
    ensures Follows(c, v, 0)
  {
    forall q | 0 <= q < |v.env.ports| ensures PortOk(v.env.ports[q], v.accepted, |v.responses| + |InFlight(v)|) {
      PortOkMonotone(c.env.ports[q], c.accepted, |c.responses| + |InFlight(c)|, v.accepted, |v.responses| + |InFlight(v)|);
    }
  }

  lemma QuietThen(c: Controller, v: Controller, w: Controller, owed: int)
    requires Linked(c) && Quiet(c, v) && Follows(v, w, owed)
    ensures Follows(c, w, owed)
  {
    QuietLinked(c, v);
    FollowsThrough(c, v, 0, w, owed);
  }

  lemma ThenQuiet(c: Controller, v: Controller, w: Controller, owed: int)
    requires Follows(c, v, owed) && Quiet(v, w)
    ensures Follows(c, w, owed)
  {
    QuietLinked(v, w);
    FollowsThrough(c, v, owed, w, 0);
  }

  lemma FailLinked(c: Controller)
    requires Linked(c)
    ensures var v := FailCurrentAndQueue(c); Follows(c, v, |InFlight(c)|) && v.env == c.env && v.currentRequest.None?
  {
    var v := FailCurrentAndQueue(c);
    forall q | 0 <= q < |c.env.ports| ensures PortOk(v.env.ports[q], v.accepted, |v.responses|) {
      PortOkMonotone(c.env.ports[q], c.accepted, |c.responses| + |InFlight(c)|, v.accepted, |v.responses|);
    }
  }

  lemma PostedPortOk(p: Port, accepted: seq<Request>, n: nat)
    requires PortOk(p, accepted, n) && n < |accepted|
    ensures PortOk(p.(posted := p.posted + [Posted(n, accepted[n].payload)]), accepted, n + 1)
  {
  }

  lemma PostLinked(c: Controller, p: PortId)
    requires Linked(c) && Accounted(c) && c.currentRequest.None? && c.pendingQueue != [] && c.nativePort == Some(p)
    ensures var v := PostMessage(Promote(c), p, c.pendingQueue[0].payload);
            Follows(c, v, 0)
  {
    var n := |c.responses|;
    var v := PostMessage(Promote(c), p, c.pendingQueue[0].payload);
    assert c.accepted[n] == c.pendingQueue[0];
    PostedPortOk(c.env.ports[p], c.accepted, n);
    forall q | 0 <= q < |v.env.ports| && q != p ensures PortOk(v.env.ports[q], c.accepted, n + 1) {
      PortOkMonotone(c.env.ports[q], c.accepted, n, c.accepted, n + 1);
    }
  }

  // Failing just before or just after the head was promoted is the same.
  lemma FailPromoted(c: Controller)
    requires c.currentRequest.None? && c.pendingQueue != []
    ensures FailCurrentAndQueue(Promote(c)) == FailCurrentAndQueue(c)
  {
    assert InFlight(Promote(c)) + Promote(c).pendingQueue == InFlight(c) + c.pendingQueue;
  }

  lemma LaunchLinked(c: Controller, postThrows: bool)
    requires Linked(c) && Accounted(c) && c.pendingQueue != [] && c.currentRequest.None?
    ensures var v := Launch(c, postThrows); Follows(c, v, 0)
  {
    FailLinked(c);
    FailPromoted(c);
    if c.nativePort.Some? && !postThrows {
      PostLinked(c, c.nativePort.value);
    }
  }

  lemma ConnectLinked(c: Controller, throws: bool)
    requires Linked(c)
    ensures var v := ConnectNative(c, throws); Follows(c, v, 0)
  {
  }

  lemma FlushLinked(c: Controller, f: Faults)
    requires Linked(c) && Accounted(c)
    ensures var v := FlushQueue(c, f); Follows(c, v, 0)
  {
    if c.currentRequest.Some? || c.pendingQueue == [] || !SocketOpen(c) {
      QuietLinked(c, Refresh(c));
    } else {
      var c1 := ConnectNative(c, f.connectNative);
      ConnectLinked(c, f.connectNative);
      assert Accounted(c1);
      LaunchLinked(c1, f.post);
      FollowsThrough(c, c1, 0, Launch(c1, f.post), 0);
    }
  }

  /** A socket close gives up the request in flight and keeps the port, so the port
      comes to owe one reply more. */
  lemma CloseLinked(c: Controller)
    requires Linked(c)
    ensures Follows(c, OnClose(c), |InFlight(c)|)
  {
    var c1 := c.(websocket := None);
    var c2 := Update(c1, Disconnected, c1.state.nativeHost);
    QuietLinked(c, c2);
    FailLinked(c2);
    QuietThen(c, c2, FailCurrentAndQueue(c2), |InFlight(c)|);
    ThenQuiet(c, FailCurrentAndQueue(c2), OnClose(c), |InFlight(c)|);
  }

  /** The close listener runs inside this call. */
  predicate ClosesNow(c: Controller) {
    c.websocket.Some? && ReadyState(c.env, c.websocket.value) < CLOSING && c.env.closesSynchronously
  }

  lemma DisconnectLinked(c: Controller)
    requires Linked(c)
    ensures Follows(c, DisconnectWebSocket(c), if ClosesNow(c) then |InFlight(c)| else 0)
  {
    if ClosesNow(c) {
      var c1 := c.(websocket := None, env := SetReady(c.env, c.websocket.value, CLOSED));
      QuietLinked(c, c1);
      CloseLinked(c1);
      QuietThen(c, c1, OnClose(c1), |InFlight(c)|);
    } else {
      QuietLinked(c, DisconnectWebSocket(c));
    }
  }

  lemma DropPortLinked(c: Controller, p: PortId, v: Controller)
    requires Linked(c) && c.currentRequest.None? && (c.nativePort.Some? ==> p == c.nativePort.value)
    requires v == c.(nativePort := None, env := Kill(c.env, p), state := v.state)
    ensures Follows(c, v, -Skew(c))
  {
    forall q | 0 <= q < |c.env.ports| ensures v.env.ports[q] == c.env.ports[q].(live := false) {
    }
  }

  /** Losing the port settles the account. */
  lemma LosePortLinked(c: Controller, runtimeError: bool)
    requires Linked(c)
    ensures var v := DisconnectNative(c, runtimeError);
            Follows(c, v, -Skew(c)) && v.currentRequest.None? && v.nativePort.None?
  {
    // Fail first, then drop the port: the order does not matter to the account.
    FailLinked(c);
    var c1, v := FailCurrentAndQueue(c), DisconnectNative(c, runtimeError);
    DropPortLinked(c1, if c.nativePort.Some? then c.nativePort.value else |c.env.ports|, v);
    FollowsThrough(c, c1, |InFlight(c)|, v, -Skew(c1));
  }

  // Its own end may have been killed already.
  lemma KilledTwice(c: Controller, runtimeError: bool)
    requires c.nativePort.Some?
    ensures DisconnectNative(c.(env := Kill(c.env, c.nativePort.value)), runtimeError) == DisconnectNative(c, runtimeError)
  {
    var p := c.nativePort.value;
    assert Kill(Kill(c.env, p), p) == Kill(c.env, p);
  }

  /** The state in which the reply of port `p` has been taken and answered, the queue not yet flushed. */
  function Answered(c: Controller, p: PortId, answer: Answer): Controller
    requires c.currentRequest.Some?
  {
    S.SendResponse(c.(env := Advance(c.env, p), currentRequest := None), c.currentRequest.value, answer)
  }

  lemma AnsweredLinked(c: Controller, p: PortId, m: NativeMessage, answer: Answer)
    requires Linked(c) && c.currentRequest.Some? && c.nativePort == Some(p)
    requires m.port == p && m.index == c.env.ports[p].replied
    requires answer == Success(m) || answer.Failed?
    ensures var v := Answered(c, p, answer); Linked(v) && Skew(v) == Skew(c) && PortsGrow(c, v)
    ensures Matched(Answered(c, p, answer)) <==> Matched(c) && (answer.Success? ==> Skew(c) == 0)
  {
    var v := Answered(c, p, answer);
    var n := |c.responses|;
    forall q | 0 <= q < |v.env.ports| ensures PortOk(v.env.ports[q], v.accepted, n + 1) && v.env.ports[q].posted == c.env.ports[q].posted {
      PortOkMonotone(c.env.ports[q], c.accepted, n + 1, v.accepted, n + 1);
    }
    var posted := c.env.ports[p].posted;
    assert posted[m.index].position == n <==> m.index == |posted| - 1;
    assert forall i | 0 <= i < n :: v.responses[i] == c.responses[i];
    assert v.responses[n].answer == answer;
  }

  /** The events that give up a request in flight while its port lives on. */
  predicate DropsInFlight(c: Controller, e: Event) {
    c.currentRequest.Some? && (e.Closed? || (e.SettingsSaved? && ClosesNow(c)))
  }

  /** A reply turned into a success response is the one its request waits for. */
  ghost predicate Fits(c: Controller, e: Event) {
    e.NativeReplied? && e.isObject && c.currentRequest.Some? ==> Skew(c) == 0
  }

  ghost function SkewAfter(c: Controller, e: Event): int {
    if e.Stop? || e.NativeGone? then 0
    else if DropsInFlight(c, e) then Skew(c) + 1
    else if e.NativeReplied? && c.currentRequest.None? then Skew(c) - 1
    else Skew(c)
  }

  lemma AnsweredAccounted(c: Controller, p: PortId, answer: Answer)
    requires Accounted(c) && c.currentRequest.Some?
    ensures Accounted(Answered(c, p, answer))
  {
    assert Requests(Answered(c, p, answer).responses) == Requests(c.responses) + [c.currentRequest.value];
  }

  lemma FlushMatched(c: Controller, f: Faults)
    requires Linked(c) && Accounted(c)
    ensures var v := FlushQueue(c, f); Linked(v) && Skew(v) == Skew(c) && (Matched(v) <==> Matched(c)) && PortsGrow(c, v)
  {
    FlushLinked(c, f);
    ExtendsMatched(c, FlushQueue(c, f));
  }

  lemma AnswerStep(c: Controller, p: PortId, isObject: bool, body: string, f: Faults)
    requires Linked(c) && Accounted(c) && c.currentRequest.Some? && c.nativePort == Some(p)
    ensures var v := HandleNativeMessage(c.(env := Advance(c.env, p)), NativeMessage(p, c.env.ports[p].replied, isObject, body), f);
            Linked(v) && Skew(v) == Skew(c) && (Matched(v) <==> Matched(c) && (isObject ==> Skew(c) == 0)) && PortsGrow(c, v)
  {
    var m := NativeMessage(p, c.env.ports[p].replied, isObject, body);
    var answer := if m.isObject then Success(m) else Failed(PROTO_INVALID_RESPONSE);
    AnsweredLinked(c, p, m, answer);
    AnsweredAccounted(c, p, answer);
    FlushMatched(Answered(c, p, answer), f);
  }

  lemma UnexpectedReplyStep(c: Controller, p: PortId)
    requires Linked(c) && c.currentRequest.None? && c.nativePort == Some(p)
    requires c.env.ports[p].replied < |c.env.ports[p].posted|
    ensures Follows(c, c.(env := Advance(c.env, p)), -1)
  {
    var v := c.(env := Advance(c.env, p));
    assert v.env.ports[p].posted == c.env.ports[p].posted;
  }

  lemma ReplyStep(c: Controller, e: Event)
    requires Linked(c) && Accounted(c) && Enabled(c, e) && e.NativeReplied?
    ensures Linked(Apply(c, e)) && Skew(Apply(c, e)) == SkewAfter(c, e) && PortsGrow(c, Apply(c, e))
    ensures Matched(Apply(c, e)) <==> Matched(c) && Fits(c, e)
  {
    assert c.nativePort == Some(e.p);
    if c.currentRequest.Some? {
      AnswerStep(c, e.p, e.isObject, e.body, e.f);
    } else {
      UnexpectedReplyStep(c, e.p);
      ExtendsMatched(c, Apply(c, e));
    }
  }

  lemma OpenStep(c: Controller, s: SocketId, f: Faults)
    requires Linked(c) && Accounted(c)
    ensures Follows(c, OnOpen(c.(env := SetReady(c.env, s, OPEN)), f), 0)
  {
    var c1 := CancelReconnect(c.(env := SetReady(c.env, s, OPEN)));
    var c2 := Update(c1, Connected, c1.state.nativeHost);
    QuietLinked(c, c2);
    assert Accounted(c2);
    FlushLinked(c2, f);
    QuietThen(c, c2, FlushQueue(c2, f), 0);
  }

  lemma MessageStep(c: Controller, frame: Frame, f: Faults)
    requires Linked(c) && Accounted(c)
    ensures Follows(c, HandleWebSocketMessage(c, frame, f), 0)
  {
    if frame.Envelope? && frame.isRequest && frame.requestId != "" {
      var r := Request(frame.requestId, frame.payload);
      var c1 := Refresh(c.(pendingQueue := c.pendingQueue + [r], accepted := c.accepted + [r]));
      QuietLinked(c, c1);
      assert Accounted(c1);
      FlushLinked(c1, f);
      QuietThen(c, c1, FlushQueue(c1, f), 0);
    } else {
      QuietLinked(c, c);
    }
  }

  lemma ThenConnect(c: Controller, v: Controller, throws: bool, owed: int)
    requires Follows(c, v, owed)
    ensures Follows(c, ConnectWebSocket(v, throws), owed)
  {
    ThenQuiet(c, v, ConnectWebSocket(v, throws), owed);
  }

  lemma SettingsStep(c: Controller, throws: bool)
    requires Linked(c)
    ensures Follows(c, OnSettingsSaved(c, throws), if ClosesNow(c) then |InFlight(c)| else 0)
  {
    var owed := if ClosesNow(c) then |InFlight(c)| else 0;
    var c1 := Refresh(c);
    QuietLinked(c, c1);
    DisconnectLinked(c1);
    QuietThen(c, c1, DisconnectWebSocket(c1), owed);
    ThenConnect(c, DisconnectWebSocket(c1), throws, owed);
  }

  lemma ClosedStep(c: Controller, s: SocketId)
    requires Linked(c)
    ensures Follows(c, OnClose(c.(env := SetReady(c.env, s, CLOSED))), |InFlight(c)|)
  {
    var c1 := c.(env := SetReady(c.env, s, CLOSED));
    QuietLinked(c, c1);
    CloseLinked(c1);
    QuietThen(c, c1, OnClose(c1), |InFlight(c)|);
  }

  lemma StopStep(c: Controller)
    requires Linked(c)
    ensures Follows(c, OnStop(c), -Skew(c))
  {
    var c1 := CancelReconnect(c.(started := false));
    var c2 := DisconnectNative(c1, false);
    QuietLinked(c, c1);
    LosePortLinked(c1, false);
    QuietThen(c, c1, c2, -Skew(c));
    DisconnectLinked(c2);
    FollowsThrough(c, c2, -Skew(c), OnStop(c), 0);
  }

  lemma PlainEventIsQuiet(c: Controller, e: Event)
    requires Enabled(c, e) && (e.Start? || e.LoadFailed? || e.SocketFault? || e.PeerClosing?)
    ensures Quiet(c, Apply(c, e))
  {
  }

  /** The event brings the state and the account `SkewAfter` says. */
  ghost predicate Settles(c: Controller, e: Event)
    requires Enabled(c, e)
  {
    Follows(c, Apply(c, e), SkewAfter(c, e) - Skew(c))
  }

  lemma PlainStep(c: Controller, e: Event)
    requires Linked(c) && Enabled(c, e) && (e.Start? || e.LoadFailed? || e.SocketFault? || e.PeerClosing?)
    ensures Settles(c, e)
  {
    PlainEventIsQuiet(c, e);
    QuietLinked(c, Apply(c, e));
  }

  lemma RetryStep(c: Controller, t: TimerId, throws: bool)
    requires Linked(c) && t in c.env.timers
    ensures Settles(c, TimerFired(t, throws))
  {
    var c1 := c.(env := c.env.(timers := c.env.timers - {t}), reconnectTimer := None);
    QuietLinked(c, c1);
    ThenConnect(c, c1, throws, 0);
  }

  lemma LoadedStep(c: Controller, throws: bool)
    requires Linked(c) && c.loads > 0
    ensures Settles(c, SettingsLoaded(throws))
  {
    var c1 := Refresh(c.(loads := c.loads - 1));
    QuietLinked(c, c1);
    ThenConnect(c, c1, throws, 0);
  }

  lemma SocketStep(c: Controller, e: Event)
    requires Linked(c) && Accounted(c) && Enabled(c, e)
    requires e.Closed? || e.SettingsSaved? || e.Opened? || e.Message?
    ensures Settles(c, e)
  {
    match e
    case Closed(s) => ClosedStep(c, s);
    case SettingsSaved(throws) => SettingsStep(c, throws);
    case Opened(s, f) => OpenStep(c, s, f);
    case Message(_, frame, f) => MessageStep(c, frame, f);
  }

  lemma PortEndStep(c: Controller, e: Event)
    requires Linked(c) && Enabled(c, e) && (e.Stop? || e.NativeGone?)
    ensures Settles(c, e)
  {
    match e
    case Stop => StopStep(c);
    case NativeGone(p, runtimeError) =>
      assert c.nativePort == Some(p);
      KilledTwice(c, runtimeError);
      LosePortLinked(c, runtimeError);
  }

  lemma OtherStep(c: Controller, e: Event)
    requires Linked(c) && Accounted(c) && Enabled(c, e) && !e.NativeReplied?
    ensures Settles(c, e)
  {
    if e.Closed? || e.SettingsSaved? || e.Opened? || e.Message? {
      SocketStep(c, e);
    } else if e.Stop? || e.NativeGone? {
      PortEndStep(c, e);
    } else if e.SettingsLoaded? {
      LoadedStep(c, e.createThrows);
    } else if e.TimerFired? {
      RetryStep(c, e.t, e.createThrows);
    } else {
      PlainStep(c, e);
    }
  }

  /** What one event does to the pairing of replies and requests, exactly. */
  lemma StepMatched(c: Controller, e: Event)
    requires Linked(c) && Accounted(c) && Enabled(c, e)
    ensures Linked(Apply(c, e)) && Skew(Apply(c, e)) == SkewAfter(c, e) && PortsGrow(c, Apply(c, e))
    ensures Matched(Apply(c, e)) <==> Matched(c) && Fits(c, e)
  {
    if e.NativeReplied? {
      ReplyStep(c, e);
    } else {
      OtherStep(c, e);
      ExtendsMatched(c, Apply(c, e));
    }
  }

  ghost predicate FittingRun(c: Controller, run: seq<Event>)
    requires Valid(c, run)
    decreases |run|
  {
    run == [] || (Fits(c, run[0]) && FittingRun(Apply(c, run[0]), run[1..]))
  }

  predicate CalmRun(c: Controller, run: seq<Event>)
    requires Valid(c, run)
    decreases |run|
  {
    run == [] || (!DropsInFlight(c, run[0]) && CalmRun(Apply(c, run[0]), run[1..]))
  }

  /** Over any run, every success response carries the reply to its own request's
      payload if and only if no reply was used while the port owed an older one. */
  lemma {:induction false} MatchedExactly(c: Controller, run: seq<Event>)
    requires Linked(c) && Accounted(c) && Tidy(c) && Valid(c, run)
    ensures Matched(Exec(c, run)) <==> Matched(c) && FittingRun(c, run)
    decreases |run|
  {
    if run != [] {
      StepMatched(c, run[0]);
      StepOrderly(c, run[0]);
      MatchedExactly(Apply(c, run[0]), run[1..]);
    }
  }

  lemma {:induction false} CalmRunMatched(c: Controller, run: seq<Event>)
    requires Linked(c) && Accounted(c) && Tidy(c) && Matched(c) && Skew(c) == 0
    requires Valid(c, run) && CalmRun(c, run)
    ensures var v := Exec(c, run); Linked(v) && Accounted(v) && Matched(v)
    decreases |run|
  {
    if run != [] {
      StepMatched(c, run[0]);
      StepOrderly(c, run[0]);
      CalmRunMatched(Apply(c, run[0]), run[1..]);
    }
  }

  lemma MatchedPayload(c: Controller, i: nat)
    requires Linked(c) && Accounted(c) && Matched(c) && i < |c.responses| && c.responses[i].answer.Success?
    ensures var m := c.responses[i].answer.message;
            && m.port < |c.env.ports| && m.index < |c.env.ports[m.port].posted|
            && c.env.ports[m.port].posted[m.index] == Posted(i, c.responses[i].request.payload)
  {
    var m := c.responses[i].answer.message;
    assert PortOk(c.env.ports[m.port], c.accepted, |c.responses| + |InFlight(c)|);
    assert c.accepted[i] == Requests(c.responses)[i];
  }

  /** If no socket closes while a request is in flight, every success response in
      the run carries the port's answer to that very request's payload. */
  lemma RepliesReachTheirRequests(closesSynchronously: bool, run: seq<Event>, c: Controller, i: nat)
    requires Valid(Initial(closesSynchronously), run) && CalmRun(Initial(closesSynchronously), run)
    requires Exec(Initial(closesSynchronously), run) == c && i < |c.responses| && c.responses[i].answer.Success?
    ensures var m := c.responses[i].answer.message;
            && m.port < |c.env.ports| && m.index < |c.env.ports[m.port].posted|
            && c.env.ports[m.port].posted[m.index] == Posted(i, c.responses[i].request.payload)
  {
    CalmRunMatched(Initial(closesSynchronously), run);
    MatchedPayload(c, i);
  }
}

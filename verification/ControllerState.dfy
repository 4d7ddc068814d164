/** The browser extension's bridge controller as a state and one function per
    method: what each call makes of the whole state. `env` is the world the
    controller talks to: its sockets, timers and native ports. */
module ControllerState {
  import opened Wrappers

  type SocketId = nat
  type TimerId = nat
  type PortId = nat

  const CONNECTING := 0
  const OPEN := 1
  const CLOSING := 2
  const CLOSED := 3

  const PROCESS_NOT_RUNNING := 103
  const PROTO_INVALID_RESPONSE := 104

  datatype Request = Request(id: string, payload: string)

  // The port's answer number `index`, counted from 0.
  datatype NativeMessage = NativeMessage(port: PortId, index: nat, isObject: bool, body: string)

  datatype Answer = Success(message: NativeMessage) | Failed(code: int)

  // One call of `sendResponse`; it reaches the daemon only through an open socket.
  datatype Response = Response(request: Request, answer: Answer, onWire: bool)

  // A payload given to `postMessage`, and the place of its request among the accepted ones.
  datatype Posted = Posted(position: nat, payload: string)

  datatype Port = Port(live: bool, posted: seq<Posted>, replied: nat)

  datatype Label = Idle | Connecting | Connected | Disconnected | Faulted

  datatype Published = Published(websocket: Label, nativeHost: Label, queueDepth: nat)

  datatype Env = Env(
    closesSynchronously: bool,    // does `close()` fire its event before it returns
    ready: seq<nat>,              // readyState of every socket created
    timers: set<TimerId>,         // armed timers
    nextTimer: TimerId,
    ports: seq<Port>)

  datatype Controller = Controller(
    started: bool,
    loads: nat,                   // history: settings loads still awaited
    websocket: Option<SocketId>,
    nativePort: Option<PortId>,
    pendingQueue: seq<Request>,
    currentRequest: Option<Request>,
    reconnectTimer: Option<TimerId>,
    state: Published,
    env: Env,
    accepted: seq<Request>,       // history: requests queued
    responses: seq<Response>)     // history: calls of `sendResponse`

  function Initial(closesSynchronously: bool): Controller {
    Controller(false, 0, None, None, [], None, None, Published(Idle, Idle, 0),
               Env(closesSynchronously, [], {}, 0, []), [], [])
  }

  // ---------- the environment ----------

  function ReadyState(e: Env, s: SocketId): nat {
    if s < |e.ready| then e.ready[s] else CLOSED
  }

  function SetReady(e: Env, s: SocketId, r: nat): Env {
    if s < |e.ready| then e.(ready := e.ready[s := r]) else e
  }

  function Kill(e: Env, p: PortId): Env {
    if p < |e.ports| then e.(ports := e.ports[p := e.ports[p].(live := false)]) else e
  }

  function Deliver(e: Env, p: PortId, m: Posted): Env {
    if p < |e.ports| then e.(ports := e.ports[p := e.ports[p].(posted := e.ports[p].posted + [m])]) else e
  }

  function Advance(e: Env, p: PortId): Env {
    if p < |e.ports| then e.(ports := e.ports[p := e.ports[p].(replied := e.ports[p].replied + 1)]) else e
  }

  predicate SocketOpen(c: Controller) {
    c.websocket.Some? && ReadyState(c.env, c.websocket.value) == OPEN
  }

  // ---------- published state and responses ----------

  function InFlight(c: Controller): seq<Request> {
    if c.currentRequest.Some? then [c.currentRequest.value] else []
  }

  function Update(c: Controller, websocket: Label, nativeHost: Label): Controller {
    c.(state := Published(websocket, nativeHost, |c.pendingQueue| + |InFlight(c)|))
  }

  function Refresh(c: Controller): Controller {
    Update(c, c.state.websocket, c.state.nativeHost)
  }

  function SendResponse(c: Controller, request: Request, answer: Answer): Controller {
    c.(responses := c.responses + [Response(request, answer, SocketOpen(c))])
  }

  function Rejections(requests: seq<Request>, onWire: bool): seq<Response> {
    seq(|requests|, i requires 0 <= i < |requests| => Response(requests[i], Failed(PROCESS_NOT_RUNNING), onWire))
  }

  function FailCurrentAndQueue(c: Controller): Controller {
    Refresh(c.(currentRequest := None,
               pendingQueue := [],
               responses := c.responses + Rejections(InFlight(c) + c.pendingQueue, SocketOpen(c))))
  }

  // ---------- reconnect timer and socket ----------

  function ScheduleReconnect(c: Controller): Controller {
    if !c.started || c.reconnectTimer.Some? then c else
      var t := c.env.nextTimer;
      c.(reconnectTimer := Some(t), env := c.env.(timers := c.env.timers + {t}, nextTimer := t + 1))
  }

  function CancelReconnect(c: Controller): Controller {
    if c.reconnectTimer.None? then c else
      c.(reconnectTimer := None, env := c.env.(timers := c.env.timers - {c.reconnectTimer.value}))
  }

  function ConnectWebSocket(c: Controller, createThrows: bool): Controller {
    if !c.started || c.websocket.Some? then c
    else if createThrows then ScheduleReconnect(Update(c, Faulted, c.state.nativeHost))
    else
      Update(c.(websocket := Some(|c.env.ready|), env := c.env.(ready := c.env.ready + [CONNECTING])),
             Connecting, c.state.nativeHost)
  }

  function OnClose(c: Controller): Controller {
    var c1 := c.(websocket := None);
    ScheduleReconnect(FailCurrentAndQueue(Update(c1, Disconnected, c1.state.nativeHost)))
  }

  function DisconnectWebSocket(c: Controller): Controller {
    if c.websocket.None? then c else
      var s := c.websocket.value;
      var c1 := c.(websocket := None);
      if ReadyState(c.env, s) >= CLOSING then c1
      else if c.env.closesSynchronously then OnClose(c1.(env := SetReady(c.env, s, CLOSED)))
      else c1.(env := SetReady(c.env, s, CLOSING))
  }

  // ---------- native port and queue ----------

  datatype Faults = Faults(connectNative: bool, post: bool)   // which call throws, if made

  function ConnectNative(c: Controller, throws: bool): Controller {
    if c.nativePort.Some? then c
    else if throws then Update(c, c.state.websocket, Faulted)
    else
      Update(c.(nativePort := Some(|c.env.ports|), env := c.env.(ports := c.env.ports + [Port(true, [], 0)])),
             c.state.websocket, Connected)
  }

  function DisconnectNative(c: Controller, runtimeError: bool): Controller {
    var e := if c.nativePort.Some? then Kill(c.env, c.nativePort.value) else c.env;
    var c1 := c.(nativePort := None, env := e);
    FailCurrentAndQueue(Update(c1, c1.state.websocket, if runtimeError then Faulted else Disconnected))
  }

  function PostMessage(c: Controller, p: PortId, payload: string): Controller {
    c.(env := Deliver(c.env, p, Posted(|c.responses|, payload)))
  }

  /** The head of the queue becomes the request in flight. */
  function Promote(c: Controller): Controller
    requires c.pendingQueue != []
  {
    Refresh(c.(currentRequest := Some(c.pendingQueue[0]), pendingQueue := c.pendingQueue[1..]))
  }

  function Launch(c: Controller, postThrows: bool): Controller
    requires c.pendingQueue != []
  {
    if c.nativePort.None? then FailCurrentAndQueue(c)
    else if postThrows then FailCurrentAndQueue(Promote(c))
    else PostMessage(Promote(c), c.nativePort.value, c.pendingQueue[0].payload)
  }

  function FlushQueue(c: Controller, f: Faults): Controller {
    if c.currentRequest.Some? || c.pendingQueue == [] || !SocketOpen(c) then Refresh(c)
    else Launch(ConnectNative(c, f.connectNative), f.post)
  }

  function HandleNativeMessage(c: Controller, m: NativeMessage, f: Faults): Controller {
    if c.currentRequest.None? then c else
      var answer := if m.isObject then Success(m) else Failed(PROTO_INVALID_RESPONSE);
      FlushQueue(SendResponse(c.(currentRequest := None), c.currentRequest.value, answer), f)
  }

  // A daemon frame: not JSON, or an object with these fields.
  datatype Frame = NotJson | Envelope(isRequest: bool, requestId: string, payload: string)

  function HandleWebSocketMessage(c: Controller, frame: Frame, f: Faults): Controller {
    if frame.NotJson? || !frame.isRequest || frame.requestId == "" then c else
      var r := Request(frame.requestId, frame.payload);
      FlushQueue(Refresh(c.(pendingQueue := c.pendingQueue + [r], accepted := c.accepted + [r])), f)
  }

  // ---------- events ----------

  datatype Event =
    | Start
    | SettingsLoaded(createThrows: bool)
    | LoadFailed                        // the awaited load of `start` is rejected
    | Stop
    | SettingsSaved(createThrows: bool)
    | Opened(s: SocketId, f: Faults)
    | Message(s: SocketId, frame: Frame, f: Faults)
    | SocketFault(s: SocketId)
    | PeerClosing(s: SocketId)          // readyState becomes CLOSING, no event yet
    | Closed(s: SocketId)
    | TimerFired(t: TimerId, createThrows: bool)
    | NativeReplied(p: PortId, isObject: bool, body: string, f: Faults)
    | NativeGone(p: PortId, runtimeError: bool)

  /** What the world may do: each start's load is settled once; a port answers what was posted to it, in order and
      while it lives; a socket opens once and closes once. */
  predicate Enabled(c: Controller, e: Event) {
    match e
    case SettingsLoaded(_) => c.loads > 0
    case LoadFailed => c.loads > 0
    case Opened(s, _) => ReadyState(c.env, s) == CONNECTING
    case Message(s, _, _) => OPEN <= ReadyState(c.env, s) <= CLOSING
    case SocketFault(s) => ReadyState(c.env, s) < CLOSED
    case PeerClosing(s) => ReadyState(c.env, s) < CLOSING
    case Closed(s) => ReadyState(c.env, s) < CLOSED
    case TimerFired(t, _) => t in c.env.timers
    case NativeReplied(p, _, _, _) =>
      p < |c.env.ports| && c.env.ports[p].live && c.env.ports[p].replied < |c.env.ports[p].posted|
    case NativeGone(p, _) => p < |c.env.ports| && c.env.ports[p].live
    case _ => true
  }

  function OnStop(c: Controller): Controller {
    DisconnectWebSocket(DisconnectNative(CancelReconnect(c.(started := false)), false))
  }

  function OnSettingsSaved(c: Controller, createThrows: bool): Controller {
    ConnectWebSocket(DisconnectWebSocket(Refresh(c)), createThrows)
  }

  function OnOpen(c: Controller, f: Faults): Controller {
    var c1 := CancelReconnect(c);
    FlushQueue(Update(c1, Connected, c1.state.nativeHost), f)
  }

  function OnTimer(c: Controller, createThrows: bool): Controller {
    ConnectWebSocket(c.(reconnectTimer := None), createThrows)
  }

  function Apply(c: Controller, e: Event): Controller
    requires Enabled(c, e)
  {
    match e
    case Start => if c.started then c else c.(started := true, loads := c.loads + 1)
    case SettingsLoaded(throws) => ConnectWebSocket(Refresh(c.(loads := c.loads - 1)), throws)
    case LoadFailed => c.(loads := c.loads - 1)
    case Stop => OnStop(c)
    case SettingsSaved(throws) => OnSettingsSaved(c, throws)
    case Opened(s, f) => OnOpen(c.(env := SetReady(c.env, s, OPEN)), f)
    case Message(_, frame, f) => HandleWebSocketMessage(c, frame, f)
    case SocketFault(_) => Update(c, Faulted, c.state.nativeHost)
    case PeerClosing(s) => c.(env := SetReady(c.env, s, CLOSING))
    case Closed(s) => OnClose(c.(env := SetReady(c.env, s, CLOSED)))
    case TimerFired(t, throws) => OnTimer(c.(env := c.env.(timers := c.env.timers - {t})), throws)
    case NativeReplied(p, isObject, body, f) =>
      HandleNativeMessage(c.(env := Advance(c.env, p)), NativeMessage(p, c.env.ports[p].replied, isObject, body), f)
    case NativeGone(p, runtimeError) => DisconnectNative(c.(env := Kill(c.env, p)), runtimeError)
  }

  predicate Valid(c: Controller, run: seq<Event>)
    decreases |run|
  {
    run == [] || (Enabled(c, run[0]) && Valid(Apply(c, run[0]), run[1..]))
  }

  function Exec(c: Controller, run: seq<Event>): Controller
    requires Valid(c, run)
    decreases |run|
  {
    if run == [] then c else Exec(Apply(c, run[0]), run[1..])
  }
}

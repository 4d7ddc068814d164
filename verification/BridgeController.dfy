/** The controller object: its methods change its fields as the source does, and
    each is proved to do what the function of the same name says. */
module BridgeController {
  import opened Wrappers
  import opened S = ControllerState

  class BridgeController {
    var started: bool
    var websocket: Option<SocketId>
    var nativePort: Option<PortId>
    var pendingQueue: seq<Request>
    var currentRequest: Option<Request>
    var reconnectTimer: Option<TimerId>
    var state: Published
    var env: Env
    ghost var loads: nat
    ghost var accepted: seq<Request>
    var responses: seq<Response>

    ghost function View(): Controller
      reads this
    {
      Controller(started, loads, websocket, nativePort, pendingQueue, currentRequest, reconnectTimer,
                 state, env, accepted, responses)
    }

    constructor (closesSynchronously: bool)
      ensures View() == Initial(closesSynchronously)
    {
      started, loads := false, 0;
      websocket, nativePort, pendingQueue, currentRequest, reconnectTimer := None, None, [], None, None;
      state := Published(Idle, Idle, 0);
      env := Env(closesSynchronously, [], {}, 0, []);
      accepted, responses := [], [];
    }

    method UpdateState(websocketLabel: Label, nativeLabel: Label)
      modifies this`state
      ensures View() == Update(old(View()), websocketLabel, nativeLabel)
    {
      state := Published(websocketLabel, nativeLabel, |pendingQueue| + if currentRequest.Some? then 1 else 0);
    }

    // The socket write is skipped unless the socket is open; a throwing write is logged only.
    method SendResponse(request: Request, answer: Answer)
      modifies this`responses
      ensures View() == S.SendResponse(old(View()), request, answer)
    {
      var onWire := websocket.Some? && ReadyState(env, websocket.value) == OPEN;
      responses := responses + [Response(request, answer, onWire)];
    }

    method FailCurrentAndQueue()
      modifies this
      ensures View() == S.FailCurrentAndQueue(old(View()))
    {
      var rejected := [];
      if currentRequest.Some? {
        rejected := rejected + [currentRequest.value];
        currentRequest := None;
      }
      rejected := rejected + pendingQueue;
      pendingQueue := [];
      assert rejected == InFlight(old(View())) + old(pendingQueue);
      ghost var rejections := Rejections(rejected, SocketOpen(old(View())));
      for i := 0 to |rejected|
        invariant View() == old(View()).(currentRequest := None, pendingQueue := [],
                                         responses := old(responses) + rejections[..i])
      {
        SendResponse(rejected[i], Failed(PROCESS_NOT_RUNNING));
        assert rejections[..i + 1] == rejections[..i] + [rejections[i]];
      }
      assert rejections[..|rejected|] == rejections;
      UpdateState(state.websocket, state.nativeHost);
    }

    method ScheduleReconnect()
      modifies this
      ensures View() == S.ScheduleReconnect(old(View()))
    {
      if !started || reconnectTimer.Some? {
        return;
      }
      reconnectTimer := Some(env.nextTimer);
      env := env.(timers := env.timers + {env.nextTimer}, nextTimer := env.nextTimer + 1);
    }

    method CancelReconnect()
      modifies this
      ensures View() == S.CancelReconnect(old(View()))
    {
      if reconnectTimer.None? {
        return;
      }
      env := env.(timers := env.timers - {reconnectTimer.value});
      reconnectTimer := None;
    }

    method ConnectWebSocket(createThrows: bool)
      modifies this
      ensures View() == S.ConnectWebSocket(old(View()), createThrows)
    {
      if !started || websocket.Some? {
        return;
      }
      if createThrows {
        UpdateState(Faulted, state.nativeHost);
        ScheduleReconnect();
        return;
      }
      websocket := Some(|env.ready|);
      env := env.(ready := env.ready + [CONNECTING]);
      UpdateState(Connecting, state.nativeHost);
    }

    method OnClose()
      modifies this
      ensures View() == S.OnClose(old(View()))
    {
      websocket := None;
      UpdateState(Disconnected, state.nativeHost);
      FailCurrentAndQueue();
      ScheduleReconnect();
    }

    method DisconnectWebSocket()
      modifies this
      ensures View() == S.DisconnectWebSocket(old(View()))
    {
      var socket := websocket;
      websocket := None;
      if socket.Some? && ReadyState(env, socket.value) < CLOSING {
        if env.closesSynchronously {
          env := SetReady(env, socket.value, CLOSED);
          OnClose();
        } else {
          env := SetReady(env, socket.value, CLOSING);
        }
      }
    }

    method ConnectNative(throws: bool) returns (port: Option<PortId>)
      modifies this
      ensures View() == S.ConnectNative(old(View()), throws)
      ensures port == nativePort
    {
      if nativePort.Some? {
        return nativePort;
      }
      if throws {
        UpdateState(state.websocket, Faulted);
        return None;
      }
      nativePort := Some(|env.ports|);
      env := env.(ports := env.ports + [Port(true, [], 0)]);
      UpdateState(state.websocket, Connected);
      return nativePort;
    }

    method DisconnectNative(runtimeError: bool)
      modifies this
      ensures View() == S.DisconnectNative(old(View()), runtimeError)
    {
      if nativePort.Some? {
        env := Kill(env, nativePort.value);
      }
      nativePort := None;
      UpdateState(state.websocket, if runtimeError then Faulted else Disconnected);
      FailCurrentAndQueue();
    }

    method FlushQueue(f: Faults)
      modifies this
      ensures View() == S.FlushQueue(old(View()), f)
    {
      if currentRequest.Some? || |pendingQueue| == 0 {
        UpdateState(state.websocket, state.nativeHost);
        return;
      }
      if websocket.None? || ReadyState(env, websocket.value) != OPEN {
        UpdateState(state.websocket, state.nativeHost);
        return;
      }
      var port := ConnectNative(f.connectNative);
      if port.None? {
        FailCurrentAndQueue();
        return;
      }
      currentRequest := Some(pendingQueue[0]);
      pendingQueue := pendingQueue[1..];
      UpdateState(state.websocket, state.nativeHost);
      if f.post {
        FailCurrentAndQueue();
      } else {
        env := Deliver(env, port.value, Posted(|responses|, currentRequest.value.payload));
      }
    }

    method HandleNativeMessage(m: NativeMessage, f: Faults)
      modifies this
      ensures View() == S.HandleNativeMessage(old(View()), m, f)
    {
      if currentRequest.None? {
        return;
      }
      var current := currentRequest.value;
      currentRequest := None;
      if !m.isObject {
        SendResponse(current, Failed(PROTO_INVALID_RESPONSE));
        FlushQueue(f);
        return;
      }
      SendResponse(current, Success(m));
      FlushQueue(f);
    }

    method HandleWebSocketMessage(frame: Frame, f: Faults)
      modifies this
      ensures View() == S.HandleWebSocketMessage(old(View()), frame, f)
    {
      if frame.NotJson? {
        return;
      }
      if !frame.isRequest || frame.requestId == "" {
        return;
      }
      var request := Request(frame.requestId, frame.payload);
      pendingQueue := pendingQueue + [request];
      accepted := accepted + [request];
      UpdateState(state.websocket, state.nativeHost);
      FlushQueue(f);
    }

    method Stop()
      modifies this
      ensures View() == OnStop(old(View()))
    {
      started := false;
      CancelReconnect();
      DisconnectNative(false);
      DisconnectWebSocket();
    }

    // `updateSettings` after its save has completed.
    method SettingsSaved(createThrows: bool)
      modifies this
      ensures View() == OnSettingsSaved(old(View()), createThrows)
    {
      UpdateState(state.websocket, state.nativeHost);
      DisconnectWebSocket();
      ConnectWebSocket(createThrows);
    }

    // Dispatches one event of the world to the listener registered for it.
    method Handle(e: Event)
      requires Enabled(View(), e)
      modifies this
      ensures View() == Apply(old(View()), e)
    {
      match e
      case Start =>
        if !started {
          started := true;
          loads := loads + 1;
        }
      case SettingsLoaded(throws) =>
        loads := loads - 1;
        UpdateState(state.websocket, state.nativeHost);
        ConnectWebSocket(throws);
      case LoadFailed => loads := loads - 1;
      case Stop => Stop();
      case SettingsSaved(throws) => SettingsSaved(throws);
      case Opened(s, f) =>
        env := SetReady(env, s, OPEN);
        CancelReconnect();
        UpdateState(Connected, state.nativeHost);
        FlushQueue(f);
      case Message(_, frame, f) => HandleWebSocketMessage(frame, f);
      case SocketFault(_) => UpdateState(Faulted, state.nativeHost);
      case PeerClosing(s) => env := SetReady(env, s, CLOSING);
      case Closed(s) =>
        env := SetReady(env, s, CLOSED);
        OnClose();
      case TimerFired(t, throws) =>
        env := env.(timers := env.timers - {t});
        reconnectTimer := None;
        ConnectWebSocket(throws);
      case NativeReplied(p, isObject, body, f) =>
        var m := NativeMessage(p, env.ports[p].replied, isObject, body);
        env := Advance(env, p);
        HandleNativeMessage(m, f);
      case NativeGone(p, runtimeError) =>
        env := Kill(env, p);
        DisconnectNative(runtimeError);
    }
  }
}

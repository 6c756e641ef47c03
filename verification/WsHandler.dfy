/** The relay's WebSocket handlers and the per-socket state they keep. */
module WsHandler {
  import opened Prelude
  import opened Registry
  import opened Connections
  import K = Keepalive

  /** `ConnectionState`; its timer fields are in `K.Timers`. */
  datatype ConnectionState = ConnectionState(username: Option<string>, isServer: Option<bool>, paired: bool)

  const NEW_STATE := ConnectionState(None, None, false)

  /** What `JSON.parse` and the two type guards make of a text frame. */
  datatype Parsed =
    | ServerRegister(username: string, installId: string, metadata: Metadata)
    | ClientConnect(username: string)
    | NoProtocolMessage

  datatype Event =
    | Message(ws: Socket, frame: Frame, parsed: Parsed, stamp: string)
    | Close(ws: Socket, code: int, reason: string)
    | Pong(ws: Socket)
    | IntervalFires(ws: Socket, id: nat)
    | TimeoutFires(ws: Socket, id: nat)
    | Advance(to: int)

  /** The relay's telemetry records. */
  datatype LogEvent =
    | ServerRegisterEvent(username: string, installId: string, metadata: Metadata)
    | ServerDisconnectEvent(username: string, installId: string, connectionState: ServerState, code: int, reason: string)
    | ClientConnectSuccess(username: string, server: Option<ActiveServer>)
    | ClientConnectError(username: string, failure: ConnectFailure)
    | PairDisconnectedEvent(username: string, initiator: Side, code: int, reason: string)

  /** Everything the handlers read and write. `states` keeps the state object of every
      socket ever seen, because timer callbacks still hold it; `tracked` are the keys of
      `connectionStates`. */
  datatype Relay = Relay(now: int, rows: Table, ix: Indices, states: map<Socket, ConnectionState>, tracked: set<Socket>,
                         timers: map<Socket, K.Timers>, outbox: map<Socket, seq<Outgoing>>, closeAsked: set<Socket>,
                         log: seq<LogEvent>)

  function StateOf(r: Relay, ws: Socket): ConnectionState {
    if ws in r.tracked && ws in r.states then r.states[ws] else NEW_STATE
  }

  function TimersOf(timers: map<Socket, K.Timers>, ws: Socket): K.Timers {
    if ws in timers then timers[ws] else K.NO_TIMERS
  }

  /** `getState`: looks the state up, creating it when the socket has none. */
  function Seen(r: Relay, ws: Socket): Relay {
    r.(states := r.states[ws := StateOf(r, ws)], tracked := r.tracked + {ws})
  }

  function OwnText(r: Relay, ws: Socket, c: Control): Relay {
    r.(outbox := Sent(r.outbox, ws, Own(c)))
  }

  function RefusalReason(r: Relay, u: string): RegistrationResult {
    if IsValidUsername(u) then UsernameTaken else InvalidUsername
  }

  function OnServerRegister(r: Relay, ws: Socket, u: string, installId: string, metadata: Metadata, stamp: string,
                            c: K.Config): Relay
    requires ws in r.states
  {
    if !MayRegister(r.rows, u, installId) then
      OwnText(r, ws, ServerRejected(RefusalReason(r, u))).(closeAsked := r.closeAsked + {ws})
    else
      r.(rows := AfterRegister(r.rows, u, installId, stamp),
         ix := AfterRegistration(r.ix, ws, u, installId, metadata, stamp),
         closeAsked := r.closeAsked + (if u in r.ix.waiting then {r.ix.waiting[u]} else {}),
         states := r.states[ws := r.states[ws].(username := Some(u), isServer := Some(true))],
         outbox := Sent(r.outbox, ws, Own(ServerRegistered)),
         timers := r.timers[ws := K.Started(TimersOf(r.timers, ws), r.now, c)],
         log := r.log + [ServerRegisterEvent(u, installId, metadata)])
  }

  predicate CanConnect(r: Relay, u: string) { u in r.rows && u in r.ix.waiting }

  function ConnectRefusal(r: Relay, u: string): ConnectFailure {
    if u in r.rows then ServerOffline else UnknownUsername
  }

  function OnClientConnect(r: Relay, ws: Socket, u: string, stamp: string): Relay
    requires ws in r.states
  {
    if !CanConnect(r, u) then
      OwnText(r, ws, ClientError(ConnectRefusal(r, u)))
      .(log := r.log + [ClientConnectError(u, ConnectRefusal(r, u))], closeAsked := r.closeAsked + {ws})
    else
      var s := r.ix.waiting[u];
      var ix := AfterPairing(r.ix, ws, u);
      var claimed := Seen(r.(states := r.states[ws := ConnectionState(Some(u), Some(false), true)]), s);
      claimed.(rows := AfterSeen(r.rows, u, stamp), ix := ix,
               states := claimed.states[s := claimed.states[s].(paired := true)],
               timers := r.timers[s := K.Stopped(TimersOf(r.timers, s))],
               outbox := Sent(r.outbox, ws, Own(ClientConnected)),
               log := r.log + [ClientConnectSuccess(u, Lookup(ix.active, s))])
  }

  function OnMessage(r0: Relay, ws: Socket, frame: Frame, parsed: Parsed, stamp: string, c: K.Config): Relay {
    var r := Seen(r0, ws);
    if r.states[ws].paired then
      if ws in r.ix.pairLookup then r.(outbox := Sent(r.outbox, Other(r.ix.pairLookup[ws], ws), Relayed(frame))) else r
    else if frame.binary then r
    else match parsed
      case ServerRegister(u, installId, metadata) => OnServerRegister(r, ws, u, installId, metadata, stamp, c)
      case ClientConnect(u) => OnClientConnect(r, ws, u, stamp)
      case NoProtocolMessage => r
  }

  /** The records of a close event. They need a username that is set and not empty. */
  function CloseRecords(outcome: CloseResult, username: Option<string>, code: int, reason: string): seq<LogEvent> {
    if username.None? || username.value == "" then []
    else match outcome
      case WaitingServerClosed(Some(server)) => [ServerDisconnectEvent(username.value, server.installId, Waiting, code, reason)]
      case PairDisconnected(ServerSide, Some(server)) =>
        [PairDisconnectedEvent(username.value, ServerSide, code, reason),
         ServerDisconnectEvent(username.value, server.installId, Paired, code, reason)]
      case PairDisconnected(initiator, _) => [PairDisconnectedEvent(username.value, initiator, code, reason)]
      case _ => []
  }

  function OnClose(r0: Relay, ws: Socket, code: int, reason: string): Relay {
    var r := Seen(r0, ws);
    var username := r.states[ws].username;
    r.(timers := r.timers[ws := K.Stopped(TimersOf(r.timers, ws))],
       ix := AfterClose(r.ix, ws, username),
       closeAsked := r.closeAsked + Bereaved(r.ix, ws, username),
       log := r.log + CloseRecords(CloseOutcome(r.ix, ws, username), username, code, reason),
       tracked := r.tracked - {ws})
  }

  function OnPong(r0: Relay, ws: Socket): Relay {
    var r := Seen(r0, ws);
    r.(timers := r.timers[ws := K.ClearedTimeout(TimersOf(r.timers, ws))])
  }

  function OnInterval(r: Relay, ws: Socket, id: nat, c: K.Config): Relay {
    var paired := ws in r.states && r.states[ws].paired;
    r.(timers := r.timers[ws := K.Ticked(TimersOf(r.timers, ws), id, paired, r.now, c)])
  }

  function OnTimeout(r: Relay, ws: Socket, id: nat): Relay {
    r.(timers := r.timers[ws := K.Expired(TimersOf(r.timers, ws), id)], closeAsked := r.closeAsked + {ws})
  }

  function Step(r: Relay, ev: Event, c: K.Config): Relay {
    match ev
    case Message(ws, frame, parsed, stamp) => OnMessage(r, ws, frame, parsed, stamp, c)
    case Close(ws, code, reason) => OnClose(r, ws, code, reason)
    case Pong(ws) => OnPong(r, ws)
    case IntervalFires(ws, id) => OnInterval(r, ws, id, c)
    case TimeoutFires(ws, id) => OnTimeout(r, ws, id)
    case Advance(to) => r.(now := to)
  }

  class TelemetryLog {
    var events: seq<LogEvent>

    constructor ()
      ensures events == []
    {
      events := [];
    }

    method Record(e: LogEvent)
      modifies this
      ensures events == old(events) + [e]
    {
      events := events + [e];
    }
  }

  /** `createWsHandler`: the event handlers over one connection manager. */
  class Handler {
    const config: K.Config
    const manager: ConnectionManager
    const telemetry: TelemetryLog
    var now: int
    var states: map<Socket, ConnectionState>
    var tracked: set<Socket>
    var timers: map<Socket, K.Timers>

    ghost function View(): Relay
      reads this, manager, manager.registry, manager.net, telemetry
    {
      Relay(now, manager.registry.rows, manager.View(), states, tracked, timers,
            manager.net.outbox, manager.net.closeAsked, telemetry.events)
    }

    constructor (config: K.Config, manager: ConnectionManager, telemetry: TelemetryLog, now: int)
      ensures this.config == config && this.manager == manager && this.telemetry == telemetry
      ensures View() == Relay(now, manager.registry.rows, manager.View(), map[], {}, map[],
                              manager.net.outbox, manager.net.closeAsked, telemetry.events)
    {
      this.config, this.manager, this.telemetry, this.now := config, manager, telemetry, now;
      states, tracked, timers := map[], {}, map[];
    }

    method GetState(ws: Socket)
      modifies this
      ensures View() == Seen(old(View()), ws)
    {
      if ws in tracked && ws in states { states := states[ws := states[ws]]; } else { states := states[ws := NEW_STATE]; }
      tracked := tracked + {ws};
    }

    method StartPingInterval(ws: Socket)
      modifies this
      ensures View() == old(View()).(timers := old(timers)[ws := K.Started(TimersOf(old(timers), ws), now, config)])
    {
      var k := TimersOf(timers, ws);
      var id := k.next;
      timers := timers[ws := k.(next := id + 1, intervals := k.intervals[id := now + config.pingIntervalMs], interval := Some(id))];
    }

    method StopPingInterval(ws: Socket)
      modifies this
      ensures View() == old(View()).(timers := old(timers)[ws := K.Stopped(TimersOf(old(timers), ws))])
    {
      var k := TimersOf(timers, ws);
      if k.interval.Some? {
        k := k.(intervals := k.intervals - {k.interval.value});
        k := k.(interval := None);
      }
      if k.timeout.Some? {
        k := k.(timeouts := k.timeouts - {k.timeout.value});
        k := k.(timeout := None);
      }
      timers := timers[ws := k];
    }

    method HandlePong(ws: Socket)
      modifies this
      ensures View() == old(View()).(timers := old(timers)[ws := K.ClearedTimeout(TimersOf(old(timers), ws))])
    {
      var k := TimersOf(timers, ws);
      if k.timeout.Some? {
        k := k.(timeouts := k.timeouts - {k.timeout.value});
        k := k.(timeout := None);
      }
      timers := timers[ws := k];
    }

    method HandleMessage(ws: Socket, frame: Frame, parsed: Parsed, stamp: string)
      modifies this, manager, manager.registry, manager.net, telemetry
      ensures View() == OnMessage(old(View()), ws, frame, parsed, stamp, config)
    {
      GetState(ws);
      if states[ws].paired {
        manager.Forward(ws, frame);
        return;
      }
      if frame.binary { return; }
      match parsed
      case ServerRegister(u, installId, metadata) => HandleRegister(ws, u, installId, metadata, stamp);
      case ClientConnect(u) => HandleConnect(ws, u, stamp);
      case NoProtocolMessage =>
    }

    method HandleRegister(ws: Socket, u: string, installId: string, metadata: Metadata, stamp: string)
      requires ws in states
      modifies this, manager, manager.registry, manager.net, telemetry
      ensures View() == OnServerRegister(old(View()), ws, u, installId, metadata, stamp, config)
    {
      var result := manager.RegisterServer(ws, u, installId, metadata, stamp);
      if result == Registered {
        AcceptServer(ws, u, installId, metadata);
      } else {
        manager.net.Send(ws, Own(ServerRejected(result)));
        manager.net.Close(ws);
      }
    }

    method AcceptServer(ws: Socket, u: string, installId: string, metadata: Metadata)
      requires ws in states
      modifies this, manager.net, telemetry
      ensures View() == old(View()).(
        states := old(states)[ws := old(states)[ws].(username := Some(u), isServer := Some(true))],
        outbox := Sent(old(manager.net.outbox), ws, Own(ServerRegistered)),
        timers := old(timers)[ws := K.Started(TimersOf(old(timers), ws), now, config)],
        log := old(telemetry.events) + [ServerRegisterEvent(u, installId, metadata)])
    {
      states := states[ws := states[ws].(username := Some(u))];
      states := states[ws := states[ws].(isServer := Some(true))];
      manager.net.Send(ws, Own(ServerRegistered));
      StartPingInterval(ws);
      telemetry.Record(ServerRegisterEvent(u, installId, metadata));
    }

    method AcceptClient(ws: Socket, u: string, serverWs: Socket, server: Option<ActiveServer>)
      modifies this, manager.net, telemetry
      ensures var claimed := Seen(old(View()).(states := old(states)[ws := ConnectionState(Some(u), Some(false), true)]), serverWs);
        View() == claimed.(
          states := claimed.states[serverWs := claimed.states[serverWs].(paired := true)],
          outbox := Sent(old(manager.net.outbox), ws, Own(ClientConnected)),
          timers := old(timers)[serverWs := K.Stopped(TimersOf(old(timers), serverWs))],
          log := old(telemetry.events) + [ClientConnectSuccess(u, server)])
    {
      states := states[ws := ConnectionState(Some(u), Some(false), true)];
      GetState(serverWs);
      states := states[serverWs := states[serverWs].(paired := true)];
      StopPingInterval(serverWs);
      manager.net.Send(ws, Own(ClientConnected));
      telemetry.Record(ClientConnectSuccess(u, server));
    }

    method HandleConnect(ws: Socket, u: string, stamp: string)
      requires ws in states
      modifies this, manager, manager.registry, manager.net, telemetry
      ensures View() == OnClientConnect(old(View()), ws, u, stamp)
    {
      var result := manager.ConnectClient(ws, u, stamp);
      match result
      case Connected(serverWs, server) =>
        AcceptClient(ws, u, serverWs, server);
      case Failed(reason) =>
        manager.net.Send(ws, Own(ClientError(reason)));
        telemetry.Record(ClientConnectError(u, reason));
        manager.net.Close(ws);
    }

    method HandleSocketClose(ws: Socket, code: int, reason: string)
      modifies this, manager, manager.net, telemetry
      ensures View() == OnClose(old(View()), ws, code, reason)
    {
      GetState(ws);
      StopPingInterval(ws);
      var username := states[ws].username;
      var closeResult := manager.HandleClose(ws, username);
      RecordClose(closeResult, username, code, reason);
      tracked := tracked - {ws};
    }

    method RecordClose(closeResult: CloseResult, username: Option<string>, code: int, reason: string)
      modifies telemetry
      ensures telemetry.events == old(telemetry.events) + CloseRecords(closeResult, username, code, reason)
    {
      var named := username.Some? && username.value != "";
      if closeResult.PairDisconnected? && named {
        telemetry.Record(PairDisconnectedEvent(username.value, closeResult.initiator, code, reason));
      }
      if closeResult.WaitingServerClosed? && closeResult.server.Some? && named {
        telemetry.Record(ServerDisconnectEvent(username.value, closeResult.server.value.installId, Waiting, code, reason));
      }
      if closeResult.PairDisconnected? && closeResult.initiator == ServerSide && closeResult.server.Some? && named {
        telemetry.Record(ServerDisconnectEvent(username.value, closeResult.server.value.installId, Paired, code, reason));
      }
    }

    method HandleSocketPong(ws: Socket)
      modifies this
      ensures View() == OnPong(old(View()), ws)
    {
      GetState(ws);
      HandlePong(ws);
    }

    /** The callback of the interval `id` that was started for `ws`. */
    method PingIntervalCallback(ws: Socket, id: nat)
      modifies this
      ensures View() == OnInterval(old(View()), ws, id, config)
    {
      var k := TimersOf(timers, ws);
      k := k.(intervals := k.intervals[id := now + config.pingIntervalMs]);
      if ws in states && states[ws].paired {
        if k.interval.Some? {
          k := k.(intervals := k.intervals - {k.interval.value});
          k := k.(interval := None);
        }
        timers := timers[ws := k];
        return;
      }
      var armed := k.next;
      k := k.(timeouts := k.timeouts[armed := now + config.pongTimeoutMs], next := armed + 1);
      timers := timers[ws := k.(timeout := Some(armed))];
    }

    method PongTimeoutCallback(ws: Socket, id: nat)
      modifies this, manager.net
      ensures View() == OnTimeout(old(View()), ws, id)
    {
      var k := TimersOf(timers, ws);
      timers := timers[ws := k.(timeouts := k.timeouts - {id})];
      manager.net.Close(ws);
    }
  }
}

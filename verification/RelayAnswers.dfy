/** What every event of a legal run makes the relay send, ask to close, store and record,
    stated on the ownership table, the indices and the outboxes alone. */
module RelayAnswers {
  import opened Prelude
  import opened Registry
  import opened Connections
  import opened WsHandler
  import opened RelayRuns
  import opened RelayResults
  import opened RelayTimers
  import K = Keepalive

  // ---- both ends of a pair carry the server's name -----------------------

  ghost predicate EndsNamed(look: map<Socket, Pair>, active: map<Socket, ActiveServer>, states: States) {
    forall ws :: ws in look ==>
      && ws in states && look[ws].server in active
      && states[ws].username == Some(active[look[ws].server].username)
  }

  ghost predicate PairsNamed(w: World) {
    match w
    case World(r, _) => EndsNamed(r.ix.pairLookup, r.ix.active, r.states)
  }

  lemma NamedWithActive(ix: Indices, states: States, active: map<Socket, ActiveServer>, ws: Socket, s: ConnectionState)
    requires PairsAgree(ix) && EndsNamed(ix.pairLookup, ix.active, states) && ws !in ix.pairLookup
    requires forall x :: x in ix.active && x in ix.pairLookup ==> x in active && active[x] == ix.active[x]
    ensures EndsNamed(ix.pairLookup, active, states[ws := s])
  {
    forall x | x in ix.pairLookup ensures ix.pairLookup[x].server in ix.pairLookup {
      assert ix.pairLookup[x] in ix.pairs;
    }
  }

  lemma PairsNamedAfterRegistration(w: World, ev: Event, c: K.Config)
    requires Inv(w) && PairsNamed(w) && Registers(w.r, ev) && ev.ws !in w.r.ix.pairLookup
    ensures PairsNamed(WStep(w, ev, c))
  {
    var s := ConnectionState(Some(ev.parsed.username), Some(true), false);
    RegistrationStep(w.r, ev, c);
    PairedStayActive(w.r.ix, ev.ws, ev.parsed.username, ev.parsed.installId, ev.parsed.metadata, ev.stamp);
    NamedWithActive(w.r.ix, w.r.states, Step(w.r, ev, c).ix.active, ev.ws, s);
  }

  lemma PairedStayActive(ix: Indices, ws: Socket, u: string, id: string, metadata: Metadata, now: string)
    requires WaitingAgrees(ix) && ws !in ix.pairLookup
    ensures var active := AfterRegistration(ix, ws, u, id, metadata, now).active;
      forall x :: x in ix.active && x in ix.pairLookup ==> x in active && active[x] == ix.active[x]
  {
  }

  lemma NamedWithPair(look: map<Socket, Pair>, active: map<Socket, ActiveServer>, states: States, s: Socket, ws: Socket,
                      client: ConnectionState, server: ConnectionState)
    requires EndsNamed(look, active, states) && s != ws && s !in look && ws !in look && s in active
    requires client.username == server.username == Some(active[s].username)
    ensures EndsNamed(look[s := Pair(s, ws)][ws := Pair(s, ws)], active[s := active[s].(state := Paired)],
                      states[ws := client][s := server])
  {
  }

  lemma PairsNamedAfterPairing(w: World, ev: Event, c: K.Config)
    requires Inv(w) && PairsNamed(w) && Connects(w.r, ev) && !WaitsIn(w.r.ix.waiting, ev.ws)
    requires ev.ws !in w.r.ix.pairLookup
    ensures PairsNamed(WStep(w, ev, c))
  {
    var u := ev.parsed.username;
    var s := w.r.ix.waiting[u];
    WaiterFacts(w, u);
    PairingStates(w.r, ev, c);
    assert Step(w.r, ev, c).ix == AfterPairing(w.r.ix, ev.ws, u);
    NamedWithPair(w.r.ix.pairLookup, w.r.ix.active, w.r.states, s, ev.ws,
                  ConnectionState(Some(u), Some(false), true), StateOf(w.r, s).(paired := true));
  }

  lemma WaiterFacts(w: World, u: string)
    requires Inv(w) && u in w.r.ix.waiting
    ensures var s := w.r.ix.waiting[u];
      && s in w.r.ix.active && w.r.ix.active[s].username == u && s !in w.r.ix.pairLookup
      && StateOf(w.r, s).username == Some(u)
  {
  }

  lemma EndsStay(ix: Indices, ws: Socket, username: Option<string>)
    requires Agree(ix)
    ensures var ix' := AfterClose(ix, ws, username);
      forall x :: x in ix'.pairLookup ==>
        && x in ix.pairLookup && x != ws && ix'.pairLookup[x] == ix.pairLookup[x]
        && ix.pairLookup[x].server in ix'.active && ix.pairLookup[x].server in ix.active
        && ix'.active[ix.pairLookup[x].server] == ix.active[ix.pairLookup[x].server]
  {
    var ix' := AfterClose(ix, ws, username);
    ClosingKeepsAgreement(ix, ws, username);
    forall x | x in ix'.pairLookup ensures ix'.pairLookup[x].server in ix'.active && x != ws {
      assert ix'.pairLookup[x] in ix'.pairs;
    }
  }

  lemma NamedAfterLeaving(ix: Indices, ix': Indices, states: States, ws: Socket, s: ConnectionState)
    requires EndsNamed(ix.pairLookup, ix.active, states)
    requires forall x :: x in ix'.pairLookup ==>
      && x in ix.pairLookup && x != ws && ix'.pairLookup[x] == ix.pairLookup[x]
      && ix.pairLookup[x].server in ix'.active && ix.pairLookup[x].server in ix.active
      && ix'.active[ix.pairLookup[x].server] == ix.active[ix.pairLookup[x].server]
    ensures EndsNamed(ix'.pairLookup, ix'.active, states[ws := s])
  {
  }

  lemma PairsNamedAfterClose(w: World, ev: Event, c: K.Config)
    requires Agree(w.r.ix) && PairsNamed(w) && ev.Close?
    ensures PairsNamed(WStep(w, ev, c))
  {
    CloseEffect(w, ev, c);
    EndsStay(w.r.ix, ev.ws, StateOf(w.r, ev.ws).username);
    NamedAfterLeaving(w.r.ix, WStep(w, ev, c).r.ix, w.r.states, ev.ws, StateOf(w.r, ev.ws));
  }

  lemma SeenKeepsNames(r: Relay, ws: Socket)
    requires PairedFlagged(r.ix.pairLookup, r.states, r.tracked)
    requires EndsNamed(r.ix.pairLookup, r.ix.active, r.states)
    ensures EndsNamed(r.ix.pairLookup, r.ix.active, r.states[ws := StateOf(r, ws)])
  {
  }

  lemma IndicesAside(r: Relay, ev: Event, c: K.Config)
    requires (ev.Message? && !Registers(r, ev) && !Connects(r, ev)) || ev.Pong?
    ensures Step(r, ev, c).ix == r.ix
  {
  }

  lemma PairsNamedAside(w: World, ev: Event, c: K.Config)
    requires PairedFlagged(w.r.ix.pairLookup, w.r.states, w.r.tracked) && PairsNamed(w)
    requires (ev.Message? && !Registers(w.r, ev) && !Connects(w.r, ev)) || ev.Pong?
    ensures PairsNamed(WStep(w, ev, c))
  {
    SeenEffect(w.r, ev, c);
    IndicesAside(w.r, ev, c);
    SeenKeepsNames(w.r, ev.ws);
  }

  lemma PairsNamedTimer(w: World, ev: Event, c: K.Config)
    requires PairsNamed(w) && !ev.Message? && !ev.Pong? && !ev.Close?
    ensures PairsNamed(WStep(w, ev, c))
  {
  }

  lemma PairsNamedNext(w: World, ev: Event, c: K.Config)
    requires Inv(w) && PairsNamed(w) && Enabled(w, ev) && Legal(w.r, ev)
    ensures PairsNamed(WStep(w, ev, c))
  {
    if ev.Message? { UnpairedNotLookedUp(w, ev.ws); }
    if Registers(w.r, ev) { PairsNamedAfterRegistration(w, ev, c); }
    else if Connects(w.r, ev) { PairsNamedAfterPairing(w, ev, c); }
    else if ev.Close? { PairsNamedAfterClose(w, ev, c); }
    else if ev.Message? || ev.Pong? { PairsNamedAside(w, ev, c); }
    else { PairsNamedTimer(w, ev, c); }
  }

  /** In every legal run both ends of a live pair carry the name its server is active under. */
  lemma {:induction false} PairsNamedAlways(rows: Table, evs: seq<Event>, c: K.Config)
    requires LegalRun(Start(rows), evs, c)
    ensures PairsNamed(Run(Start(rows), evs, c))
  {
    if evs != [] {
      PairsNamedAlways(rows, evs[..|evs| - 1], c);
      InvAlways(rows, evs[..|evs| - 1], c);
      PairsNamedNext(Run(Start(rows), evs[..|evs| - 1], c), evs[|evs| - 1], c);
    }
  }

  // ---- effects, one aspect each ------------------------------------------

  /** Exactly `os` is sent on `ws`, and nothing on any other socket. */
  ghost predicate SendsOnly(r: Relay, r': Relay, ws: Socket, os: seq<Outgoing>) {
    && Outbox(r'.outbox, ws) == Outbox(r.outbox, ws) + os
    && forall x :: x != ws ==> Outbox(r'.outbox, x) == Outbox(r.outbox, x)
  }

  ghost predicate SendsNothing(r: Relay, r': Relay) {
    forall x :: Outbox(r'.outbox, x) == Outbox(r.outbox, x)
  }

  /** Exactly these sockets are asked to close. */
  predicate Asks(r: Relay, r': Relay, whom: set<Socket>) { r'.closeAsked == r.closeAsked + whom }

  predicate Records(r: Relay, r': Relay, es: seq<LogEvent>) { r'.log == r.log + es }

  predicate Stores(r: Relay, r': Relay) { r'.rows == r.rows && r'.ix == r.ix }

  ghost predicate Untouched(r: Relay, r': Relay) {
    SendsNothing(r, r') && Asks(r, r', {}) && Records(r, r', []) && Stores(r, r')
  }

  // ---- what each event does ----------------------------------------------

  ghost predicate RegisterAnswered(r: Relay, ws: Socket, u: string, id: string, metadata: Metadata, now: string, r': Relay) {
    if !IsValidUsername(u) || (u in r.rows && r.rows[u].installId != id) then
      && SendsOnly(r, r', ws, [Own(ServerRejected(if IsValidUsername(u) then UsernameTaken else InvalidUsername))])
      && Asks(r, r', {ws}) && Records(r, r', []) && Stores(r, r')
    else
      && SendsOnly(r, r', ws, [Own(ServerRegistered)])
      && Asks(r, r', if u in r.ix.waiting then {r.ix.waiting[u]} else {})
      && Records(r, r', [ServerRegisterEvent(u, id, metadata)])
      && r'.rows == r.rows[u := Row(id, if u in r.rows then r.rows[u].registeredAt else now, now)]
      && r'.ix.waiting == r.ix.waiting[u := ws] && r'.ix.pairLookup == r.ix.pairLookup
      && ws in r'.ix.active && r'.ix.active[ws] == ActiveServer(u, id, now, Waiting, metadata)
  }

  ghost predicate ConnectAnswered(r: Relay, ws: Socket, u: string, now: string, r': Relay) {
    if u !in r.rows || u !in r.ix.waiting then
      var why := if u in r.rows then ServerOffline else UnknownUsername;
      && SendsOnly(r, r', ws, [Own(ClientError(why))])
      && Asks(r, r', {ws}) && Records(r, r', [ClientConnectError(u, why)]) && Stores(r, r')
    else
      var s := r.ix.waiting[u];
      && SendsOnly(r, r', ws, [Own(ClientConnected)])
      && Asks(r, r', {}) && r'.rows == r.rows[u := r.rows[u].(lastSeenAt := now)]
      && s in r.ix.active && Records(r, r', [ClientConnectSuccess(u, Some(r.ix.active[s].(state := Paired)))])
      && r'.ix.waiting == r.ix.waiting - {u}
      && r'.ix.pairLookup == r.ix.pairLookup[s := Pair(s, ws)][ws := Pair(s, ws)]
  }

  ghost predicate ForwardAnswered(r: Relay, ws: Socket, frame: Frame, r': Relay) {
    if ws !in r.ix.pairLookup then Untouched(r, r')
    else
      var p := r.ix.pairLookup[ws];
      && SendsOnly(r, r', if ws == p.server then p.client else p.server, [Relayed(frame)])
      && Asks(r, r', {}) && Records(r, r', []) && Stores(r, r')
  }

  /** A close asks only the other end of a live pair to close. */
  ghost predicate CloseAnswered(r: Relay, ws: Socket, code: int, reason: string, r': Relay) {
    && SendsNothing(r, r') && r'.rows == r.rows
    && if ws in r.ix.pairLookup then
         var p := r.ix.pairLookup[ws];
         && p.server in r.ix.active && ws !in r'.ix.pairLookup
         && var name := r.ix.active[p.server].username;
         if ws == p.server then
           && Asks(r, r', {p.client})
           && Records(r, r', [PairDisconnectedEvent(name, ServerSide, code, reason),
                              ServerDisconnectEvent(name, r.ix.active[ws].installId, Paired, code, reason)])
         else
           && Asks(r, r', {p.server})
           && Records(r, r', [PairDisconnectedEvent(name, ClientSide, code, reason)])
       else if ws in r.ix.active then
         && Asks(r, r', {}) && !WaitsIn(r'.ix.waiting, ws)
         && Records(r, r', [ServerDisconnectEvent(r.ix.active[ws].username, r.ix.active[ws].installId, Waiting, code, reason)])
       else Asks(r, r', {}) && Records(r, r', []) && r'.ix == r.ix
  }

  /** Everything the relay does at `ev`. */
  ghost predicate Answered(w: World, ev: Event, w': World) {
    match ev
    case Message(ws, frame, parsed, stamp) =>
      if ws in w.h.pairOf then ForwardAnswered(w.r, ws, frame, w'.r)
      else if frame.binary then Untouched(w.r, w'.r)
      else (match parsed
        case ServerRegister(u, id, metadata) => RegisterAnswered(w.r, ws, u, id, metadata, stamp, w'.r)
        case ClientConnect(u) => ConnectAnswered(w.r, ws, u, stamp, w'.r)
        case NoProtocolMessage => Untouched(w.r, w'.r))
    case Close(ws, code, reason) => CloseAnswered(w.r, ws, code, reason, w'.r)
    case TimeoutFires(ws, _) => SendsNothing(w.r, w'.r) && Asks(w.r, w'.r, {ws}) && Records(w.r, w'.r, []) && Stores(w.r, w'.r)
    case _ => Untouched(w.r, w'.r)
  }

  lemma RegisterStep(r: Relay, ev: Event, c: K.Config)
    requires ev.Message? && !StateOf(r, ev.ws).paired && !ev.frame.binary && ev.parsed.ServerRegister?
    ensures RegisterAnswered(r, ev.ws, ev.parsed.username, ev.parsed.installId, ev.parsed.metadata, ev.stamp, Step(r, ev, c))
  {
    if Registers(r, ev) { RegistrationStep(r, ev, c); }
  }

  lemma ConnectStep(r: Relay, ev: Event, c: K.Config)
    requires ev.Message? && !StateOf(r, ev.ws).paired && !ev.frame.binary && ev.parsed.ClientConnect? && Agree(r.ix)
    ensures ConnectAnswered(r, ev.ws, ev.parsed.username, ev.stamp, Step(r, ev, c))
  {
    var u, ws := ev.parsed.username, ev.ws;
    assert Step(r, ev, c) == OnClientConnect(Seen(r, ws), ws, u, ev.stamp);
  }

  lemma ForwardStep(r: Relay, ev: Event, c: K.Config)
    requires ev.Message? && StateOf(r, ev.ws).paired
    ensures ForwardAnswered(r, ev.ws, ev.frame, Step(r, ev, c))
  {
  }

  lemma IgnoredStep(r: Relay, ev: Event, c: K.Config)
    requires ev.Message? ==> !StateOf(r, ev.ws).paired && (ev.frame.binary || ev.parsed.NoProtocolMessage?)
    requires !ev.Close? && !ev.TimeoutFires?
    ensures Untouched(r, Step(r, ev, c))
  {
  }

  lemma CloseStep(w: World, ev: Event, c: K.Config)
    requires Inv(w) && PairsNamed(w) && ev.Close?
    ensures CloseAnswered(w.r, ev.ws, ev.code, ev.reason, WStep(w, ev, c).r)
  {
    CloseEffect(w, ev, c);
    if ev.ws in w.r.ix.pairLookup {
      PairedEnd(w, ev.ws);
      ClosePaired(w, ev, w.r.ix.pairLookup[ev.ws], WStep(w, ev, c));
    } else {
      CloseUnpaired(w, ev, WStep(w, ev, c));
    }
  }

  lemma ClosePaired(w: World, ev: Event, p: Pair, w': World)
    requires ev.Close? && Closed(w, ev.ws, ev.code, ev.reason, w')
    requires ev.ws in w.r.ix.pairLookup && w.r.ix.pairLookup[ev.ws] == p && (ev.ws == p.server || ev.ws == p.client)
    requires p.server != p.client && p.server in w.r.ix.active && w.r.ix.active[p.server].username != ""
    requires StateOf(w.r, ev.ws).username == Some(w.r.ix.active[p.server].username)
    requires !WaitsUnder(w.r.ix, ev.ws, StateOf(w.r, ev.ws).username)
    ensures CloseAnswered(w.r, ev.ws, ev.code, ev.reason, w'.r)
  {
  }

  lemma CloseUnpaired(w: World, ev: Event, w': World)
    requires Inv(w) && ev.Close? && Closed(w, ev.ws, ev.code, ev.reason, w')
    requires ev.ws !in w.r.ix.pairLookup
    ensures CloseAnswered(w.r, ev.ws, ev.code, ev.reason, w'.r)
  {
    if ev.ws in w.r.ix.active {
      WaitingEnd(w, ev.ws);
      ClosedDoesNotWait(w, ev.ws);
    } else {
      NotActiveNotWaiting(w.r.ix, ev.ws, StateOf(w.r, ev.ws).username);
    }
  }

  lemma ClosedDoesNotWait(w: World, ws: Socket)
    requires Inv(w) && WaitsUnder(w.r.ix, ws, StateOf(w.r, ws).username)
    ensures !WaitsIn(AfterClose(w.r.ix, ws, StateOf(w.r, ws).username).waiting, ws)
  {
  }

  lemma NotActiveNotWaiting(ix: Indices, ws: Socket, username: Option<string>)
    requires ActiveAgrees(ix) && ws !in ix.active
    ensures !WaitsUnder(ix, ws, username)
  {
  }

  lemma PairedEnd(w: World, ws: Socket)
    requires Inv(w) && PairsNamed(w) && ws in w.r.ix.pairLookup
    ensures var p := w.r.ix.pairLookup[ws];
      && p.server in w.r.ix.active && (ws == p.server || ws == p.client) && p.server != p.client
      && StateOf(w.r, ws).username == Some(w.r.ix.active[p.server].username) && w.r.ix.active[p.server].username != ""
      && !WaitsUnder(w.r.ix, ws, StateOf(w.r, ws).username)
  {
  }

  lemma WaitingEnd(w: World, ws: Socket)
    requires Inv(w) && ws !in w.r.ix.pairLookup && ws in w.r.ix.active
    ensures StateOf(w.r, ws).username == Some(w.r.ix.active[ws].username) && w.r.ix.active[ws].username != ""
    ensures WaitsUnder(w.r.ix, ws, StateOf(w.r, ws).username)
  {
  }

  /** A socket whose message arrives is flagged exactly when it was ever in a pair. */
  lemma FlaggedIffPaired(w: World, ws: Socket)
    requires Inv(w) && ws !in w.h.closed
    ensures StateOf(w.r, ws).paired <==> ws in w.h.pairOf
  {
  }

  lemma AnsweredIn(w: World, ev: Event, c: K.Config)
    requires Inv(w) && PairsNamed(w) && Enabled(w, ev)
    ensures Answered(w, ev, WStep(w, ev, c))
  {
    if ev.Message? {
      FlaggedIffPaired(w, ev.ws);
      if StateOf(w.r, ev.ws).paired { ForwardStep(w.r, ev, c); }
      else if ev.frame.binary || ev.parsed.NoProtocolMessage? { IgnoredStep(w.r, ev, c); }
      else if ev.parsed.ServerRegister? { RegisterStep(w.r, ev, c); }
      else { ConnectStep(w.r, ev, c); }
    } else if ev.Close? {
      CloseStep(w, ev, c);
    } else if !ev.TimeoutFires? {
      IgnoredStep(w.r, ev, c);
    }
  }

  /** Every event after every legal run is answered so. */
  lemma AnsweredAlways(rows: Table, evs: seq<Event>, ev: Event, c: K.Config)
    requires LegalRun(Start(rows), evs + [ev], c)
    ensures Answered(Run(Start(rows), evs, c), ev, Run(Start(rows), evs + [ev], c))
  {
    RunNext(Start(rows), evs, ev, c);
    LegalRunNext(Start(rows), evs, ev, c);
    InvAlways(rows, evs, c);
    PairsNamedAlways(rows, evs, c);
    AnsweredIn(Run(Start(rows), evs, c), ev, c);
  }

  // ---- refusals ----------------------------------------------------------

  /** `ws` was sent `o` and nothing else, was asked to close, and nothing was stored. */
  ghost predicate Refused(w: World, ws: Socket, o: Outgoing, w': World) {
    match w
    case World(r, _) =>
      && Outbox(w'.r.outbox, ws) == Outbox(r.outbox, ws) + [o]
      && ws in w'.r.closeAsked && w'.r.rows == r.rows && w'.r.ix == r.ix
  }

  /** A client that asks for a name without a row, or one that nobody waits for, is told so and
      asked to close. */
  lemma ConnectionRefused(rows: Table, evs: seq<Event>, ws: Socket, frame: Frame, u: string, stamp: string, c: K.Config)
    requires LegalRun(Start(rows), evs + [Message(ws, frame, ClientConnect(u), stamp)], c) && !frame.binary
    ensures var w := Run(Start(rows), evs, c);
      var w' := Run(Start(rows), evs + [Message(ws, frame, ClientConnect(u), stamp)], c);
      && (ws !in w.h.pairOf && u !in w.r.rows ==> Refused(w, ws, Own(ClientError(UnknownUsername)), w'))
      && (ws !in w.h.pairOf && u in w.r.rows && u !in w.r.ix.waiting ==> Refused(w, ws, Own(ClientError(ServerOffline)), w'))
  {
    var ev := Message(ws, frame, ClientConnect(u), stamp);
    AnsweredAlways(rows, evs, ev, c);
    ConnectRefusals(Run(Start(rows), evs, c), ws, frame, u, stamp, Run(Start(rows), evs + [ev], c));
  }

  lemma ConnectRefusals(w: World, ws: Socket, frame: Frame, u: string, stamp: string, w': World)
    requires Answered(w, Message(ws, frame, ClientConnect(u), stamp), w') && !frame.binary
    ensures ws !in w.h.pairOf && u !in w.r.rows ==> Refused(w, ws, Own(ClientError(UnknownUsername)), w')
    ensures ws !in w.h.pairOf && u in w.r.rows && u !in w.r.ix.waiting ==> Refused(w, ws, Own(ClientError(ServerOffline)), w')
  {
  }

  /** A server that registers an invalid name, or one that another installation owns, is told so
      and asked to close. */
  lemma RegistrationRefused(rows: Table, evs: seq<Event>, ws: Socket, frame: Frame, u: string, id: string,
                            metadata: Metadata, stamp: string, c: K.Config)
    requires LegalRun(Start(rows), evs + [Message(ws, frame, ServerRegister(u, id, metadata), stamp)], c) && !frame.binary
    ensures var w := Run(Start(rows), evs, c);
      var w' := Run(Start(rows), evs + [Message(ws, frame, ServerRegister(u, id, metadata), stamp)], c);
      && (ws !in w.h.pairOf && !IsValidUsername(u) ==> Refused(w, ws, Own(ServerRejected(InvalidUsername)), w'))
      && (ws !in w.h.pairOf && IsValidUsername(u) && u in w.r.rows && w.r.rows[u].installId != id ==>
            Refused(w, ws, Own(ServerRejected(UsernameTaken)), w'))
  {
    var ev := Message(ws, frame, ServerRegister(u, id, metadata), stamp);
    AnsweredAlways(rows, evs, ev, c);
    RegisterRefusals(Run(Start(rows), evs, c), ws, frame, u, id, metadata, stamp, Run(Start(rows), evs + [ev], c));
  }

  lemma RegisterRefusals(w: World, ws: Socket, frame: Frame, u: string, id: string, metadata: Metadata, stamp: string, w': World)
    requires Answered(w, Message(ws, frame, ServerRegister(u, id, metadata), stamp), w') && !frame.binary
    ensures ws !in w.h.pairOf && !IsValidUsername(u) ==> Refused(w, ws, Own(ServerRejected(InvalidUsername)), w')
    ensures ws !in w.h.pairOf && IsValidUsername(u) && u in w.r.rows && w.r.rows[u].installId != id ==>
      Refused(w, ws, Own(ServerRejected(UsernameTaken)), w')
  {
  }
}

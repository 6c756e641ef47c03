/** Whole runs of the relay: every interleaving of socket events and timers. */
module RelayRuns {
  import opened Prelude
  import opened Registry
  import opened Connections
  import opened WsHandler
  import K = Keepalive

  /** What an observer of the run remembers: the sockets whose close event came, the pair
      each socket ever belonged to, the frames each socket sent while its pair was live, the
      servers that stopped waiting because another one registered, and how often a
      registration found its name already waited for. */
  datatype History = History(closed: set<Socket>, pairOf: map<Socket, Pair>, sent: map<Socket, seq<Frame>>,
                             displaced: set<Socket>, replacements: nat)

  datatype World = World(r: Relay, h: History)

  function Start(rows: Table): World {
    World(Relay(0, rows, Indices(map[], {}, map[], map[]), map[], {}, map[], map[], {}, []),
          History({}, map[], map[], {}, 0))
  }

  function FramesOf(sent: map<Socket, seq<Frame>>, ws: Socket): seq<Frame> {
    if ws in sent then sent[ws] else []
  }

  function SentBy(h: History, ws: Socket): seq<Frame> {
    FramesOf(h.sent, ws)
  }

  /** The event is an accepted `server_register`. */
  predicate Registers(r: Relay, ev: Event) {
    ev.Message? && !StateOf(r, ev.ws).paired && !ev.frame.binary && ev.parsed.ServerRegister?
    && MayRegister(r.rows, ev.parsed.username, ev.parsed.installId)
  }

  /** The event is an accepted `client_connect`. */
  predicate Connects(r: Relay, ev: Event) {
    ev.Message? && !StateOf(r, ev.ws).paired && !ev.frame.binary && ev.parsed.ClientConnect?
    && CanConnect(r, ev.parsed.username)
  }

  function Remember(r: Relay, h: History, ev: Event, r': Relay): History {
    History(if ev.Close? then h.closed + {ev.ws} else h.closed,
            h.pairOf + map ws | ws in r'.ix.pairLookup && ws !in r.ix.pairLookup :: r'.ix.pairLookup[ws],
            if ev.Message? && ev.ws in r.ix.pairLookup then h.sent[ev.ws := SentBy(h, ev.ws) + [ev.frame]] else h.sent,
            if Registers(r, ev) && ev.parsed.username in r.ix.waiting then h.displaced + {r.ix.waiting[ev.parsed.username]} else h.displaced,
            if Registers(r, ev) && ev.parsed.username in r.ix.waiting then h.replacements + 1 else h.replacements)
  }

  function WStep(w: World, ev: Event, c: K.Config): World {
    var r' := Step(w.r, ev, c);
    World(r', Remember(w.r, w.h, ev, r'))
  }

  /** The environment: `close` is a socket's last event, and timers fire when due. */
  predicate Enabled(w: World, ev: Event) {
    match ev
    case Message(ws, _, _, _) => ws !in w.h.closed
    case Close(ws, _, _) => ws !in w.h.closed
    case Pong(ws) => ws !in w.h.closed
    case IntervalFires(ws, id) => id in TimersOf(w.r.timers, ws).intervals && TimersOf(w.r.timers, ws).intervals[id] <= w.r.now
    case TimeoutFires(ws, id) => id in TimersOf(w.r.timers, ws).timeouts && TimersOf(w.r.timers, ws).timeouts[id] <= w.r.now
    case Advance(to) => w.r.now <= to && forall ws :: ws in w.r.timers ==> K.NothingOverdue(w.r.timers[ws], to)
  }

  /** What the relay needs of its sockets and does not check: a socket that is waiting as a
      server neither registers under a second name nor connects as a client. */
  predicate Legal(r: Relay, ev: Event) {
    match ev
    case Message(ws, _, parsed, _) =>
      && (Registers(r, ev) ==> forall u :: u in r.ix.waiting && r.ix.waiting[u] == ws ==> u == parsed.username)
      && (Connects(r, ev) ==> !WaitsIn(r.ix.waiting, ws))
    case _ => true
  }

  /** The stronger hypothesis of the protocol: one accepted handshake per socket. */
  predicate FirstHandshake(r: Relay, ev: Event) {
    Registers(r, ev) || Connects(r, ev) ==> StateOf(r, ev.ws).username.None?
  }

  function Run(w: World, evs: seq<Event>, c: K.Config): World {
    if evs == [] then w else WStep(Run(w, evs[..|evs| - 1], c), evs[|evs| - 1], c)
  }

  ghost predicate LegalRun(w: World, evs: seq<Event>, c: K.Config) {
    evs != [] ==>
      && LegalRun(w, evs[..|evs| - 1], c)
      && Enabled(Run(w, evs[..|evs| - 1], c), evs[|evs| - 1])
      && Legal(Run(w, evs[..|evs| - 1], c).r, evs[|evs| - 1])
  }

  // ---- the invariants ----------------------------------------------------

  type States = map<Socket, ConnectionState>

  /** Only sockets whose close event has not come have a state. */
  ghost predicate TrackedOpen(states: States, tracked: set<Socket>, closed: set<Socket>) {
    forall ws :: ws in tracked ==> ws in states && ws !in closed
  }

  /** A socket in `pairLookup` has its `paired` flag set, and a name. */
  ghost predicate PairedFlagged(look: map<Socket, Pair>, states: States, tracked: set<Socket>) {
    forall ws :: ws in look ==>
      ws in tracked && ws in states && states[ws].paired && states[ws].username.Some? && states[ws].username.value != ""
  }

  /** A socket flagged `paired` that left `pairLookup` has been asked to close. */
  ghost predicate WidowsAsked(look: map<Socket, Pair>, states: States, tracked: set<Socket>, closeAsked: set<Socket>) {
    forall ws :: ws in tracked && ws in states && states[ws].paired && ws !in look ==> ws in closeAsked
  }

  /** A waiting socket is an unpaired server of exactly the name it waits under. */
  ghost predicate WaitersFlagged(waiting: map<string, Socket>, states: States, tracked: set<Socket>) {
    forall u :: u in waiting ==>
      IsValidUsername(u) && waiting[u] in tracked && waiting[u] in states
      && states[waiting[u]] == ConnectionState(Some(u), Some(true), false)
  }

  /** An unpaired server is waiting or was replaced, and a replaced one was asked to close. */
  ghost predicate ServersExplained(waiting: map<string, Socket>, states: States, tracked: set<Socket>,
                                   displaced: set<Socket>, closeAsked: set<Socket>) {
    && (forall ws :: ws in tracked && ws in states && states[ws].isServer == Some(true) && !states[ws].paired ==>
        WaitsIn(waiting, ws) || ws in displaced)
    && displaced <= closeAsked
  }

  /** The flags of the sockets refine the indices. */
  ghost predicate FlagsAgree(r: Relay, h: History) {
    && TrackedOpen(r.states, r.tracked, h.closed)
    && PairedFlagged(r.ix.pairLookup, r.states, r.tracked)
    && WidowsAsked(r.ix.pairLookup, r.states, r.tracked, r.closeAsked)
    && WaitersFlagged(r.ix.waiting, r.states, r.tracked)
    && ServersExplained(r.ix.waiting, r.states, r.tracked, h.displaced, r.closeAsked)
  }

  /** Every active server's name is registered to its installation. */
  ghost predicate Owned(active: map<Socket, ActiveServer>, rows: Table) {
    forall ws :: ws in active ==> active[ws].username in rows && rows[active[ws].username].installId == active[ws].installId
  }

  predicate Greeting(out: seq<Outgoing>) {
    forall i :: 0 <= i < |out| ==> out[i].Own? && out[i].message != ClientConnected
  }

  function Forwards(frames: seq<Frame>): seq<Outgoing> {
    seq(|frames|, i requires 0 <= i < |frames| => Relayed(frames[i]))
  }

  /** The sends on a paired socket: refusals and registrations first, for a client then
      `client_connected`, and then exactly `frames`, in order. */
  predicate Delivered(out: seq<Outgoing>, frames: seq<Frame>, client: bool) {
    && |frames| <= |out|
    && var k := |out| - |frames|;
    && out[k..] == Forwards(frames)
    && if client then k > 0 && out[k - 1] == Own(ClientConnected) && Greeting(out[..k - 1]) else Greeting(out[..k])
  }

  /** `pairOf` extends `pairLookup` and is itself made of whole pairs. */
  ghost predicate Partners(look: map<Socket, Pair>, pairOf: map<Socket, Pair>) {
    && (forall ws :: ws in look ==> ws in pairOf && pairOf[ws] == look[ws])
    && (forall ws :: ws in pairOf ==>
        var p := pairOf[ws];
        && p.server != p.client && (ws == p.server || ws == p.client)
        && p.server in pairOf && pairOf[p.server] == p && p.client in pairOf && pairOf[p.client] == p)
  }

  /** A socket with a state is flagged `paired` exactly when it ever belonged to a pair. */
  ghost predicate FlagsArePartners(states: States, tracked: set<Socket>, closed: set<Socket>,
                                   pairOf: map<Socket, Pair>) {
    && (forall ws :: ws in tracked && ws in states ==> (states[ws].paired <==> ws in pairOf))
    && (forall ws :: ws in pairOf ==> ws in tracked || ws in closed)
  }

  /** A socket that belonged to a pair was sent exactly its peer's frames; any other was
      sent no frame, and none of its own frames count. */
  ghost predicate OutboxMatches(out: seq<Outgoing>, sent: map<Socket, seq<Frame>>, pairOf: map<Socket, Pair>,
                                ws: Socket) {
    match Lookup(pairOf, ws)
    case Some(p) => Delivered(out, FramesOf(sent, Other(p, ws)), ws == p.client)
    case None => Greeting(out) && FramesOf(sent, ws) == []
  }

  ghost predicate OutboxesMatch(outbox: map<Socket, seq<Outgoing>>, sent: map<Socket, seq<Frame>>,
                                pairOf: map<Socket, Pair>) {
    forall ws :: OutboxMatches(Outbox(outbox, ws), sent, pairOf, ws)
  }

  ghost predicate DeliveryHolds(r: Relay, h: History) {
    && Partners(r.ix.pairLookup, h.pairOf)
    && FlagsArePartners(r.states, r.tracked, h.closed, h.pairOf)
    && OutboxesMatch(r.outbox, h.sent, h.pairOf)
  }

  datatype Kind = Successes | Registrations | PairEnds | WaitingEnds

  predicate IsKind(e: LogEvent, k: Kind) {
    match k
    case Successes => e.ClientConnectSuccess?
    case Registrations => e.ServerRegisterEvent?
    case PairEnds => e.PairDisconnectedEvent?
    case WaitingEnds => e.ServerDisconnectEvent? && e.connectionState == Waiting
  }

  function Count(log: seq<LogEvent>, k: Kind): nat {
    if log == [] then 0 else Count(log[..|log| - 1], k) + if IsKind(log[|log| - 1], k) then 1 else 0
  }

  /** The records conserve connections. */
  ghost predicate LogBalances(log: seq<LogEvent>, waiting: nat, pairs: nat, replacements: nat) {
    && Count(log, Successes) == pairs + Count(log, PairEnds)
    && Count(log, Registrations) == waiting + pairs + replacements + Count(log, WaitingEnds) + Count(log, PairEnds)
  }

  ghost predicate Inv(w: World) {
    match w
    case World(r, h) =>
      && Agree(r.ix) && FlagsAgree(r, h) && Owned(r.ix.active, r.rows) && DeliveryHolds(r, h)
      && LogBalances(r.log, |r.ix.waiting|, |r.ix.pairs|, h.replacements)
  }

  // ---- what a step changes -----------------------------------------------

  ghost predicate Registered(w: World, ws: Socket, u: string, installId: string, metadata: Metadata,
                             stamp: string, w': World) {
    var r, h, r', h' := w.r, w.h, w'.r, w'.h;
    var replaced := if u in r.ix.waiting then {r.ix.waiting[u]} else {};
    && r'.ix == AfterRegistration(r.ix, ws, u, installId, metadata, stamp)
    && r'.rows == AfterRegister(r.rows, u, installId, stamp)
    && r'.states == r.states[ws := ConnectionState(Some(u), Some(true), false)]
    && r'.tracked == r.tracked + {ws} && r'.closeAsked == r.closeAsked + replaced
    && r'.outbox == Sent(r.outbox, ws, Own(ServerRegistered))
    && r'.log == r.log + [ServerRegisterEvent(u, installId, metadata)]
    && h' == h.(displaced := h.displaced + replaced, replacements := h.replacements + |replaced|)
  }

  ghost predicate Connected(w: World, ws: Socket, u: string, stamp: string, w': World)
    requires u in w.r.ix.waiting
  {
    var r, h, r', h' := w.r, w.h, w'.r, w'.h;
    var s := r.ix.waiting[u];
    && r'.ix == AfterPairing(r.ix, ws, u)
    && r'.rows == AfterSeen(r.rows, u, stamp)
    && r'.states == r.states[ws := ConnectionState(Some(u), Some(false), true)][s := StateOf(r, s).(paired := true)]
    && r'.tracked == r.tracked + {ws, s} && r'.closeAsked == r.closeAsked
    && r'.outbox == Sent(r.outbox, ws, Own(ClientConnected))
    && |r'.log| == |r.log| + 1 && r'.log == r.log + [r'.log[|r.log|]] && r'.log[|r.log|].ClientConnectSuccess?
    && h' == h.(pairOf := h.pairOf[s := Pair(s, ws)][ws := Pair(s, ws)])
  }

  ghost predicate Closed(w: World, ws: Socket, code: int, reason: string, w': World) {
    var r, h, r', h' := w.r, w.h, w'.r, w'.h;
    var username := StateOf(r, ws).username;
    && r'.ix == AfterClose(r.ix, ws, username) && r'.rows == r.rows
    && r'.states == r.states[ws := StateOf(r, ws)] && r'.tracked == r.tracked - {ws}
    && r'.closeAsked == r.closeAsked + Bereaved(r.ix, ws, username) && r'.outbox == r.outbox
    && r'.log == r.log + CloseRecords(CloseOutcome(r.ix, ws, username), username, code, reason)
    && h' == h.(closed := h.closed + {ws})
  }

  ghost predicate Forwarded(w: World, ws: Socket, frame: Frame, w': World) {
    var r, h, r', h' := w.r, w.h, w'.r, w'.h;
    && r' == r.(outbox := r'.outbox, states := r'.states, tracked := r'.tracked)
    && r'.states == r.states[ws := StateOf(r, ws)] && r'.tracked == r.tracked + {ws}
    && r'.outbox == (if ws in r.ix.pairLookup then Sent(r.outbox, Other(r.ix.pairLookup[ws], ws), Relayed(frame)) else r.outbox)
    && h' == if ws in r.ix.pairLookup then h.(sent := h.sent[ws := SentBy(h, ws) + [frame]]) else h
  }

  /** Every other event leaves indices, ownership and history alone; it may answer the
      socket with a refusal and ask it to close. */
  ghost predicate Unmoved(w: World, ev: Event, w': World) {
    var r, r' := w.r, w'.r;
    && r'.ix == r.ix && r'.rows == r.rows && w'.h == w.h
    && r.closeAsked <= r'.closeAsked
    && (if ev.Message? || ev.Pong? then r'.states == r.states[ev.ws := StateOf(r, ev.ws)] && r'.tracked == r.tracked + {ev.ws}
        else r'.states == r.states && r'.tracked == r.tracked)
    && (r'.outbox == r.outbox
        || (ev.Message? && !StateOf(r, ev.ws).paired && exists m :: m != ClientConnected && r'.outbox == Sent(r.outbox, ev.ws, Own(m))))
    && (r'.log == r.log || exists u, f :: r'.log == r.log + [ClientConnectError(u, f)])
  }

  lemma RegistrationStep(r: Relay, ev: Event, c: K.Config)
    requires Registers(r, ev)
    ensures var u, ws, r' := ev.parsed.username, ev.ws, Step(r, ev, c);
      && r'.ix == AfterRegistration(r.ix, ws, u, ev.parsed.installId, ev.parsed.metadata, ev.stamp)
      && r'.rows == AfterRegister(r.rows, u, ev.parsed.installId, ev.stamp)
      && r'.states == r.states[ws := ConnectionState(Some(u), Some(true), false)]
      && r'.tracked == r.tracked + {ws}
      && r'.closeAsked == r.closeAsked + (if u in r.ix.waiting then {r.ix.waiting[u]} else {})
      && r'.outbox == Sent(r.outbox, ws, Own(ServerRegistered))
      && r'.log == r.log + [ServerRegisterEvent(u, ev.parsed.installId, ev.parsed.metadata)]
  {
    var u, ws := ev.parsed.username, ev.ws;
    assert Step(r, ev, c) == OnServerRegister(Seen(r, ws), ws, u, ev.parsed.installId, ev.parsed.metadata, ev.stamp, c);
  }

  lemma RegistrationEffect(w: World, ev: Event, c: K.Config)
    requires Registers(w.r, ev) && ev.ws !in w.r.ix.pairLookup
    ensures Registered(w, ev.ws, ev.parsed.username, ev.parsed.installId, ev.parsed.metadata, ev.stamp, WStep(w, ev, c))
  {
    RegistrationStep(w.r, ev, c);
    assert WStep(w, ev, c).h.pairOf == w.h.pairOf;
  }

  lemma ConnectionEffect(w: World, ev: Event, c: K.Config)
    requires Connects(w.r, ev) && !WaitsIn(w.r.ix.waiting, ev.ws)
    requires ev.ws !in w.r.ix.pairLookup && w.r.ix.waiting[ev.parsed.username] !in w.r.ix.pairLookup
    ensures Connected(w, ev.ws, ev.parsed.username, ev.stamp, WStep(w, ev, c))
  {
    var u, ws, s := ev.parsed.username, ev.ws, w.r.ix.waiting[ev.parsed.username];
    var seen := Seen(w.r, ws);
    var r' := OnClientConnect(seen, ws, u, ev.stamp);
    assert Step(w.r, ev, c) == r';
    assert r'.ix == AfterPairing(w.r.ix, ws, u);
    assert s != ws;
    NewPairRemembered(w.h.pairOf, w.r.ix.pairLookup, s, ws);
    assert StateOf(seen, s) == StateOf(w.r, s);
    assert r'.states == w.r.states[ws := ConnectionState(Some(u), Some(false), true)][s := StateOf(w.r, s).(paired := true)];
  }

  lemma NewPairRemembered(pairOf: map<Socket, Pair>, look: map<Socket, Pair>, s: Socket, ws: Socket)
    requires s !in look && ws !in look
    ensures var look' := look[s := Pair(s, ws)][ws := Pair(s, ws)];
      pairOf + (map x | x in look' && x !in look :: look'[x]) == pairOf[s := Pair(s, ws)][ws := Pair(s, ws)]
  {
  }

  lemma CloseEffect(w: World, ev: Event, c: K.Config)
    requires ev.Close?
    ensures Closed(w, ev.ws, ev.code, ev.reason, WStep(w, ev, c))
  {
    assert WStep(w, ev, c).h.pairOf == w.h.pairOf;
  }

  lemma ForwardEffect(w: World, ev: Event, c: K.Config)
    requires ev.Message? && StateOf(w.r, ev.ws).paired
    ensures Forwarded(w, ev.ws, ev.frame, WStep(w, ev, c))
  {
    assert WStep(w, ev, c).h.pairOf == w.h.pairOf;
  }

  lemma UnmovedEffect(w: World, ev: Event, c: K.Config)
    requires !Registers(w.r, ev) && !Connects(w.r, ev) && !ev.Close?
    requires ev.Message? ==> !StateOf(w.r, ev.ws).paired && ev.ws !in w.r.ix.pairLookup
    ensures Unmoved(w, ev, WStep(w, ev, c))
  {
    assert WStep(w, ev, c).h.pairOf == w.h.pairOf;
  }

  // ---- agreement ---------------------------------------------------------

  /** A socket the handlers do not take for paired is not in `pairLookup`. */
  lemma UnpairedNotLookedUp(w: World, ws: Socket)
    requires PairedFlagged(w.r.ix.pairLookup, w.r.states, w.r.tracked)
    ensures !StateOf(w.r, ws).paired ==> ws !in w.r.ix.pairLookup
  {
  }

  /** The four indices agree. */
  ghost predicate Agreeing(w: World) {
    match w
    case World(r, _) => Agree(r.ix)
  }

  /** An event keeps the four indices in agreement exactly when it is legal. */
  lemma AgreementExact(w: World, ev: Event, c: K.Config)
    requires Inv(w) && Enabled(w, ev)
    ensures Agreeing(WStep(w, ev, c)) <==> Legal(w.r, ev)
  {
    AgreementExactly(w, ev, c);
  }

  lemma AgreementExactly(w: World, ev: Event, c: K.Config)
    requires Agree(w.r.ix) && PairedFlagged(w.r.ix.pairLookup, w.r.states, w.r.tracked)
    ensures Agree(WStep(w, ev, c).r.ix) <==> Legal(w.r, ev)
  {
    var r := w.r;
    if Registers(r, ev) {
      UnpairedNotLookedUp(w, ev.ws);
      RegistrationStep(r, ev, c);
      RegistrationKeepsAgreement(r.ix, ev.ws, ev.parsed.username, ev.parsed.installId, ev.parsed.metadata, ev.stamp);
    } else if Connects(r, ev) {
      UnpairedNotLookedUp(w, ev.ws);
      PairingKeepsAgreement(r.ix, ev.ws, ev.parsed.username);
      assert Step(r, ev, c).ix == AfterPairing(r.ix, ev.ws, ev.parsed.username);
    } else if ev.Close? {
      CloseEffect(w, ev, c);
      ClosingKeepsAgreement(r.ix, ev.ws, StateOf(r, ev.ws).username);
    } else {
      assert Step(r, ev, c).ix == r.ix;
    }
  }

  // ---- flags -------------------------------------------------------------

  /** What becomes of the servers that neither are paired nor wait: `gone` is the one socket
      that may stop waiting without being displaced. */
  lemma ServersStayExplained(r: Relay, h: History, r': Relay, h': History, gone: Socket)
    requires ServersExplained(r.ix.waiting, r.states, r.tracked, h.displaced, r.closeAsked)
    requires h.displaced <= h'.displaced <= r'.closeAsked
    requires forall x :: x in r'.tracked ==> x in r'.states
    requires forall x :: x in r'.tracked && r'.states[x].isServer == Some(true) && !r'.states[x].paired && x != gone ==>
      x in r.tracked && x in r.states && r.states[x] == r'.states[x]
    requires forall v :: v in r.ix.waiting && r.ix.waiting[v] != gone ==>
      WaitsIn(r'.ix.waiting, r.ix.waiting[v]) || r.ix.waiting[v] in h'.displaced
    requires gone in r'.tracked && r'.states[gone].isServer == Some(true) && !r'.states[gone].paired ==>
      WaitsIn(r'.ix.waiting, gone) || gone in h'.displaced
    ensures ServersExplained(r'.ix.waiting, r'.states, r'.tracked, h'.displaced, r'.closeAsked)
  {
  }

  ghost predicate ServersAccounted(r: Relay, h: History) {
    match h
    case History(_, _, _, displaced, _) =>
      ServersExplained(r.ix.waiting, r.states, r.tracked, displaced, r.closeAsked)
  }

  lemma ServersAfterRegistration(w: World, ws: Socket, u: string, installId: string, metadata: Metadata,
                                 stamp: string, w': World)
    requires FlagsAgree(w.r, w.h) && Registered(w, ws, u, installId, metadata, stamp, w')
    ensures ServersAccounted(w'.r, w'.h)
  {
    var waiting, waiting' := w.r.ix.waiting, w'.r.ix.waiting;
    assert waiting' == waiting[u := ws];
    forall v | v in waiting && waiting[v] != ws ensures WaitsIn(waiting', waiting[v]) || waiting[v] in w'.h.displaced {
      if v != u { assert waiting'[v] == waiting[v]; }
    }
    assert waiting'[u] == ws;
    ServersStayExplained(w.r, w.h, w'.r, w'.h, ws);
  }

  lemma FlagsKeptByRegistration(w: World, ws: Socket, u: string, installId: string, metadata: Metadata,
                                stamp: string, w': World)
    requires FlagsAgree(w.r, w.h) && WaitingAgrees(w.r.ix) && ws !in w.h.closed && IsValidUsername(u)
    requires ws !in w.r.ix.pairLookup
    requires forall v :: v in w.r.ix.waiting && w.r.ix.waiting[v] == ws ==> v == u
    requires Registered(w, ws, u, installId, metadata, stamp, w')
    ensures FlagsAgree(w'.r, w'.h)
  {
    ServersAfterRegistration(w, ws, u, installId, metadata, stamp, w');
    FlagsAfterRegistering(w.r, w'.r, w.h.closed, ws, u);
  }

  lemma FlagsAfterRegistering(r: Relay, r': Relay, closed: set<Socket>, ws: Socket, u: string)
    requires TrackedOpen(r.states, r.tracked, closed) && PairedFlagged(r.ix.pairLookup, r.states, r.tracked)
    requires WidowsAsked(r.ix.pairLookup, r.states, r.tracked, r.closeAsked)
    requires WaitersFlagged(r.ix.waiting, r.states, r.tracked) && IsValidUsername(u)
    requires ws !in closed && ws !in r.ix.pairLookup
    requires forall v :: v in r.ix.waiting && r.ix.waiting[v] == ws ==> v == u
    requires r'.ix.waiting == r.ix.waiting[u := ws] && r'.ix.pairLookup == r.ix.pairLookup
    requires r'.states == r.states[ws := ConnectionState(Some(u), Some(true), false)]
    requires r'.tracked == r.tracked + {ws} && r.closeAsked <= r'.closeAsked
    ensures TrackedOpen(r'.states, r'.tracked, closed) && PairedFlagged(r'.ix.pairLookup, r'.states, r'.tracked)
    ensures WidowsAsked(r'.ix.pairLookup, r'.states, r'.tracked, r'.closeAsked)
    ensures WaitersFlagged(r'.ix.waiting, r'.states, r'.tracked)
  {
  }

  lemma ServersAfterPairing(w: World, ws: Socket, u: string, stamp: string, w': World)
    requires FlagsAgree(w.r, w.h) && WaitingAgrees(w.r.ix) && !WaitsIn(w.r.ix.waiting, ws)
    requires u in w.r.ix.waiting && Connected(w, ws, u, stamp, w')
    ensures ServersAccounted(w'.r, w'.h)
  {
    var waiting, waiting' := w.r.ix.waiting, w'.r.ix.waiting;
    assert waiting' == waiting - {u};
    forall v | v in waiting && waiting[v] != waiting[u] ensures WaitsIn(waiting', waiting[v]) {
      assert waiting'[v] == waiting[v];
    }
    ServersStayExplained(w.r, w.h, w'.r, w'.h, waiting[u]);
  }

  lemma FlagsKeptByPairing(w: World, ws: Socket, u: string, stamp: string, w': World)
    requires FlagsAgree(w.r, w.h) && WaitingAgrees(w.r.ix) && ws !in w.h.closed
    requires ws !in w.r.ix.pairLookup && !WaitsIn(w.r.ix.waiting, ws)
    requires u in w.r.ix.waiting && Connected(w, ws, u, stamp, w')
    ensures FlagsAgree(w'.r, w'.h)
  {
    ServersAfterPairing(w, ws, u, stamp, w');
    FlagsAfterPairing(w.r, w'.r, w.h.closed, ws, u);
  }

  lemma FlagsAfterPairing(r: Relay, r': Relay, closed: set<Socket>, ws: Socket, u: string)
    requires TrackedOpen(r.states, r.tracked, closed) && PairedFlagged(r.ix.pairLookup, r.states, r.tracked)
    requires WidowsAsked(r.ix.pairLookup, r.states, r.tracked, r.closeAsked)
    requires WaitersFlagged(r.ix.waiting, r.states, r.tracked) && WaitingAgrees(r.ix)
    requires ws !in closed && !WaitsIn(r.ix.waiting, ws) && u in r.ix.waiting
    requires r'.ix.waiting == r.ix.waiting - {u}
    requires var s := r.ix.waiting[u];
      && r'.ix.pairLookup == r.ix.pairLookup[s := Pair(s, ws)][ws := Pair(s, ws)]
      && r'.states == r.states[ws := ConnectionState(Some(u), Some(false), true)][s := StateOf(r, s).(paired := true)]
      && r'.tracked == r.tracked + {ws, s}
    requires r.closeAsked <= r'.closeAsked
    ensures TrackedOpen(r'.states, r'.tracked, closed) && PairedFlagged(r'.ix.pairLookup, r'.states, r'.tracked)
    ensures WidowsAsked(r'.ix.pairLookup, r'.states, r'.tracked, r'.closeAsked)
    ensures WaitersFlagged(r'.ix.waiting, r'.states, r'.tracked)
  {
  }

  lemma ServersAfterClose(w: World, ws: Socket, code: int, reason: string, w': World)
    requires FlagsAgree(w.r, w.h) && WaitingAgrees(w.r.ix) && Closed(w, ws, code, reason, w')
    ensures ServersAccounted(w'.r, w'.h)
  {
    WaiterLeaves(w, ws);
    var waiting, waiting' := w.r.ix.waiting, w'.r.ix.waiting;
    forall v | v in waiting && waiting[v] != ws ensures WaitsIn(waiting', waiting[v]) {
      assert waiting'[v] == waiting[v];
    }
    ServersStayExplained(w.r, w.h, w'.r, w'.h, ws);
  }

  lemma FlagsKeptByClose(w: World, ws: Socket, code: int, reason: string, w': World)
    requires FlagsAgree(w.r, w.h) && Agree(w.r.ix) && ws !in w.h.closed
    requires Closed(w, ws, code, reason, w')
    ensures FlagsAgree(w'.r, w'.h)
  {
    ServersAfterClose(w, ws, code, reason, w');
    WaiterLeaves(w, ws);
    PairLeaves(w.r.ix, ws, StateOf(w.r, ws).username);
    FlagsAfterLeaving(w.r, w'.r, ws);
  }

  lemma FlagsAfterLeaving(r: Relay, r': Relay, ws: Socket)
    requires PairedFlagged(r.ix.pairLookup, r.states, r.tracked) && WaitersFlagged(r.ix.waiting, r.states, r.tracked)
    requires WidowsAsked(r.ix.pairLookup, r.states, r.tracked, r.closeAsked)
    requires r'.states == r.states[ws := StateOf(r, ws)] && r'.tracked == r.tracked - {ws} && r.closeAsked <= r'.closeAsked
    requires forall x :: x in r'.ix.pairLookup ==> x in r.ix.pairLookup && x != ws
    requires forall x :: x in r.ix.pairLookup && x !in r'.ix.pairLookup ==> x == ws || x in r'.closeAsked
    requires forall v :: v in r'.ix.waiting ==> v in r.ix.waiting && r'.ix.waiting[v] == r.ix.waiting[v] != ws
    ensures PairedFlagged(r'.ix.pairLookup, r'.states, r'.tracked) && WaitersFlagged(r'.ix.waiting, r'.states, r'.tracked)
    ensures WidowsAsked(r'.ix.pairLookup, r'.states, r'.tracked, r'.closeAsked)
  {
  }

  lemma WaiterLeaves(w: World, ws: Socket)
    requires WaitersFlagged(w.r.ix.waiting, w.r.states, w.r.tracked) && WaitingAgrees(w.r.ix)
    ensures var waiting, waiting' := w.r.ix.waiting, AfterClose(w.r.ix, ws, StateOf(w.r, ws).username).waiting;
      && (forall v :: v in waiting' ==> v in waiting && waiting'[v] == waiting[v] != ws)
      && (forall v :: v in waiting && waiting[v] != ws ==> v in waiting')
  {
  }

  /** A socket leaves `pairLookup` by its own close or, asked to close, by that of its peer. */
  lemma PairLeaves(ix: Indices, ws: Socket, username: Option<string>)
    requires Agree(ix)
    ensures var look' := AfterClose(ix, ws, username).pairLookup;
      && (forall x :: x in look' ==> x in ix.pairLookup && x != ws)
      && (forall x :: x in ix.pairLookup && x !in look' ==> x == ws || x in Bereaved(ix, ws, username))
  {
    ClosingKeepsAgreement(ix, ws, username);
  }

  /** Looking up the state of an open socket, and asking sockets to close, disturbs nothing. */
  lemma FlagsKeptBySeeing(r: Relay, h: History, ws: Socket, r': Relay)
    requires FlagsAgree(r, h) && ws !in h.closed
    requires r'.ix == r.ix && r.closeAsked <= r'.closeAsked
    requires r'.states == r.states[ws := StateOf(r, ws)] && r'.tracked == r.tracked + {ws}
    ensures FlagsAgree(r', h)
  {
  }

  lemma FlagsKept(w: World, ev: Event, c: K.Config)
    requires FlagsAgree(w.r, w.h) && Agree(w.r.ix) && Enabled(w, ev) && Legal(w.r, ev)
    ensures FlagsAgree(WStep(w, ev, c).r, WStep(w, ev, c).h)
  {
    var w' := WStep(w, ev, c);
    if ev.Message? { UnpairedNotLookedUp(w, ev.ws); }
    if Registers(w.r, ev) {
      RegistrationEffect(w, ev, c);
      FlagsKeptByRegistration(w, ev.ws, ev.parsed.username, ev.parsed.installId, ev.parsed.metadata, ev.stamp, w');
    } else if Connects(w.r, ev) {
      ConnectionEffect(w, ev, c);
      FlagsKeptByPairing(w, ev.ws, ev.parsed.username, ev.stamp, w');
    } else if ev.Close? {
      CloseEffect(w, ev, c);
      FlagsKeptByClose(w, ev.ws, ev.code, ev.reason, w');
    } else if ev.Message? && StateOf(w.r, ev.ws).paired {
      ForwardEffect(w, ev, c);
      FlagsKeptBySeeing(w.r, w.h, ev.ws, w'.r);
    } else {
      UnmovedEffect(w, ev, c);
      if ev.Message? || ev.Pong? { FlagsKeptBySeeing(w.r, w.h, ev.ws, w'.r); }
    }
  }

  // ---- ownership ---------------------------------------------------------

  lemma OwnedAfterRegistration(ix: Indices, rows: Table, ws: Socket, u: string, installId: string,
                               metadata: Metadata, stamp: string)
    requires Owned(ix.active, rows) && MayRegister(rows, u, installId)
    ensures Owned(AfterRegistration(ix, ws, u, installId, metadata, stamp).active, AfterRegister(rows, u, installId, stamp))
    ensures OwnersKept(rows, AfterRegister(rows, u, installId, stamp))
  {
  }

  lemma OwnedAfterPairing(ix: Indices, rows: Table, ws: Socket, u: string, stamp: string)
    requires Owned(ix.active, rows) && u in ix.waiting
    ensures Owned(AfterPairing(ix, ws, u).active, AfterSeen(rows, u, stamp))
    ensures OwnersKept(rows, AfterSeen(rows, u, stamp))
  {
  }

  lemma OwnershipKept(w: World, ev: Event, c: K.Config)
    requires Owned(w.r.ix.active, w.r.rows) && PairedFlagged(w.r.ix.pairLookup, w.r.states, w.r.tracked)
    requires Agree(w.r.ix) && Legal(w.r, ev)
    ensures Owned(WStep(w, ev, c).r.ix.active, WStep(w, ev, c).r.rows)
    ensures OwnersKept(w.r.rows, WStep(w, ev, c).r.rows)
  {
    if ev.Message? { UnpairedNotLookedUp(w, ev.ws); }
    if Registers(w.r, ev) {
      RegistrationEffect(w, ev, c);
      OwnedAfterRegistration(w.r.ix, w.r.rows, ev.ws, ev.parsed.username, ev.parsed.installId, ev.parsed.metadata, ev.stamp);
    } else if Connects(w.r, ev) {
      ConnectionEffect(w, ev, c);
      OwnedAfterPairing(w.r.ix, w.r.rows, ev.ws, ev.parsed.username, ev.stamp);
    } else if ev.Close? {
      CloseEffect(w, ev, c);
    } else if ev.Message? && StateOf(w.r, ev.ws).paired {
      ForwardEffect(w, ev, c);
    } else {
      UnmovedEffect(w, ev, c);
    }
  }

  // ---- delivery ----------------------------------------------------------

  lemma DeliveredMore(out: seq<Outgoing>, frames: seq<Frame>, client: bool, f: Frame)
    requires Delivered(out, frames, client)
    ensures Delivered(out + [Relayed(f)], frames + [f], client)
  {
    var out', frames' := out + [Relayed(f)], frames + [f];
    var k := |out| - |frames|;
    assert out'[k..] == out[k..] + [Relayed(f)] == Forwards(frames');
    assert out'[..k] == out[..k];
    if client { assert out'[..k - 1] == out[..k - 1]; }
  }

  lemma PartnersPaired(look: map<Socket, Pair>, pairOf: map<Socket, Pair>, s: Socket, ws: Socket)
    requires Partners(look, pairOf) && s != ws && s !in pairOf && ws !in pairOf
    ensures Partners(look[s := Pair(s, ws)][ws := Pair(s, ws)], pairOf[s := Pair(s, ws)][ws := Pair(s, ws)])
  {
  }

  lemma DeliveredFirst(out: seq<Outgoing>)
    requires Greeting(out)
    ensures Delivered(out, [], false) && Delivered(out + [Own(ClientConnected)], [], true)
  {
    assert Forwards([]) == [];
    assert out[..|out|] == out;
    assert (out + [Own(ClientConnected)])[..|out|] == out;
  }

  lemma OutboxesPaired(outbox: map<Socket, seq<Outgoing>>, sent: map<Socket, seq<Frame>>, pairOf: map<Socket, Pair>,
                       s: Socket, ws: Socket)
    requires OutboxesMatch(outbox, sent, pairOf) && Partners(map[], pairOf) && s != ws && s !in pairOf && ws !in pairOf
    ensures OutboxesMatch(Sent(outbox, ws, Own(ClientConnected)), sent, pairOf[s := Pair(s, ws)][ws := Pair(s, ws)])
  {
    var outbox', pairOf' := Sent(outbox, ws, Own(ClientConnected)), pairOf[s := Pair(s, ws)][ws := Pair(s, ws)];
    forall x ensures OutboxMatches(Outbox(outbox', x), sent, pairOf', x) {
      assert OutboxMatches(Outbox(outbox, x), sent, pairOf, x);
      if x == s || x == ws {
        assert OutboxMatches(Outbox(outbox, s), sent, pairOf, s) && OutboxMatches(Outbox(outbox, ws), sent, pairOf, ws);
        DeliveredFirst(Outbox(outbox, x));
        SentOutbox(outbox, ws, Own(ClientConnected), x);
      } else {
        SentOutbox(outbox, ws, Own(ClientConnected), x);
      }
    }
  }

  lemma SentOutbox(outbox: map<Socket, seq<Outgoing>>, ws: Socket, o: Outgoing, x: Socket)
    ensures Outbox(Sent(outbox, ws, o), x) == Outbox(outbox, x) + if x == ws then [o] else []
  {
  }

  lemma OutboxesForwarded(outbox: map<Socket, seq<Outgoing>>, sent: map<Socket, seq<Frame>>,
                          pairOf: map<Socket, Pair>, ws: Socket, f: Frame)
    requires OutboxesMatch(outbox, sent, pairOf) && Partners(map[], pairOf) && ws in pairOf
    ensures OutboxesMatch(Sent(outbox, Other(pairOf[ws], ws), Relayed(f)), sent[ws := FramesOf(sent, ws) + [f]], pairOf)
  {
    var t := Other(pairOf[ws], ws);
    var outbox', sent' := Sent(outbox, t, Relayed(f)), sent[ws := FramesOf(sent, ws) + [f]];
    assert t in pairOf && pairOf[t] == pairOf[ws] && t != ws && Other(pairOf[t], t) == ws;
    forall x ensures OutboxMatches(Outbox(outbox', x), sent', pairOf, x) {
      assert OutboxMatches(Outbox(outbox, x), sent, pairOf, x);
      if x == t {
        DeliveredMore(Outbox(outbox, t), FramesOf(sent, ws), t == pairOf[t].client, f);
        SentOutbox(outbox, t, Relayed(f), t);
      } else {
        SentOutbox(outbox, t, Relayed(f), x);
        PeerDiffers(pairOf, ws, x);
        StillMatches(Outbox(outbox, x), sent, pairOf, x, ws, FramesOf(sent', ws));
      }
    }
  }

  /** More frames from `ws` do not concern a socket that is not its peer. */
  lemma StillMatches(out: seq<Outgoing>, sent: map<Socket, seq<Frame>>, pairOf: map<Socket, Pair>, x: Socket,
                     ws: Socket, frames: seq<Frame>)
    requires OutboxMatches(out, sent, pairOf, x)
    requires x in pairOf ==> Other(pairOf[x], x) != ws
    requires x !in pairOf ==> x != ws
    ensures OutboxMatches(out + [], sent[ws := frames], pairOf, x)
  {
    assert out + [] == out;
  }

  lemma PeerDiffers(pairOf: map<Socket, Pair>, ws: Socket, x: Socket)
    requires Partners(map[], pairOf) && ws in pairOf && x != Other(pairOf[ws], ws)
    ensures x in pairOf ==> Other(pairOf[x], x) != ws
    ensures x !in pairOf ==> x != ws
  {
  }

  lemma AnsweredMatches(out: seq<Outgoing>, sent: map<Socket, seq<Frame>>, pairOf: map<Socket, Pair>, x: Socket,
                        ws: Socket, m: Control)
    requires OutboxMatches(out, sent, pairOf, x) && ws !in pairOf && m != ClientConnected
    ensures OutboxMatches(out + if x == ws then [Own(m)] else [], sent, pairOf, x)
  {
    if x != ws { assert out + [] == out; }
  }

  lemma OutboxesAnswered(outbox: map<Socket, seq<Outgoing>>, sent: map<Socket, seq<Frame>>,
                         pairOf: map<Socket, Pair>, ws: Socket, m: Control)
    requires OutboxesMatch(outbox, sent, pairOf) && ws !in pairOf && m != ClientConnected
    ensures OutboxesMatch(Sent(outbox, ws, Own(m)), sent, pairOf)
  {
    forall x ensures OutboxMatches(Outbox(Sent(outbox, ws, Own(m)), x), sent, pairOf, x) {
      assert OutboxMatches(Outbox(outbox, x), sent, pairOf, x);
      SentOutbox(outbox, ws, Own(m), x);
      AnsweredMatches(Outbox(outbox, x), sent, pairOf, x, ws, m);
    }
  }

  lemma DeliveryKept(w: World, ev: Event, c: K.Config)
    requires DeliveryHolds(w.r, w.h) && FlagsAgree(w.r, w.h) && Agree(w.r.ix) && Enabled(w, ev) && Legal(w.r, ev)
    ensures DeliveryHolds(WStep(w, ev, c).r, WStep(w, ev, c).h)
  {
    var w' := WStep(w, ev, c);
    if ev.Message? { UnpairedNotLookedUp(w, ev.ws); }
    if Registers(w.r, ev) {
      RegistrationEffect(w, ev, c);
      DeliveryKeptByRegistration(w, ev.ws, ev.parsed.username, ev.parsed.installId, ev.parsed.metadata, ev.stamp, w');
    } else if Connects(w.r, ev) {
      ConnectionEffect(w, ev, c);
      DeliveryKeptByPairing(w, ev.ws, ev.parsed.username, ev.stamp, w');
    } else if ev.Close? {
      CloseEffect(w, ev, c);
      DeliveryKeptByClose(w, ev.ws, ev.code, ev.reason, w');
    } else if ev.Message? && StateOf(w.r, ev.ws).paired {
      ForwardEffect(w, ev, c);
      DeliveryKeptByForward(w, ev.ws, ev.frame, w');
    } else {
      UnmovedEffect(w, ev, c);
      DeliveryKeptOtherwise(w, ev, w');
    }
  }

  lemma DeliveryKeptByRegistration(w: World, ws: Socket, u: string, installId: string, metadata: Metadata,
                                   stamp: string, w': World)
    requires DeliveryHolds(w.r, w.h) && ws !in w.h.closed && !StateOf(w.r, ws).paired
    requires TrackedOpen(w.r.states, w.r.tracked, w.h.closed)
    requires Registered(w, ws, u, installId, metadata, stamp, w')
    ensures DeliveryHolds(w'.r, w'.h)
  {
    assert ws !in w.h.pairOf;
    OutboxesAnswered(w.r.outbox, w.h.sent, w.h.pairOf, ws, ServerRegistered);
  }

  lemma DeliveryKeptByPairing(w: World, ws: Socket, u: string, stamp: string, w': World)
    requires DeliveryHolds(w.r, w.h) && ws !in w.h.closed
    requires TrackedOpen(w.r.states, w.r.tracked, w.h.closed) && WaitersFlagged(w.r.ix.waiting, w.r.states, w.r.tracked)
    requires !StateOf(w.r, ws).paired && !WaitsIn(w.r.ix.waiting, ws)
    requires u in w.r.ix.waiting && Connected(w, ws, u, stamp, w')
    ensures DeliveryHolds(w'.r, w'.h)
  {
    var s := w.r.ix.waiting[u];
    assert s != ws && s !in w.h.pairOf && ws !in w.h.pairOf;
    PartnersPaired(w.r.ix.pairLookup, w.h.pairOf, s, ws);
    OutboxesPaired(w.r.outbox, w.h.sent, w.h.pairOf, s, ws);
  }

  lemma DeliveryKeptByClose(w: World, ws: Socket, code: int, reason: string, w': World)
    requires DeliveryHolds(w.r, w.h) && Closed(w, ws, code, reason, w')
    ensures DeliveryHolds(w'.r, w'.h)
  {
  }

  lemma DeliveryKeptByForward(w: World, ws: Socket, frame: Frame, w': World)
    requires DeliveryHolds(w.r, w.h) && TrackedOpen(w.r.states, w.r.tracked, w.h.closed)
    requires StateOf(w.r, ws).paired && Forwarded(w, ws, frame, w')
    ensures DeliveryHolds(w'.r, w'.h)
  {
    if ws in w.r.ix.pairLookup { OutboxesForwarded(w.r.outbox, w.h.sent, w.h.pairOf, ws, frame); }
  }

  lemma DeliveryKeptOtherwise(w: World, ev: Event, w': World)
    requires DeliveryHolds(w.r, w.h) && TrackedOpen(w.r.states, w.r.tracked, w.h.closed)
    requires ev.Message? || ev.Pong? ==> ev.ws !in w.h.closed
    requires Unmoved(w, ev, w')
    ensures DeliveryHolds(w'.r, w'.h)
  {
    var r, h := w.r, w.h;
    if w'.r.outbox != r.outbox {
      var m :| m != ClientConnected && w'.r.outbox == Sent(r.outbox, ev.ws, Own(m));
      assert ev.ws !in h.pairOf;
      OutboxesAnswered(r.outbox, h.sent, h.pairOf, ev.ws, m);
    }
  }

  // ---- conservation ------------------------------------------------------

  lemma CountAppend(log: seq<LogEvent>, e: LogEvent, k: Kind)
    ensures Count(log + [e], k) == Count(log, k) + if IsKind(e, k) then 1 else 0
  {
    assert (log + [e])[..|log|] == log;
  }

  lemma CountsAppend(log: seq<LogEvent>, e: LogEvent)
    ensures forall k :: Count(log + [e], k) == Count(log, k) + if IsKind(e, k) then 1 else 0
  {
    forall k { CountAppend(log, e, k); }
  }

  lemma LogKept(w: World, ev: Event, c: K.Config)
    requires LogBalances(w.r.log, |w.r.ix.waiting|, |w.r.ix.pairs|, w.h.replacements)
    requires FlagsAgree(w.r, w.h) && Agree(w.r.ix) && Legal(w.r, ev)
    ensures var w' := WStep(w, ev, c); LogBalances(w'.r.log, |w'.r.ix.waiting|, |w'.r.ix.pairs|, w'.h.replacements)
  {
    var r, w' := w.r, WStep(w, ev, c);
    if ev.Message? { UnpairedNotLookedUp(w, ev.ws); }
    if Registers(r, ev) {
      RegistrationEffect(w, ev, c);
      LogKeptByRegistration(w, ev.ws, ev.parsed.username, ev.parsed.installId, ev.parsed.metadata, ev.stamp, w');
    } else if Connects(r, ev) {
      ConnectionEffect(w, ev, c);
      LogKeptByPairing(w, ev.ws, ev.parsed.username, ev.stamp, w');
    } else if ev.Close? {
      CloseEffect(w, ev, c);
      LogKeptByClose(w, ev.ws, ev.code, ev.reason, w');
    } else if ev.Message? && StateOf(r, ev.ws).paired {
      ForwardEffect(w, ev, c);
    } else {
      UnmovedEffect(w, ev, c);
      LogKeptOtherwise(w, ev, w');
    }
  }

  lemma LogKeptOtherwise(w: World, ev: Event, w': World)
    requires LogBalances(w.r.log, |w.r.ix.waiting|, |w.r.ix.pairs|, w.h.replacements)
    requires Unmoved(w, ev, w')
    ensures LogBalances(w'.r.log, |w'.r.ix.waiting|, |w'.r.ix.pairs|, w'.h.replacements)
  {
    if w'.r.log != w.r.log {
      var u, f :| w'.r.log == w.r.log + [ClientConnectError(u, f)];
      CountsAppend(w.r.log, ClientConnectError(u, f));
    }
  }

  lemma LogKeptByRegistration(w: World, ws: Socket, u: string, installId: string, metadata: Metadata,
                              stamp: string, w': World)
    requires LogBalances(w.r.log, |w.r.ix.waiting|, |w.r.ix.pairs|, w.h.replacements)
    requires Registered(w, ws, u, installId, metadata, stamp, w')
    ensures LogBalances(w'.r.log, |w'.r.ix.waiting|, |w'.r.ix.pairs|, w'.h.replacements)
  {
    CountsAppend(w.r.log, ServerRegisterEvent(u, installId, metadata));
    MapUpdateSize(w.r.ix.waiting, u, ws);
  }

  lemma LogKeptByPairing(w: World, ws: Socket, u: string, stamp: string, w': World)
    requires LogBalances(w.r.log, |w.r.ix.waiting|, |w.r.ix.pairs|, w.h.replacements)
    requires PairsAgree(w.r.ix) && ws !in w.r.ix.pairLookup
    requires u in w.r.ix.waiting && Connected(w, ws, u, stamp, w')
    ensures LogBalances(w'.r.log, |w'.r.ix.waiting|, |w'.r.ix.pairs|, w'.h.replacements)
  {
    CountsAppend(w.r.log, w'.r.log[|w.r.log|]);
    MapRemoveSize(w.r.ix.waiting, u);
    assert Pair(w.r.ix.waiting[u], ws) !in w.r.ix.pairs;
  }

  lemma LogKeptByClose(w: World, ws: Socket, code: int, reason: string, w': World)
    requires LogBalances(w.r.log, |w.r.ix.waiting|, |w.r.ix.pairs|, w.h.replacements)
    requires PairedFlagged(w.r.ix.pairLookup, w.r.states, w.r.tracked)
    requires Agree(w.r.ix) && Closed(w, ws, code, reason, w')
    ensures LogBalances(w'.r.log, |w'.r.ix.waiting|, |w'.r.ix.pairs|, w'.h.replacements)
  {
    var username := StateOf(w.r, ws).username;
    if WaitsUnder(w.r.ix, ws, username) { LogKeptByWaiterClose(w, ws, code, reason, w'); }
    else if ws in w.r.ix.pairLookup { LogKeptByPairEnd(w, ws, code, reason, w'); }
    else { assert w'.r.log == w.r.log; }
  }

  lemma LogKeptByWaiterClose(w: World, ws: Socket, code: int, reason: string, w': World)
    requires LogBalances(w.r.log, |w.r.ix.waiting|, |w.r.ix.pairs|, w.h.replacements)
    requires ActiveAgrees(w.r.ix) && Closed(w, ws, code, reason, w')
    requires WaitsUnder(w.r.ix, ws, StateOf(w.r, ws).username)
    ensures LogBalances(w'.r.log, |w'.r.ix.waiting|, |w'.r.ix.pairs|, w'.h.replacements)
  {
    var u := StateOf(w.r, ws).username.value;
    assert ws in w.r.ix.active;
    MapRemoveSize(w.r.ix.waiting, u);
    CountsAppend(w.r.log, ServerDisconnectEvent(u, w.r.ix.active[ws].installId, Waiting, code, reason));
  }

  lemma LogKeptByPairEnd(w: World, ws: Socket, code: int, reason: string, w': World)
    requires LogBalances(w.r.log, |w.r.ix.waiting|, |w.r.ix.pairs|, w.h.replacements)
    requires PairedFlagged(w.r.ix.pairLookup, w.r.states, w.r.tracked)
    requires PairsAgree(w.r.ix) && Closed(w, ws, code, reason, w')
    requires !WaitsUnder(w.r.ix, ws, StateOf(w.r, ws).username) && ws in w.r.ix.pairLookup
    ensures LogBalances(w'.r.log, |w'.r.ix.waiting|, |w'.r.ix.pairs|, w'.h.replacements)
  {
    var r := w.r;
    var username := StateOf(r, ws).username;
    var records := CloseRecords(CloseOutcome(r.ix, ws, username), username, code, reason);
    var p := r.ix.pairLookup[ws];
    assert p in r.ix.pairs && |r.ix.pairs - {p}| == |r.ix.pairs| - 1;
    assert |records| > 0 && records[0].PairDisconnectedEvent?;
    PairEndCounted(r.log, records);
  }

  /** A pair's end is one `pair_disconnected`, perhaps followed by the paired server's own record. */
  lemma PairEndCounted(log: seq<LogEvent>, records: seq<LogEvent>)
    requires 1 <= |records| <= 2 && records[0].PairDisconnectedEvent?
    requires |records| == 2 ==> records[1].ServerDisconnectEvent? && records[1].connectionState == Paired
    ensures forall k :: Count(log + records, k) == Count(log, k) + if k == PairEnds then 1 else 0
  {
    CountsAppend(log, records[0]);
    if |records| == 2 {
      assert log + records == (log + [records[0]]) + [records[1]];
      CountsAppend(log + [records[0]], records[1]);
    } else {
      assert log + records == log + [records[0]];
    }
  }

  lemma MapUpdateSize<A, B>(m: map<A, B>, k: A, v: B)
    ensures |m[k := v]| == if k in m then |m| else |m| + 1
  {
    assert m[k := v].Keys == m.Keys + {k};
    assert |m| == |m.Keys| && |m[k := v]| == |m[k := v].Keys|;
  }

  lemma MapRemoveSize<A, B>(m: map<A, B>, k: A)
    requires k in m
    ensures |m - {k}| == |m| - 1
  {
    assert (m - {k}).Keys == m.Keys - {k};
    assert |m| == |m.Keys| && |m - {k}| == |(m - {k}).Keys|;
  }

  // ---- runs --------------------------------------------------------------

  lemma StepKeepsInv(w: World, ev: Event, c: K.Config)
    requires Inv(w) && Enabled(w, ev) && Legal(w.r, ev)
    ensures Inv(WStep(w, ev, c))
  {
    AgreementExact(w, ev, c);
    FlagsKept(w, ev, c);
    OwnershipKept(w, ev, c);
    DeliveryKept(w, ev, c);
    LogKept(w, ev, c);
  }

  /** Every invariant holds in every state of every legal run. */
  lemma {:induction false} InvAlways(rows: Table, evs: seq<Event>, c: K.Config)
    requires LegalRun(Start(rows), evs, c)
    ensures Inv(Run(Start(rows), evs, c))
  {
    if evs != [] {
      InvAlways(rows, evs[..|evs| - 1], c);
      StepKeepsInv(Run(Start(rows), evs[..|evs| - 1], c), evs[|evs| - 1], c);
    }
  }
}

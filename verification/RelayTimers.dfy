/** The relay's timers over whole runs: every socket's keepalive is the machine of `Keepalive`. */
module RelayTimers {
  import opened Prelude
  import opened Registry
  import opened Connections
  import opened WsHandler
  import opened RelayRuns
  import opened RelayResults
  import K = Keepalive

  // ---- second handshakes -------------------------------------------------

  /** A named socket that is not paired is a server. */
  ghost predicate NamedAreServers(states: States, tracked: set<Socket>) {
    forall ws :: ws in tracked && ws in states && states[ws].username.Some? && !states[ws].paired ==>
      states[ws].isServer == Some(true)
  }

  ghost predicate NamesKnown(w: World) {
    match w
    case World(r, _) => NamedAreServers(r.states, r.tracked)
  }

  /** What pairing does to timers and flags. */
  lemma PairingStates(r: Relay, ev: Event, c: K.Config)
    requires Connects(r, ev) && r.ix.waiting[ev.parsed.username] != ev.ws
    ensures var r', s := Step(r, ev, c), r.ix.waiting[ev.parsed.username];
      && r'.now == r.now && r.closeAsked <= r'.closeAsked
      && r'.timers == r.timers[s := K.Stopped(TimersOf(r.timers, s))]
      && r'.tracked == r.tracked + {ev.ws, s}
      && r'.states == r.states[ev.ws := ConnectionState(Some(ev.parsed.username), Some(false), true)]
                              [s := StateOf(r, s).(paired := true)]
  {
    var u, ws, s := ev.parsed.username, ev.ws, r.ix.waiting[ev.parsed.username];
    assert Step(r, ev, c) == OnClientConnect(Seen(r, ws), ws, u, ev.stamp);
    assert StateOf(Seen(r, ws), s) == StateOf(r, s);
  }

  predicate NamedIsServer(s: ConnectionState) {
    s.username.Some? && !s.paired ==> s.isServer == Some(true)
  }

  lemma NamedSet(states: States, tracked: set<Socket>, ws: Socket, s: ConnectionState)
    requires NamedAreServers(states, tracked) && NamedIsServer(s)
    ensures NamedAreServers(states[ws := s], tracked + {ws}) && NamedAreServers(states[ws := s], tracked - {ws})
  {
  }

  lemma NamedState(r: Relay, ws: Socket)
    requires NamedAreServers(r.states, r.tracked)
    ensures NamedIsServer(StateOf(r, ws))
  {
  }

  lemma NamesAfterPairing(w: World, ev: Event, c: K.Config)
    requires NamesKnown(w) && Connects(w.r, ev) && w.r.ix.waiting[ev.parsed.username] != ev.ws
    ensures NamesKnown(WStep(w, ev, c))
  {
    var s := w.r.ix.waiting[ev.parsed.username];
    var client, server := ConnectionState(Some(ev.parsed.username), Some(false), true), StateOf(w.r, s).(paired := true);
    PairingStates(w.r, ev, c);
    NamedSet(w.r.states, w.r.tracked, ev.ws, client);
    NamedSet(w.r.states[ev.ws := client], w.r.tracked + {ev.ws}, s, server);
    assert w.r.tracked + {ev.ws} + {s} == w.r.tracked + {ev.ws, s};
  }

  lemma NamesAfterSeeing(w: World, ev: Event, w': World)
    requires !ev.Advance? && NamesKnown(w) && w'.r.states == w.r.states[ev.ws := StateOf(w.r, ev.ws)]
    requires w'.r.tracked == w.r.tracked + {ev.ws} || w'.r.tracked == w.r.tracked - {ev.ws}
    ensures NamesKnown(w')
  {
    NamedState(w.r, ev.ws);
    NamedSet(w.r.states, w.r.tracked, ev.ws, StateOf(w.r, ev.ws));
  }

  lemma NamesKnownNext(w: World, ev: Event, c: K.Config)
    requires Inv(w) && NamesKnown(w) && Enabled(w, ev) && Legal(w.r, ev)
    ensures NamesKnown(WStep(w, ev, c))
  {
    var w' := WStep(w, ev, c);
    if ev.Message? { UnpairedNotLookedUp(w, ev.ws); }
    if Registers(w.r, ev) {
      var server := ConnectionState(Some(ev.parsed.username), Some(true), false);
      RegistrationEffect(w, ev, c);
      NamedSet(w.r.states, w.r.tracked, ev.ws, server);
    } else if Connects(w.r, ev) {
      NamesAfterPairing(w, ev, c);
    } else if ev.Close? {
      CloseEffect(w, ev, c);
      NamesAfterSeeing(w, ev, w');
    } else if ev.Message? || ev.Pong? {
      SeenEffect(w.r, ev, c);
      NamesAfterSeeing(w, ev, w');
    } else {
      assert w'.r.states == w.r.states && w'.r.tracked == w.r.tracked;
    }
  }

  /** A message that is no accepted handshake, and a pong, only look the state up. */
  lemma SeenEffect(r: Relay, ev: Event, c: K.Config)
    requires (ev.Message? && !Registers(r, ev) && !Connects(r, ev)) || ev.Pong?
    ensures var r' := Step(r, ev, c);
      r'.states == r.states[ev.ws := StateOf(r, ev.ws)] && r'.tracked == r.tracked + {ev.ws} && r'.now == r.now
    ensures ev.Message? ==> Step(r, ev, c).timers == r.timers
  {
  }

  lemma {:induction false} NamesKnownAlways(rows: Table, evs: seq<Event>, c: K.Config)
    requires LegalRun(Start(rows), evs, c)
    ensures NamesKnown(Run(Start(rows), evs, c))
  {
    if evs != [] {
      NamesKnownAlways(rows, evs[..|evs| - 1], c);
      InvAlways(rows, evs[..|evs| - 1], c);
      NamesKnownNext(Run(Start(rows), evs[..|evs| - 1], c), evs[|evs| - 1], c);
    }
  }

  /** A named socket that is not paired waits, or was asked to close. */
  lemma NamedWaitsOrAsked(w: World, ws: Socket)
    requires Inv(w) && NamesKnown(w)
    ensures StateOf(w.r, ws).username.Some? && !StateOf(w.r, ws).paired ==>
      WaitsIn(w.r.ix.waiting, ws) || ws in w.r.closeAsked
  {
    FlagsOf(w, ws);
  }

  /** Requests to close are never taken back. */
  lemma AskedForGood(w: World, ev: Event, c: K.Config)
    ensures w.r.closeAsked <= WStep(w, ev, c).r.closeAsked
  {
  }

  /** The event is an accepted handshake of `ws`. */
  predicate Shakes(r: Relay, ev: Event, ws: Socket) {
    ev.Message? && ev.ws == ws && (Registers(r, ev) || Connects(r, ev))
  }

  lemma SecondHandshakeAsksIn(w: World, ev: Event, ws: Socket, c: K.Config)
    requires Inv(w) && NamesKnown(w) && Legal(w.r, ev) && Shakes(w.r, ev, ws) && StateOf(w.r, ws).username.Some?
    ensures ws in WStep(w, ev, c).r.closeAsked
  {
    NamedWaitsOrAsked(w, ws);
    AskedForGood(w, ev, c);
    UnpairedNotLookedUp(w, ws);
    if Registers(w.r, ev) { RegistrationEffect(w, ev, c); }
  }

  /** In every legal run a socket that makes a second accepted handshake has been asked to
      close once the handshake is done: it was replaced before, or replaces itself. */
  lemma SecondHandshakeAsksToClose(rows: Table, evs: seq<Event>, ev: Event, ws: Socket, c: K.Config)
    requires LegalRun(Start(rows), evs + [ev], c)
    ensures var w := Run(Start(rows), evs, c);
      Shakes(w.r, ev, ws) && StateOf(w.r, ws).username.Some? ==>
        ws in Run(Start(rows), evs + [ev], c).r.closeAsked
  {
    RunNext(Start(rows), evs, ev, c);
    LegalRunNext(Start(rows), evs, ev, c);
    InvAlways(rows, evs, c);
    NamesKnownAlways(rows, evs, c);
    var w := Run(Start(rows), evs, c);
    if Shakes(w.r, ev, ws) && StateOf(w.r, ws).username.Some? { SecondHandshakeAsksIn(w, ev, ws, c); }
  }

  lemma LegalRunNext(w: World, evs: seq<Event>, ev: Event, c: K.Config)
    ensures LegalRun(w, evs + [ev], c)
      <==> LegalRun(w, evs, c) && Enabled(Run(w, evs, c), ev) && Legal(Run(w, evs, c).r, ev)
  {
    assert (evs + [ev])[..|evs|] == evs;
  }

  /** Every accepted handshake of `ws` is its first. */
  ghost predicate ShakesOnce(w: World, evs: seq<Event>, ws: Socket, c: K.Config) {
    evs != [] ==>
      && ShakesOnce(w, evs[..|evs| - 1], ws, c)
      && FirstShake(Run(w, evs[..|evs| - 1], c).r, evs[|evs| - 1], ws)
  }

  predicate FirstShake(r: Relay, ev: Event, ws: Socket) {
    Shakes(r, ev, ws) ==> StateOf(r, ws).username.None?
  }

  /** A socket that was never asked to close made at most one accepted handshake. */
  lemma {:induction false} UnaskedShakesOnce(rows: Table, evs: seq<Event>, ws: Socket, c: K.Config)
    requires LegalRun(Start(rows), evs, c)
    ensures ws in Run(Start(rows), evs, c).r.closeAsked || ShakesOnce(Start(rows), evs, ws, c)
  {
    if evs != [] {
      var before, ev := evs[..|evs| - 1], evs[|evs| - 1];
      var w := Run(Start(rows), before, c);
      assert evs == before + [ev];
      UnaskedShakesOnce(rows, before, ws, c);
      AskedForGood(w, ev, c);
      SecondHandshakeAsksToClose(rows, before, ev, ws, c);
    }
  }

  // ---- one socket as its keepalive sees it -------------------------------

  function PhaseOf(w: World, ws: Socket): K.Phase {
    if ws in w.h.closed || StateOf(w.r, ws).paired then K.Done
    else if StateOf(w.r, ws).username.None? then K.Fresh
    else K.WaitingForClient
  }

  /** `k` is what the keepalive of `ws` looks like in `w`. */
  ghost predicate Watches(w: World, ws: Socket, k: K.Watch) {
    && k.now == w.r.now
    && k.timers == TimersOf(w.r.timers, ws)
    && k.paired == (ws in w.r.states && w.r.states[ws].paired)
    && k.phase == PhaseOf(w, ws)
    && (ws in w.r.states ==> ws in w.r.tracked || ws in w.h.closed)
    && (k.timedOut ==> ws in w.r.closeAsked)
  }

  /** The same event as the keepalive of `ws` sees it. */
  function HappeningOf(r: Relay, ev: Event, ws: Socket): K.Happening {
    if ev.Advance? then K.Advance(ev.to)
    else if Connects(r, ev) && ev.ws != ws && r.ix.waiting[ev.parsed.username] == ws then K.PairAsServer
    else if ev.ws != ws then K.Elsewhere
    else match ev
      case Message(_, _, _, _) =>
        if Registers(r, ev) then K.Register else if Connects(r, ev) then K.PairAsClient else K.Elsewhere
      case Close(_, _, _) => K.Close
      case Pong(_) => K.Pong
      case IntervalFires(_, id) => K.IntervalFires(id)
      case TimeoutFires(_, id) => K.TimeoutFires(id)
  }

  /** The step of the relay is a step of the keepalive of `ws`. */
  ghost predicate Follows(w: World, ev: Event, ws: Socket, k: K.Watch, c: K.Config) {
    match w
    case World(r, _) =>
      var h := HappeningOf(r, ev, ws);
      && Watches(WStep(w, ev, c), ws, K.Next(k, h, c)) && K.Punctual(k, h)
      && (FirstShake(r, ev, ws) ==> K.OneHandshake(k, h))
  }

  lemma WatchStep(w: World, ev: Event, ws: Socket, k: K.Watch, c: K.Config)
    requires Inv(w) && Enabled(w, ev) && Legal(w.r, ev) && Watches(w, ws, k)
    ensures Follows(w, ev, ws, k, c)
  {
    AskedForGood(w, ev, c);
    if Registers(w.r, ev) { WatchRegistration(w, ev, ws, k, c); }
    else if Connects(w.r, ev) { WatchPairing(w, ev, ws, k, c); }
    else if ev.Message? { WatchMessage(w, ev, ws, k, c); }
    else if ev.Close? || ev.Pong? { WatchSocketEvent(w, ev, ws, k, c); }
    else { WatchTimer(w, ev, ws, k, c); }
  }

  lemma WatchRegistration(w: World, ev: Event, ws: Socket, k: K.Watch, c: K.Config)
    requires Registers(w.r, ev) && ev.ws !in w.h.closed && Watches(w, ws, k)
    ensures Follows(w, ev, ws, k, c)
  {
  }

  lemma WatchPairing(w: World, ev: Event, ws: Socket, k: K.Watch, c: K.Config)
    requires Connects(w.r, ev) && ev.ws !in w.h.closed && Watches(w, ws, k) && !WaitsIn(w.r.ix.waiting, ev.ws)
    requires TrackedOpen(w.r.states, w.r.tracked, w.h.closed) && WaitersFlagged(w.r.ix.waiting, w.r.states, w.r.tracked)
    ensures Follows(w, ev, ws, k, c)
  {
    var s := w.r.ix.waiting[ev.parsed.username];
    assert s != ev.ws && s in w.r.tracked;
    if ws == s { WatchPairedServer(w, ev, k, c); }
    else if ws == ev.ws { WatchPairedClient(w, ev, k, c); }
    else { WatchBystander(w, ev, ws, k, c); }
  }

  lemma WatchPairedClient(w: World, ev: Event, k: K.Watch, c: K.Config)
    requires Connects(w.r, ev) && ev.ws !in w.h.closed && w.r.ix.waiting[ev.parsed.username] != ev.ws
    requires Watches(w, ev.ws, k)
    ensures Follows(w, ev, ev.ws, k, c)
  {
    PairingStates(w.r, ev, c);
  }

  lemma WatchBystander(w: World, ev: Event, ws: Socket, k: K.Watch, c: K.Config)
    requires Connects(w.r, ev) && ws != ev.ws && ws != w.r.ix.waiting[ev.parsed.username]
    requires w.r.ix.waiting[ev.parsed.username] != ev.ws && Watches(w, ws, k)
    ensures Follows(w, ev, ws, k, c)
  {
    PairingStates(w.r, ev, c);
  }

  lemma WatchPairedServer(w: World, ev: Event, k: K.Watch, c: K.Config)
    requires Connects(w.r, ev) && ev.ws !in w.h.closed
    requires var s := w.r.ix.waiting[ev.parsed.username];
      s != ev.ws && s in w.r.tracked && s !in w.h.closed && Watches(w, s, k)
      && s in w.r.states && w.r.states[s] == ConnectionState(Some(ev.parsed.username), Some(true), false)
    ensures Follows(w, ev, w.r.ix.waiting[ev.parsed.username], k, c)
  {
    PairingStates(w.r, ev, c);
  }

  lemma WatchMessage(w: World, ev: Event, ws: Socket, k: K.Watch, c: K.Config)
    requires ev.Message? && !Registers(w.r, ev) && !Connects(w.r, ev) && Enabled(w, ev) && Watches(w, ws, k)
    requires TrackedOpen(w.r.states, w.r.tracked, w.h.closed)
    ensures Follows(w, ev, ws, k, c)
  {
    SeenEffect(w.r, ev, c);
  }

  lemma WatchSocketEvent(w: World, ev: Event, ws: Socket, k: K.Watch, c: K.Config)
    requires (ev.Close? || ev.Pong?) && Enabled(w, ev) && Watches(w, ws, k)
    requires TrackedOpen(w.r.states, w.r.tracked, w.h.closed)
    ensures Follows(w, ev, ws, k, c)
  {
    if ev.Close? { WatchClose(w, ev, ws, k, c); } else { WatchPong(w, ev, ws, k, c); }
  }

  lemma WatchClose(w: World, ev: Event, ws: Socket, k: K.Watch, c: K.Config)
    requires ev.Close? && Enabled(w, ev) && Watches(w, ws, k)
    requires TrackedOpen(w.r.states, w.r.tracked, w.h.closed)
    ensures Follows(w, ev, ws, k, c)
  {
    CloseEffect(w, ev, c);
    var r' := Step(w.r, ev, c);
    assert r'.timers == w.r.timers[ev.ws := K.Stopped(TimersOf(w.r.timers, ev.ws))];
  }

  lemma WatchPong(w: World, ev: Event, ws: Socket, k: K.Watch, c: K.Config)
    requires ev.Pong? && Enabled(w, ev) && Watches(w, ws, k)
    requires TrackedOpen(w.r.states, w.r.tracked, w.h.closed)
    ensures Follows(w, ev, ws, k, c)
  {
    var r' := Step(w.r, ev, c);
    assert r'.states == w.r.states[ev.ws := StateOf(w.r, ev.ws)];
  }

  lemma WatchTimer(w: World, ev: Event, ws: Socket, k: K.Watch, c: K.Config)
    requires (ev.IntervalFires? || ev.TimeoutFires? || ev.Advance?) && Enabled(w, ev) && Watches(w, ws, k)
    ensures Follows(w, ev, ws, k, c)
  {
    var r' := Step(w.r, ev, c);
    assert r'.states == w.r.states && r'.tracked == w.r.tracked;
  }

  function Trace(rows: Table, evs: seq<Event>, ws: Socket, c: K.Config): seq<K.Happening> {
    if evs == [] then []
    else
      var before := evs[..|evs| - 1];
      Trace(rows, before, ws, c) + [HappeningOf(Run(Start(rows), before, c).r, evs[|evs| - 1], ws)]
  }

  /** Seen from any one socket, a legal run of the relay is a run of the keepalive. */
  ghost predicate Refines(rows: Table, evs: seq<Event>, ws: Socket, c: K.Config, w: World) {
    match w
    case World(r, h) =>
      && Watches(World(r, h), ws, K.Play(K.FRESH, Trace(rows, evs, ws, c), c))
      && (ShakesOnce(Start(rows), evs, ws, c) ==> K.Possible(K.FRESH, Trace(rows, evs, ws, c), c, K.OneHandshake))
  }

  lemma RefinesNext(rows: Table, evs: seq<Event>, ev: Event, ws: Socket, c: K.Config, w: World)
    requires w == Run(Start(rows), evs, c) && Refines(rows, evs, ws, c, w)
    requires Follows(w, ev, ws, K.Play(K.FRESH, Trace(rows, evs, ws, c), c), c)
    ensures Refines(rows, evs + [ev], ws, c, WStep(w, ev, c))
  {
    var hs, h := Trace(rows, evs, ws, c), HappeningOf(w.r, ev, ws);
    assert (evs + [ev])[..|evs|] == evs;
    assert Trace(rows, evs + [ev], ws, c) == hs + [h];
    K.PlayStep(K.FRESH, hs, h, c);
  }

  lemma {:induction false} RelayRefinesKeepalive(rows: Table, evs: seq<Event>, ws: Socket, c: K.Config)
    requires LegalRun(Start(rows), evs, c)
    ensures Refines(rows, evs, ws, c, Run(Start(rows), evs, c))
  {
    if evs != [] {
      var before, ev := evs[..|evs| - 1], evs[|evs| - 1];
      var w := Run(Start(rows), before, c);
      assert evs == before + [ev];
      RelayRefinesKeepalive(rows, before, ws, c);
      InvAlways(rows, before, c);
      WatchStep(w, ev, ws, K.Play(K.FRESH, Trace(rows, before, ws, c), c), c);
      RefinesNext(rows, before, ev, ws, c, w);
    }
  }

  // ---- what the timers can do --------------------------------------------

  /** At most one pong timeout, and no timer once paired or closed. */
  ghost predicate TimersFew(w: World, ws: Socket) {
    match w
    case World(r, h) =>
      var k := TimersOf(r.timers, ws);
      && |k.timeouts| <= 1
      && (ws in r.ix.pairLookup || StateOf(r, ws).paired || ws in h.closed ==> k.intervals == map[] && k.timeouts == map[])
  }

  lemma WatchedTimersFew(w: World, ws: Socket, k: K.Watch, c: K.Config)
    requires Inv(w) && Watches(w, ws, k) && K.TimersInOrder(k, c)
    ensures TimersFew(w, ws)
  {
    FlagsOf(w, ws);
  }

  /** A socket with at most one accepted handshake never has two pong timeouts, and has no
      timer at all once it is paired or closed, whatever the other sockets do. */
  lemma TimersBounded(rows: Table, evs: seq<Event>, ws: Socket, c: K.Config)
    requires K.Sound(c) && LegalRun(Start(rows), evs, c) && ShakesOnce(Start(rows), evs, ws, c)
    ensures TimersFew(Run(Start(rows), evs, c), ws)
  {
    var hs := Trace(rows, evs, ws, c);
    RelayRefinesKeepalive(rows, evs, ws, c);
    K.TimersInOrderAlways(hs, c);
    InvAlways(rows, evs, c);
    WatchedTimersFew(Run(Start(rows), evs, c), ws, K.Play(K.FRESH, hs, c), c);
  }

  /** So has every socket that was never asked to close, in every legal run: the keepalive is
      never the first to ask a paired socket to close. */
  lemma UnaskedTimersBounded(rows: Table, evs: seq<Event>, ws: Socket, c: K.Config)
    requires K.Sound(c) && LegalRun(Start(rows), evs, c)
    ensures ws in Run(Start(rows), evs, c).r.closeAsked || TimersFew(Run(Start(rows), evs, c), ws)
  {
    UnaskedShakesOnce(rows, evs, ws, c);
    if ShakesOnce(Start(rows), evs, ws, c) { TimersBounded(rows, evs, ws, c); }
  }

  /** A run in which every accepted handshake is its socket's first. */
  ghost predicate StrictRun(w: World, evs: seq<Event>, c: K.Config) {
    evs != [] ==>
      && StrictRun(w, evs[..|evs| - 1], c)
      && Enabled(Run(w, evs[..|evs| - 1], c), evs[|evs| - 1])
      && FirstHandshake(Run(w, evs[..|evs| - 1], c).r, evs[|evs| - 1])
  }

  /** Such a run is legal, and every socket in it makes at most one accepted handshake. */
  lemma {:induction false} StrictIsLegal(rows: Table, evs: seq<Event>, ws: Socket, c: K.Config)
    requires StrictRun(Start(rows), evs, c)
    ensures LegalRun(Start(rows), evs, c) && ShakesOnce(Start(rows), evs, ws, c)
  {
    if evs != [] {
      StrictIsLegal(rows, evs[..|evs| - 1], ws, c);
      InvAlways(rows, evs[..|evs| - 1], c);
      FirstHandshakeIsLegal(Run(Start(rows), evs[..|evs| - 1], c), evs[|evs| - 1]);
    }
  }

  /** A server that answers each of its pings in time never sees a pong timeout come due,
      whatever the other sockets do. */
  lemma AnsweringServerKept(rows: Table, evs: seq<Event>, ws: Socket, id: nat, c: K.Config)
    requires 0 < c.pongTimeoutMs <= c.pingIntervalMs && LegalRun(Start(rows), evs, c)
    requires K.Possible(K.FRESH, Trace(rows, evs, ws, c), c, K.Answering(c))
    ensures !Enabled(Run(Start(rows), evs, c), TimeoutFires(ws, id))
  {
    RelayRefinesKeepalive(rows, evs, ws, c);
    K.AnsweringServerNeverTimesOut(Trace(rows, evs, ws, c), c);
  }

  // ---- a server that is silent -------------------------------------------

  /** After the first `n` events nothing arrives from `ws`, and it is neither paired nor closed. */
  ghost predicate QuietFrom(rows: Table, evs: seq<Event>, n: nat, ws: Socket, c: K.Config)
    requires n <= |evs|
  {
    forall i :: n <= i < |evs| ==> K.Silent(HappeningOf(At(rows, evs, i, c).r, evs[i], ws))
  }

  /** The close request is made, or its deadline is still ahead. */
  ghost predicate AskedOrAhead(w: World, ws: Socket, since: int, c: K.Config) {
    match w
    case World(r, _) =>
      ws in r.closeAsked
      || exists k :: Watches(w, ws, k) && K.DeadlineAhead(k, since, c) && Timely(k, since, c)
  }

  predicate Timely(k: K.Watch, since: int, c: K.Config) {
    k.timedOut || k.now <= since + c.pingIntervalMs + c.pongTimeoutMs
  }

  lemma DeadlineKept(w: World, ev: Event, ws: Socket, since: int, c: K.Config)
    requires K.Sound(c) && Inv(w) && Enabled(w, ev) && Legal(w.r, ev) && K.Silent(HappeningOf(w.r, ev, ws))
    requires AskedOrAhead(w, ws, since, c)
    ensures AskedOrAhead(WStep(w, ev, c), ws, since, c)
  {
    AskedForGood(w, ev, c);
    if ws !in w.r.closeAsked {
      var k :| Watches(w, ws, k) && K.DeadlineAhead(k, since, c) && Timely(k, since, c);
      var h := HappeningOf(w.r, ev, ws);
      WatchStep(w, ev, ws, k, c);
      K.SilentStep(k, h, since, c);
      assert Timely(K.Next(k, h, c), since, c);
    }
  }

  lemma {:induction false} DeadlineAlways(rows: Table, evs: seq<Event>, n: nat, ws: Socket, c: K.Config)
    requires K.Sound(c) && LegalRun(Start(rows), evs, c) && n <= |evs|
    requires PhaseOf(At(rows, evs, n, c), ws) == K.WaitingForClient && QuietFrom(rows, evs, n, ws, c)
    ensures AskedOrAhead(Run(Start(rows), evs, c), ws, At(rows, evs, n, c).r.now, c)
    decreases |evs|
  {
    if n == |evs| {
      assert evs[..n] == evs;
      SilenceBegins(rows, evs, ws, c);
    } else {
      var before, ev := evs[..|evs| - 1], evs[|evs| - 1];
      assert forall i :: 0 <= i < |evs| ==> before[..i] == evs[..i];
      DeadlineAlways(rows, before, n, ws, c);
      InvAlways(rows, before, c);
      DeadlineKept(Run(Start(rows), before, c), ev, ws, At(rows, evs, n, c).r.now, c);
    }
  }

  lemma SilenceBegins(rows: Table, evs: seq<Event>, ws: Socket, c: K.Config)
    requires K.Sound(c) && LegalRun(Start(rows), evs, c)
    requires PhaseOf(Run(Start(rows), evs, c), ws) == K.WaitingForClient
    ensures AskedOrAhead(Run(Start(rows), evs, c), ws, Run(Start(rows), evs, c).r.now, c)
  {
    var w, hs := Run(Start(rows), evs, c), Trace(rows, evs, ws, c);
    var k := K.Play(K.FRESH, hs, c);
    UnaskedShakesOnce(rows, evs, ws, c);
    RelayRefinesKeepalive(rows, evs, ws, c);
    if ws !in w.r.closeAsked {
      K.TimersInOrderAlways(hs, c);
      assert K.DeadlineAhead(k, w.r.now, c) && Timely(k, w.r.now, c);
    }
  }

  /** `ws` is asked to close, or time has not passed `deadline`. */
  predicate AskedBy(w: World, ws: Socket, deadline: int) {
    match w
    case World(r, _) => ws in r.closeAsked || r.now <= deadline
  }

  lemma DeadlineMet(w: World, ws: Socket, since: int, c: K.Config)
    requires AskedOrAhead(w, ws, since, c)
    ensures AskedBy(w, ws, since + c.pingIntervalMs + c.pongTimeoutMs)
  {
  }

  /** A server that waits after `n` events and is silent from then on is asked to close at most
      one ping interval and one pong timeout later, unless it is paired or closed first. */
  lemma SilentServerAsked(rows: Table, evs: seq<Event>, n: nat, ws: Socket, c: K.Config)
    requires K.Sound(c) && LegalRun(Start(rows), evs, c) && n <= |evs|
    requires PhaseOf(At(rows, evs, n, c), ws) == K.WaitingForClient && QuietFrom(rows, evs, n, ws, c)
    ensures AskedBy(Run(Start(rows), evs, c), ws, At(rows, evs, n, c).r.now + c.pingIntervalMs + c.pongTimeoutMs)
  {
    DeadlineAlways(rows, evs, n, ws, c);
    DeadlineMet(Run(Start(rows), evs, c), ws, At(rows, evs, n, c).r.now, c);
  }

  // ---- a timer that outlives the pairing ---------------------------------

  ghost predicate Goes(evs: seq<Event>, c: K.Config, w: World) {
    LegalRun(Start(map[]), evs, c) && Run(Start(map[]), evs, c) == w
  }

  lemma GoesNext(evs: seq<Event>, ev: Event, c: K.Config, w: World)
    requires Goes(evs, c, w) && Enabled(w, ev) && Legal(w.r, ev)
    ensures Goes(evs + [ev], c, WStep(w, ev, c))
  {
    RunNext(Start(map[]), evs, ev, c);
    LegalRunNext(Start(map[]), evs, ev, c);
  }

  /** Socket 1 waits as alice, alone, with the timers `k`. */
  ghost predicate Alone(w: World, k: K.Timers) {
    match w
    case World(r, h) =>
      && r.ix.waiting == map["alice" := 1] && r.ix.pairLookup == map[] && h.closed == {}
      && "alice" in r.rows && r.rows["alice"].installId == "home"
      && r.tracked == {1} && r.states == map[1 := ConnectionState(Some("alice"), Some(true), false)]
      && r.timers == map[1 := k]
  }

  function Alice(text: Frame, stamp: string): Event {
    Message(1, text, ServerRegister("alice", "home", NO_METADATA), stamp)
  }

  lemma AliceRegisters(c: K.Config, text: Frame, stamp: string)
    requires !text.binary
    ensures var w := Start(map[]); var ev := Alice(text, stamp);
      && Enabled(w, ev) && Legal(w.r, ev)
      && Alone(WStep(w, ev, c), K.Started(K.NO_TIMERS, 0, c)) && WStep(w, ev, c).r.now == 0
  {
    assert IsValidUsername("alice");
  }

  lemma AliceRegistersAgain(w: World, k: K.Timers, c: K.Config, text: Frame, stamp: string)
    requires Alone(w, k) && !text.binary
    ensures var ev := Alice(text, stamp);
      && Enabled(w, ev) && Legal(w.r, ev)
      && Alone(WStep(w, ev, c), K.Started(k, w.r.now, c)) && WStep(w, ev, c).r.now == w.r.now
      && 1 in WStep(w, ev, c).r.closeAsked
  {
    assert IsValidUsername("alice");
    assert w.r.ix.waiting["alice"] == 1;
  }

  lemma AliceTicks(w: World, k: K.Timers, id: nat, c: K.Config)
    requires Alone(w, k) && id in k.intervals && k.intervals[id] <= w.r.now
    ensures var ev := IntervalFires(1, id);
      && Enabled(w, ev) && Legal(w.r, ev)
      && Alone(WStep(w, ev, c), K.Ticked(k, id, false, w.r.now, c)) && WStep(w, ev, c).r.now == w.r.now
  {
  }

  lemma TimePasses(w: World, k: K.Timers, to: int, c: K.Config)
    requires w.r.timers == map[1 := k] && w.r.now <= to && K.NothingOverdue(k, to)
    ensures Enabled(w, Advance(to)) && Legal(w.r, Advance(to))
    ensures Alone(w, k) ==> Alone(WStep(w, Advance(to), c), k)
    ensures WStep(w, Advance(to), c).r == w.r.(now := to)
  {
  }

  lemma AlicePaired(w: World, k: K.Timers, c: K.Config, text: Frame, stamp: string)
    requires Alone(w, k) && !text.binary
    ensures var ev := Message(2, text, ClientConnect("alice"), stamp);
      var r' := WStep(w, ev, c).r;
      && Enabled(w, ev) && Legal(w.r, ev)
      && 1 in r'.ix.pairLookup && r'.timers == map[1 := K.Stopped(k)]
      && r'.now == w.r.now && w.r.closeAsked <= r'.closeAsked
  {
    assert w.r.ix.waiting["alice"] == 1;
  }

  /** The timers of a socket that registered twice, after both intervals fired. */
  function TwiceTicked(c: K.Config): K.Timers {
    var k := K.Started(K.Started(K.NO_TIMERS, 0, c), 0, c);
    K.Ticked(K.Ticked(k, 0, false, c.pingIntervalMs, c), 1, false, c.pingIntervalMs, c)
  }

  lemma TwiceTickedTimers(c: K.Config)
    requires K.Sound(c)
    ensures var p, t := c.pingIntervalMs, c.pongTimeoutMs;
      && TwiceTicked(c) == K.Timers(Some(1), Some(3), map[0 := 2 * p, 1 := 2 * p], map[2 := p + t, 3 := p + t], 4)
      && K.Stopped(TwiceTicked(c)) == K.Timers(None, None, map[0 := 2 * p], map[2 := p + t], 4)
  {
  }

  lemma AliceTicksTwice(c: K.Config, text: Frame, stamp: string) returns (evs: seq<Event>, w: World)
    requires K.Sound(c) && !text.binary
    ensures Goes(evs, c, w) && Alone(w, TwiceTicked(c)) && w.r.now == c.pingIntervalMs && 1 in w.r.closeAsked
  {
    var p := c.pingIntervalMs;
    w := Start(map[]);
    AliceRegisters(c, text, stamp);
    GoesNext([], Alice(text, stamp), c, w);
    w := WStep(w, Alice(text, stamp), c);
    evs := [] + [Alice(text, stamp)];
    var k := K.Started(K.NO_TIMERS, 0, c);
    AliceRegistersAgain(w, k, c, text, stamp);
    GoesNext(evs, Alice(text, stamp), c, w);
    w, k := WStep(w, Alice(text, stamp), c), K.Started(k, 0, c);
    evs := evs + [Alice(text, stamp)];
    evs, w := AliceTicksOn(evs, w, k, c);
  }

  lemma AliceTicksOn(evs: seq<Event>, w: World, k: K.Timers, c: K.Config) returns (more: seq<Event>, v: World)
    requires K.Sound(c) && Goes(evs, c, w) && Alone(w, k) && w.r.now == 0 && 1 in w.r.closeAsked
    requires k == K.Started(K.Started(K.NO_TIMERS, 0, c), 0, c)
    ensures Goes(more, c, v) && Alone(v, TwiceTicked(c)) && v.r.now == c.pingIntervalMs && 1 in v.r.closeAsked
  {
    var p := c.pingIntervalMs;
    TimePasses(w, k, p, c);
    GoesNext(evs, Advance(p), c, w);
    var w1 := WStep(w, Advance(p), c);
    AliceTicks(w1, k, 0, c);
    AskedForGood(w1, IntervalFires(1, 0), c);
    GoesNext(evs + [Advance(p)], IntervalFires(1, 0), c, w1);
    var w2, k2 := WStep(w1, IntervalFires(1, 0), c), K.Ticked(k, 0, false, p, c);
    AliceTicks(w2, k2, 1, c);
    AskedForGood(w2, IntervalFires(1, 1), c);
    GoesNext(evs + [Advance(p)] + [IntervalFires(1, 0)], IntervalFires(1, 1), c, w2);
    more := evs + [Advance(p)] + [IntervalFires(1, 0)] + [IntervalFires(1, 1)];
    v := WStep(w2, IntervalFires(1, 1), c);
  }

  /** A legal run in which a waiting server registers its name again, is asked to close for it,
      is paired nevertheless, and then sees a pong timeout come due that nothing could clear. */
  lemma LeakedTimerFiresOnPaired(c: K.Config, text: Frame, stamp: string) returns (evs: seq<Event>)
    requires K.Sound(c) && !text.binary
    ensures LegalRun(Start(map[]), evs, c)
    ensures var w := Run(Start(map[]), evs, c);
      1 in w.r.ix.pairLookup && 1 in w.r.closeAsked && Enabled(w, TimeoutFires(1, 2))
  {
    var before, w := AliceTicksTwice(c, text, stamp);
    var ev, to := Message(2, text, ClientConnect("alice"), stamp), c.pingIntervalMs + c.pongTimeoutMs;
    TwiceTickedTimers(c);
    AlicePaired(w, TwiceTicked(c), c, text, stamp);
    GoesNext(before, ev, c, w);
    var w1 := WStep(w, ev, c);
    TimePasses(w1, K.Stopped(TwiceTicked(c)), to, c);
    GoesNext(before + [ev], Advance(to), c, w1);
    evs := before + [ev] + [Advance(to)];
  }
}

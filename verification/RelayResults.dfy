/** What the relay guarantees over every run, stated for callers of the model. */
module RelayResults {
  import opened Prelude
  import opened Registry
  import opened Connections
  import opened WsHandler
  import opened RelayRuns
  import K = Keepalive

  function At(rows: Table, evs: seq<Event>, i: nat, c: K.Config): World
    requires i <= |evs|
  {
    Run(Start(rows), evs[..i], c)
  }

  lemma {:induction false} PrefixLegal(rows: Table, evs: seq<Event>, i: nat, c: K.Config)
    requires i <= |evs| && LegalRun(Start(rows), evs, c)
    ensures LegalRun(Start(rows), evs[..i], c)
    decreases |evs|
  {
    if i == |evs| {
      assert evs[..i] == evs;
    } else {
      PrefixLegal(rows, evs[..|evs| - 1], i, c);
      assert evs[..|evs| - 1][..i] == evs[..i];
    }
  }

  /** The indices agree, and so do the counters. */
  ghost predicate IndicesSound(w: World) {
    match w
    case World(r, _) =>
      && Agree(r.ix) && |r.ix.active| == |r.ix.waiting| + |r.ix.pairs|
      && |r.ix.pairLookup| == 2 * |r.ix.pairs|
  }

  lemma SoundIn(w: World)
    requires Inv(w)
    ensures IndicesSound(w)
  {
    CountersAgree(w.r.ix);
  }

  /** In every reachable state the four indices agree, and so do the counters. */
  lemma IndicesAgree(rows: Table, evs: seq<Event>, c: K.Config)
    requires LegalRun(Start(rows), evs, c)
    ensures IndicesSound(Run(Start(rows), evs, c))
  {
    InvAlways(rows, evs, c);
    SoundIn(Run(Start(rows), evs, c));
  }

  /** If the environment allows `ev` in `w`, the indices agree after it exactly when it is legal. */
  ghost predicate LegalityDecides(w: World, ev: Event, after: World) {
    match w
    case World(r, _) => Enabled(w, ev) ==> (Agreeing(after) <==> Legal(r, ev))
  }

  lemma LegalityDecidesIn(w: World, ev: Event, c: K.Config)
    requires Inv(w)
    ensures LegalityDecides(w, ev, WStep(w, ev, c))
  {
    if Enabled(w, ev) { AgreementExact(w, ev, c); }
  }

  /** Agreement is lost at the first event, in any run, that the hypothesis forbids, and at
      no other: the hypothesis is exact. */
  lemma AgreementLostExactlyWhen(rows: Table, evs: seq<Event>, ev: Event, c: K.Config)
    requires LegalRun(Start(rows), evs, c)
    ensures LegalityDecides(Run(Start(rows), evs, c), ev, Run(Start(rows), evs + [ev], c))
  {
    RunNext(Start(rows), evs, ev, c);
    InvAlways(rows, evs, c);
    LegalityDecidesIn(Run(Start(rows), evs, c), ev, c);
  }

  lemma RunNext(w: World, evs: seq<Event>, ev: Event, c: K.Config)
    ensures Run(w, evs + [ev], c) == WStep(Run(w, evs, c), ev, c)
  {
    assert (evs + [ev])[..|evs|] == evs;
  }

  const NO_METADATA := Metadata(None, None, None, None)

  /** A waiting server that registers a second name is accepted, and from then on the
      indices disagree: nothing in the handlers prevents it. */
  lemma SecondNameBreaksAgreement(c: K.Config, text: Frame, stamp: string)
    requires !text.binary
    ensures var first := Message(1, text, ServerRegister("alice", "home", NO_METADATA), stamp);
      var second := Message(1, text, ServerRegister("alice2", "home", NO_METADATA), stamp);
      && LegalRun(Start(map[]), [first], c) && Enabled(Run(Start(map[]), [first], c), second)
      && !Agreeing(Run(Start(map[]), [first] + [second], c))
  {
    var first := Message(1, text, ServerRegister("alice", "home", NO_METADATA), stamp);
    var second := Message(1, text, ServerRegister("alice2", "home", NO_METADATA), stamp);
    var w0 := Start(map[]);
    assert [first][..0] == [];
    assert Run(w0, [], c) == w0;
    assert LegalRun(w0, [], c);
    assert IsValidUsername("alice") && IsValidUsername("alice2");
    var w1 := Run(w0, [first], c);
    assert w1 == WStep(w0, first, c);
    assert w1.r.ix.waiting == map["alice" := 1];
    assert Registers(w1.r, second);
    AgreementLostExactlyWhen(map[], [first], second, c);
    assert w1.r.ix.waiting["alice"] == 1;
  }

  /** One accepted handshake per socket, the protocol's own rule, is enough. */
  lemma FirstHandshakeIsLegal(w: World, ev: Event)
    requires Inv(w) && FirstHandshake(w.r, ev)
    ensures Legal(w.r, ev)
  {
    FirstHandshakeLegal(w.r, ev);
  }

  lemma FirstHandshakeLegal(r: Relay, ev: Event)
    requires WaitersFlagged(r.ix.waiting, r.states, r.tracked) && FirstHandshake(r, ev)
    ensures Legal(r, ev)
  {
  }

  /** What the flags of `ws` say of the indices. */
  ghost predicate FlagsRefine(w: World, ws: Socket) {
    match w
    case World(r, h) =>
      var flags := StateOf(r, ws);
      && (ws in r.ix.pairLookup ==> flags.paired)
      && (flags.paired && ws !in r.ix.pairLookup ==> ws in r.closeAsked)
      && (WaitsIn(r.ix.waiting, ws) ==> flags.isServer == Some(true) && !flags.paired)
      && (flags.isServer == Some(true) && !flags.paired ==>
          WaitsIn(r.ix.waiting, ws) || (ws in h.displaced && ws in r.closeAsked))
      && (ws in h.closed ==> ws !in r.ix.pairLookup && !WaitsIn(r.ix.waiting, ws))
  }

  lemma FlagsOf(w: World, ws: Socket)
    requires Inv(w)
    ensures FlagsRefine(w, ws)
  {
    AgreeingFlagsRefine(w, ws);
  }

  lemma AgreeingFlagsRefine(w: World, ws: Socket)
    requires FlagsAgree(w.r, w.h)
    ensures FlagsRefine(w, ws)
  {
  }

  /** In every reachable state the flags refine the indices. */
  lemma FlagsRefineIndices(rows: Table, evs: seq<Event>, ws: Socket, c: K.Config)
    requires LegalRun(Start(rows), evs, c)
    ensures FlagsRefine(Run(Start(rows), evs, c), ws)
  {
    InvAlways(rows, evs, c);
    FlagsOf(Run(Start(rows), evs, c), ws);
  }

  /** Frames from a socket whose pair has ended are dropped without any effect. */
  lemma FramesAfterPairDropped(w: World, ev: Event, c: K.Config)
    requires ev.Message? && ev.ws in w.r.tracked && ev.ws in w.r.states
    requires w.r.states[ev.ws].paired && ev.ws !in w.r.ix.pairLookup
    ensures WStep(w, ev, c) == w
  {
    assert Step(w.r, ev, c).states == w.r.states;
    assert Step(w.r, ev, c).tracked == w.r.tracked;
    assert WStep(w, ev, c).h.pairOf == w.h.pairOf;
  }

  /** A socket that enters a pair never belonged to one before, and what `pairOf` remembers
      of a socket never changes. */
  lemma PairsAreForLife(w: World, ev: Event, c: K.Config)
    requires Inv(w) && Enabled(w, ev) && Legal(w.r, ev)
    ensures var w' := WStep(w, ev, c);
      && (forall ws :: ws in w'.r.ix.pairLookup && ws !in w.r.ix.pairLookup ==> ws !in w.h.pairOf)
      && (forall ws :: ws in w.h.pairOf ==> ws in w'.h.pairOf && w'.h.pairOf[ws] == w.h.pairOf[ws])
  {
    NewcomersUnpaired(w, ev, c);
    var look' := WStep(w, ev, c).r.ix.pairLookup;
    NewcomersOnly(w.h.pairOf, map ws | ws in look' && ws !in w.r.ix.pairLookup :: look'[ws]);
  }

  lemma NewcomersOnly(pairOf: map<Socket, Pair>, newcomers: map<Socket, Pair>)
    requires forall ws :: ws in newcomers ==> ws !in pairOf
    ensures forall ws :: ws in pairOf ==> ws in pairOf + newcomers && (pairOf + newcomers)[ws] == pairOf[ws]
  {
  }

  lemma NewcomersUnpaired(w: World, ev: Event, c: K.Config)
    requires Agree(w.r.ix) && FlagsAgree(w.r, w.h) && FlagsArePartners(w.r.states, w.r.tracked, w.h.closed, w.h.pairOf)
    requires Enabled(w, ev) && Legal(w.r, ev)
    ensures forall ws :: ws in WStep(w, ev, c).r.ix.pairLookup && ws !in w.r.ix.pairLookup ==> ws !in w.h.pairOf
  {
    if ev.Message? { UnpairedNotLookedUp(w, ev.ws); }
    if Registers(w.r, ev) { RegistrationEffect(w, ev, c); }
    else if Connects(w.r, ev) { ConnectionEffect(w, ev, c); }
    else if ev.Close? { CloseEffect(w, ev, c); }
    else if ev.Message? && StateOf(w.r, ev.ws).paired { ForwardEffect(w, ev, c); }
    else { UnmovedEffect(w, ev, c); }
  }

  lemma {:induction false} PairOfKept(rows: Table, evs: seq<Event>, i: nat, ws: Socket, c: K.Config)
    requires i <= |evs| && LegalRun(Start(rows), evs, c) && ws in At(rows, evs, i, c).h.pairOf
    ensures var h := Run(Start(rows), evs, c).h; ws in h.pairOf && h.pairOf[ws] == At(rows, evs, i, c).h.pairOf[ws]
    decreases |evs|
  {
    if i == |evs| {
      assert evs[..i] == evs;
    } else {
      var before := evs[..|evs| - 1];
      assert before[..i] == evs[..i];
      PairOfKept(rows, before, i, ws, c);
      InvAlways(rows, before, c);
      PairsAreForLife(Run(Start(rows), before, c), evs[|evs| - 1], c);
    }
  }

  /** A socket belongs to at most one pair in its lifetime: at any two moments of a run at
      which it is paired, it is in the same pair. */
  lemma OnePairPerSocket(rows: Table, evs: seq<Event>, i: nat, j: nat, ws: Socket, c: K.Config)
    requires i <= j <= |evs| && LegalRun(Start(rows), evs, c)
    ensures SamePairIn(At(rows, evs, i, c).r.ix, At(rows, evs, j, c).r.ix, ws)
  {
    if ws in At(rows, evs, i, c).r.ix.pairLookup && ws in At(rows, evs, j, c).r.ix.pairLookup {
      Remembered(rows, evs, i, ws, c);
      Remembered(rows, evs, j, ws, c);
      PrefixLegal(rows, evs, j, c);
      AtPrefix(rows, evs, i, j, c);
      PairOfKept(rows, evs[..j], i, ws, c);
    }
  }

  predicate SamePairIn(a: Indices, b: Indices, ws: Socket) {
    ws in a.pairLookup && ws in b.pairLookup ==> a.pairLookup[ws] == b.pairLookup[ws]
  }

  lemma AtPrefix(rows: Table, evs: seq<Event>, i: nat, j: nat, c: K.Config)
    requires i <= j <= |evs|
    ensures At(rows, evs[..j], i, c) == At(rows, evs, i, c)
  {
    assert evs[..j][..i] == evs[..i];
  }

  lemma Remembered(rows: Table, evs: seq<Event>, i: nat, ws: Socket, c: K.Config)
    requires i <= |evs| && LegalRun(Start(rows), evs, c) && ws in At(rows, evs, i, c).r.ix.pairLookup
    ensures var w := At(rows, evs, i, c); ws in w.h.pairOf && w.h.pairOf[ws] == w.r.ix.pairLookup[ws]
  {
    PrefixLegal(rows, evs, i, c);
    InvAlways(rows, evs[..i], c);
    PartnerOf(At(rows, evs, i, c), ws);
  }

  lemma PartnerOf(w: World, ws: Socket)
    requires Inv(w) && ws in w.r.ix.pairLookup
    ensures ws in w.h.pairOf && w.h.pairOf[ws] == w.r.ix.pairLookup[ws]
  {
  }

  /** The frames among the sends on a socket. */
  function FramesIn(out: seq<Outgoing>): seq<Frame> {
    if out == [] then []
    else FramesIn(out[..|out| - 1]) + (if out[|out| - 1].Relayed? then [out[|out| - 1].frame] else [])
  }

  lemma {:induction false} FramesInDelivered(out: seq<Outgoing>, frames: seq<Frame>, client: bool)
    requires Delivered(out, frames, client)
    ensures FramesIn(out) == frames
    decreases |out|
  {
    var k := |out| - |frames|;
    if frames == [] {
      if client {
        FramesInGreeting(out[..k - 1]);
        assert out[..|out| - 1] == out[..k - 1];
      } else {
        FramesInGreeting(out[..k]);
        assert out[..k] == out;
      }
    } else {
      var out', frames' := out[..|out| - 1], frames[..|frames| - 1];
      assert out[|out| - 1] == out[k..][|frames| - 1] == Relayed(frames[|frames| - 1]);
      assert out'[k..] == out[k..][..|frames'|] == Forwards(frames');
      assert out'[..k] == out[..k];
      if client { assert out'[..k - 1] == out[..k - 1]; }
      FramesInDelivered(out', frames', client);
    }
  }

  lemma {:induction false} FramesInGreeting(out: seq<Outgoing>)
    requires Greeting(out)
    ensures FramesIn(out) == []
  {
    if out != [] { FramesInGreeting(out[..|out| - 1]); }
  }

  /** The frames a socket was sent are those its one peer sent while their pair was live. */
  lemma DeliveryOf(w: World, ws: Socket)
    requires Inv(w)
    ensures FramesIn(Outbox(w.r.outbox, ws)) == if ws in w.h.pairOf then SentBy(w.h, Other(w.h.pairOf[ws], ws)) else []
    ensures OutboxMatches(Outbox(w.r.outbox, ws), w.h.sent, w.h.pairOf, ws)
  {
    var out := Outbox(w.r.outbox, ws);
    assert OutboxMatches(out, w.h.sent, w.h.pairOf, ws);
    if ws in w.h.pairOf {
      FramesInDelivered(out, SentBy(w.h, Other(w.h.pairOf[ws], ws)), ws == w.h.pairOf[ws].client);
    } else {
      FramesInGreeting(out);
    }
  }

  /** Delivery is private, complete and in order, in every run: the frames a socket was sent
      are exactly the frames its one peer sent while their pair was live, with the same
      bytes and flag; a socket that never was in a pair was sent none. */
  lemma PrivateFifo(rows: Table, evs: seq<Event>, ws: Socket, c: K.Config)
    requires LegalRun(Start(rows), evs, c)
    ensures var w := Run(Start(rows), evs, c);
      FramesIn(Outbox(w.r.outbox, ws)) == if ws in w.h.pairOf then SentBy(w.h, Other(w.h.pairOf[ws], ws)) else []
  {
    InvAlways(rows, evs, c);
    DeliveryOf(Run(Start(rows), evs, c), ws);
  }

  /** Send number `i` on `ws` comes in its place: `client_connected` goes once to the client of
      a pair, before every frame, and to nobody else. */
  ghost predicate InPlace(w: World, ws: Socket, i: nat) {
    match w
    case World(r, h) =>
      var out := Outbox(r.outbox, ws);
      i < |out| ==>
        && (out[i] == Own(ClientConnected) ==>
            && ws in h.pairOf && h.pairOf[ws].client == ws
            && (forall j :: 0 <= j < i ==> out[j].Own? && out[j] != Own(ClientConnected))
            && (forall j :: i < j < |out| ==> out[j].Relayed?))
        && (out[i].Relayed? ==> ws in h.pairOf)
        && (out[i].Relayed? && h.pairOf[ws].client == ws ==> exists j :: 0 <= j < i && out[j] == Own(ClientConnected))
  }

  lemma SendsInPlace(w: World, ws: Socket, i: nat)
    requires Inv(w)
    ensures InPlace(w, ws, i)
  {
    DeliveryOf(w, ws);
    if i < |Outbox(w.r.outbox, ws)| {
      MatchesShape(Outbox(w.r.outbox, ws), w.h.sent, w.h.pairOf, ws, i);
    }
  }

  /** In every run every send on every socket comes in its place. */
  lemma ConnectedComesFirst(rows: Table, evs: seq<Event>, ws: Socket, i: nat, c: K.Config)
    requires LegalRun(Start(rows), evs, c)
    ensures InPlace(Run(Start(rows), evs, c), ws, i)
  {
    InvAlways(rows, evs, c);
    SendsInPlace(Run(Start(rows), evs, c), ws, i);
  }

  lemma MatchesShape(out: seq<Outgoing>, sent: map<Socket, seq<Frame>>, pairOf: map<Socket, Pair>, ws: Socket, i: nat)
    requires OutboxMatches(out, sent, pairOf, ws) && i < |out|
    ensures out[i] == Own(ClientConnected) ==>
      && ws in pairOf && pairOf[ws].client == ws
      && (forall j :: 0 <= j < i ==> out[j].Own? && out[j] != Own(ClientConnected))
      && (forall j :: i < j < |out| ==> out[j].Relayed?)
    ensures out[i].Relayed? ==> ws in pairOf
    ensures out[i].Relayed? && pairOf[ws].client == ws ==> exists j :: 0 <= j < i && out[j] == Own(ClientConnected)
  {
    if ws in pairOf {
      var frames := FramesOf(sent, Other(pairOf[ws], ws));
      var client := ws == pairOf[ws].client;
      DeliveredShape(out, frames, client);
      if client { assert out[|out| - |frames| - 1] == Own(ClientConnected); }
    }
  }

  lemma DeliveredShape(out: seq<Outgoing>, frames: seq<Frame>, client: bool)
    requires Delivered(out, frames, client)
    ensures var k := |out| - |frames|;
      && (forall j :: k <= j < |out| ==> out[j].Relayed?)
      && (client ==> k > 0 && out[k - 1] == Own(ClientConnected))
      && (forall j :: 0 <= j < (if client then k - 1 else k) ==> out[j].Own? && out[j] != Own(ClientConnected))
  {
    var k := |out| - |frames|;
    forall j | k <= j < |out| ensures out[j].Relayed? { assert out[j] == out[k..][j - k]; }
    var g := if client then k - 1 else k;
    forall j | 0 <= j < g ensures out[j].Own? && out[j] != Own(ClientConnected) { assert out[j] == out[..g][j]; }
  }

  /** The event log conserves connections. */
  ghost predicate Conserved(w: World) {
    match w
    case World(r, h) =>
      && Count(r.log, Successes) == |r.ix.pairs| + Count(r.log, PairEnds)
      && Count(r.log, Registrations)
         == |r.ix.waiting| + |r.ix.pairs| + h.replacements + Count(r.log, WaitingEnds) + Count(r.log, PairEnds)
  }

  lemma ConservedIn(w: World)
    requires Inv(w)
    ensures Conserved(w)
  {
  }

  /** Connections are conserved in every reachable state. In particular each pair that has
      ended has exactly one `pair_disconnected`, although both ends close. */
  lemma ConnectionsConserved(rows: Table, evs: seq<Event>, c: K.Config)
    requires LegalRun(Start(rows), evs, c)
    ensures Conserved(Run(Start(rows), evs, c))
  {
    InvAlways(rows, evs, c);
    ConservedIn(Run(Start(rows), evs, c));
  }

  /** Every active server and every waiting name is registered, to the server's installation. */
  ghost predicate OwnersRegistered(r: Relay) {
    match r
    case Relay(_, rows, ix, _, _, _, _, _, _) =>
      Owned(ix.active, rows) && forall u :: u in ix.waiting ==> IsValidUsername(u) && u in rows
  }

  lemma OwnersOf(w: World)
    requires Inv(w)
    ensures OwnersRegistered(w.r)
  {
    WaitersRegistered(w.r);
  }

  lemma WaitersRegistered(r: Relay)
    requires ActiveAgrees(r.ix) && Owned(r.ix.active, r.rows) && WaitersFlagged(r.ix.waiting, r.states, r.tracked)
    ensures forall u :: u in r.ix.waiting ==> IsValidUsername(u) && u in r.rows
  {
  }

  lemma OwnersKeptByStep(w: World, ev: Event, c: K.Config)
    requires Inv(w) && Legal(w.r, ev)
    ensures OwnersKept(w.r.rows, WStep(w, ev, c).r.rows)
  {
    OwnershipKept(w, ev, c);
  }

  lemma OwnersKeptOn(a: Table, b: Table, c: Table)
    requires OwnersKept(a, b) && OwnersKept(b, c)
    ensures OwnersKept(a, c)
  {
  }

  /** Ownership is first-come and stable: an active server's name is registered to its
      installation, and a name once registered keeps its owner through the whole run. */
  lemma {:induction false} OwnershipStable(rows: Table, evs: seq<Event>, c: K.Config)
    requires LegalRun(Start(rows), evs, c)
    ensures OwnersKept(rows, Run(Start(rows), evs, c).r.rows)
    ensures OwnersRegistered(Run(Start(rows), evs, c).r)
  {
    InvAlways(rows, evs, c);
    OwnersOf(Run(Start(rows), evs, c));
    if evs != [] {
      var before := evs[..|evs| - 1];
      OwnershipStable(rows, before, c);
      InvAlways(rows, before, c);
      var w := Run(Start(rows), before, c);
      OwnersKeptByStep(w, evs[|evs| - 1], c);
      OwnersKeptOn(rows, w.r.rows, WStep(w, evs[|evs| - 1], c).r.rows);
    }
  }
}

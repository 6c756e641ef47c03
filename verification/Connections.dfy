/** The relay's connection manager: the waiting, pair and active-server indices. */
module Connections {
  import opened Prelude
  import opened Registry

  /** A WebSocket, by identity. */
  type Socket = nat

  datatype Frame = Frame(data: seq<Byte>, binary: bool)

  datatype Metadata = Metadata(appVersion: Option<string>, resumeProtocolVersion: Option<real>,
                               renderProtocolVersion: Option<real>, capabilities: Option<seq<string>>)

  datatype RegistrationResult = Registered | UsernameTaken | InvalidUsername

  datatype ConnectFailure = ServerOffline | UnknownUsername

  /** The relay's own text messages. */
  datatype Control =
    | ServerRegistered
    | ServerRejected(reason: RegistrationResult)
    | ClientConnected
    | ClientError(failure: ConnectFailure)

  /** One `send` on a socket: a message of the relay itself or a forwarded frame. */
  datatype Outgoing = Own(message: Control) | Relayed(frame: Frame)

  datatype ServerState = Waiting | Paired

  datatype ActiveServer = ActiveServer(username: string, installId: string, connectedAt: string,
                                       state: ServerState, metadata: Metadata)

  datatype Pair = Pair(server: Socket, client: Socket)

  datatype Side = ServerSide | ClientSide

  datatype ConnectionResult =
    | Connected(serverWs: Socket, server: Option<ActiveServer>)
    | Failed(reason: ConnectFailure)

  datatype CloseResult =
    | WaitingServerClosed(server: Option<ActiveServer>)
    | PairDisconnected(initiator: Side, server: Option<ActiveServer>)
    | NothingClosed

  /** The four maps of the connection manager. */
  datatype Indices = Indices(waiting: map<string, Socket>, pairs: set<Pair>,
                             pairLookup: map<Socket, Pair>, active: map<Socket, ActiveServer>)

  function Lookup<K, V>(m: map<K, V>, k: K): Option<V> {
    if k in m then Some(m[k]) else None
  }

  function Other(p: Pair, ws: Socket): Socket {
    if p.server == ws then p.client else p.server
  }

  // ---- what each operation does to the indices ---------------------------

  function AfterRegistration(ix: Indices, ws: Socket, u: string, installId: string, metadata: Metadata,
                             now: string): Indices {
    var active := if u in ix.waiting then ix.active - {ix.waiting[u]} else ix.active;
    ix.(waiting := ix.waiting[u := ws],
        active := active[ws := ActiveServer(u, installId, now, Waiting, metadata)])
  }

  function AfterPairing(ix: Indices, ws: Socket, u: string): Indices
    requires u in ix.waiting
  {
    var s := ix.waiting[u];
    var p := Pair(s, ws);
    Indices(ix.waiting - {u}, ix.pairs + {p}, ix.pairLookup[s := p][ws := p],
            if s in ix.active then ix.active[s := ix.active[s].(state := Paired)] else ix.active)
  }

  /** `username` counts only when it is set and not empty. */
  predicate WaitsUnder(ix: Indices, ws: Socket, username: Option<string>) {
    username.Some? && username.value != "" && username.value in ix.waiting && ix.waiting[username.value] == ws
  }

  function AfterClose(ix: Indices, ws: Socket, username: Option<string>): Indices {
    if WaitsUnder(ix, ws, username) then
      ix.(waiting := ix.waiting - {username.value}, active := ix.active - {ws})
    else if ws in ix.pairLookup then
      var p := ix.pairLookup[ws];
      ix.(pairs := ix.pairs - {p}, pairLookup := ix.pairLookup - {p.server} - {p.client}, active := ix.active - {p.server})
    else ix
  }

  function CloseOutcome(ix: Indices, ws: Socket, username: Option<string>): CloseResult {
    if WaitsUnder(ix, ws, username) then WaitingServerClosed(Lookup(ix.active, ws))
    else if ws in ix.pairLookup then
      var p := ix.pairLookup[ws];
      PairDisconnected(if p.server == ws then ServerSide else ClientSide, Lookup(ix.active, p.server))
    else NothingClosed
  }

  /** The socket `handleClose` asks to close, if any. */
  function Bereaved(ix: Indices, ws: Socket, username: Option<string>): set<Socket> {
    if !WaitsUnder(ix, ws, username) && ws in ix.pairLookup then {Other(ix.pairLookup[ws], ws)} else {}
  }

  function Outbox(outbox: map<Socket, seq<Outgoing>>, ws: Socket): seq<Outgoing> {
    if ws in outbox then outbox[ws] else []
  }

  function Sent(outbox: map<Socket, seq<Outgoing>>, ws: Socket, o: Outgoing): map<Socket, seq<Outgoing>> {
    outbox[ws := Outbox(outbox, ws) + [o]]
  }

  /** What the relay has done to its sockets: the sends on each and the close requests. */
  class Network {
    var outbox: map<Socket, seq<Outgoing>>
    var closeAsked: set<Socket>

    constructor ()
      ensures outbox == map[] && closeAsked == {}
    {
      outbox, closeAsked := map[], {};
    }

    method Send(ws: Socket, o: Outgoing)
      modifies this
      ensures outbox == Sent(old(outbox), ws, o) && closeAsked == old(closeAsked)
    {
      outbox := outbox[ws := Outbox(outbox, ws) + [o]];
    }

    method Close(ws: Socket)
      modifies this
      ensures closeAsked == old(closeAsked) + {ws} && outbox == old(outbox)
    {
      closeAsked := closeAsked + {ws};
    }
  }

  class ConnectionManager {
    const registry: UsernameRegistry
    const net: Network
    var waiting: map<string, Socket>
    var pairs: set<Pair>
    var pairLookup: map<Socket, Pair>
    var activeServers: map<Socket, ActiveServer>

    ghost function View(): Indices
      reads this
    {
      Indices(waiting, pairs, pairLookup, activeServers)
    }

    constructor (registry: UsernameRegistry, net: Network)
      ensures this.registry == registry && this.net == net
      ensures View() == Indices(map[], {}, map[], map[])
    {
      this.registry, this.net := registry, net;
      waiting, pairs, pairLookup, activeServers := map[], {}, map[], map[];
    }

    method RegisterServer(ws: Socket, u: string, installId: string, metadata: Metadata, now: string)
      returns (r: RegistrationResult)
      modifies this, registry, net
      ensures r == if !IsValidUsername(u) then InvalidUsername
                   else if MayRegister(old(registry.rows), u, installId) then Registered else UsernameTaken
      ensures registry.rows == AfterRegister(old(registry.rows), u, installId, now)
      ensures net.outbox == old(net.outbox)
      ensures r == Registered ==>
        && View() == AfterRegistration(old(View()), ws, u, installId, metadata, now)
        && net.closeAsked == old(net.closeAsked) + (if u in old(waiting) then {old(waiting)[u]} else {})
      ensures r != Registered ==> View() == old(View()) && net.closeAsked == old(net.closeAsked)
    {
      r := UsernameTaken;
      if !IsValidUsername(u) { return InvalidUsername; }
      var allowed := registry.CanRegister(u, installId);
      if !allowed { return; }
      var ok := registry.Register(u, installId, now);
      if ok {
        if u in waiting {
          var existing := waiting[u];
          activeServers := activeServers - {existing};
          net.Close(existing);
        }
        waiting := waiting[u := ws];
        activeServers := activeServers[ws := ActiveServer(u, installId, now, Waiting, metadata)];
        r := Registered;
      }
    }

    method ConnectClient(ws: Socket, u: string, now: string) returns (r: ConnectionResult)
      modifies this, registry
      ensures r == if u !in old(registry.rows) then Failed(UnknownUsername)
                   else if u !in old(waiting) then Failed(ServerOffline)
                   else Connected(old(waiting)[u], Lookup(View().active, old(waiting)[u]))
      ensures r.Connected? ==>
        && View() == AfterPairing(old(View()), ws, u)
        && registry.rows == AfterSeen(old(registry.rows), u, now)
      ensures !r.Connected? ==> View() == old(View()) && registry.rows == old(registry.rows)
    {
      var known := registry.IsRegistered(u);
      if !known { return Failed(UnknownUsername); }
      if u !in waiting { return Failed(ServerOffline); }
      var serverWs := waiting[u];
      waiting := waiting - {u};
      if serverWs in activeServers {
        activeServers := activeServers[serverWs := activeServers[serverWs].(state := Paired)];
      }
      var pair := Pair(serverWs, ws);
      pairs := pairs + {pair};
      pairLookup := pairLookup[serverWs := pair];
      pairLookup := pairLookup[ws := pair];
      registry.UpdateLastSeen(u, now);
      return Connected(serverWs, Lookup(activeServers, serverWs));
    }

    method Forward(ws: Socket, frame: Frame)
      modifies net
      ensures net.closeAsked == old(net.closeAsked)
      ensures net.outbox == if ws in pairLookup then Sent(old(net.outbox), Other(pairLookup[ws], ws), Relayed(frame))
                            else old(net.outbox)
    {
      if ws !in pairLookup { return; }
      var pair := pairLookup[ws];
      var target := if pair.server == ws then pair.client else pair.server;
      net.Send(target, Relayed(frame));
    }

    method HandleClose(ws: Socket, username: Option<string>) returns (r: CloseResult)
      modifies this, net
      ensures View() == AfterClose(old(View()), ws, username)
      ensures r == CloseOutcome(old(View()), ws, username)
      ensures net.closeAsked == old(net.closeAsked) + Bereaved(old(View()), ws, username)
      ensures net.outbox == old(net.outbox)
    {
      if username.Some? && username.value != "" {
        var u := username.value;
        if u in waiting && waiting[u] == ws {
          r := WaitingServerClosed(Lookup(activeServers, ws));
          waiting := waiting - {u};
          activeServers := activeServers - {ws};
          return;
        }
      }
      if ws in pairLookup {
        var pair := pairLookup[ws];
        r := PairDisconnected(if pair.server == ws then ServerSide else ClientSide, Lookup(activeServers, pair.server));
        pairs := pairs - {pair};
        pairLookup := pairLookup - {pair.server};
        pairLookup := pairLookup - {pair.client};
        activeServers := activeServers - {pair.server};
        net.Close(if pair.server == ws then pair.client else pair.server);
        return;
      }
      return NothingClosed;
    }

    /** While the indices agree: exactly the two ends of the live pairs. */
    method IsPaired(ws: Socket) returns (yes: bool)
      ensures yes == (ws in pairLookup)
      ensures Agree(View()) ==> (yes <==> exists p :: p in pairs && (ws == p.server || ws == p.client))
    {
      return ws in pairLookup;
    }

    method IsWaitingWs(ws: Socket) returns (yes: bool)
      ensures yes <==> exists u :: u in waiting && waiting[u] == ws
    {
      var names := waiting.Keys;
      while names != {}
        invariant names <= waiting.Keys
        invariant forall u :: u in waiting && u !in names ==> waiting[u] != ws
        decreases |names|
      {
        var u :| u in names;
        if waiting[u] == ws { return true; }
        names := names - {u};
      }
      return false;
    }

    /** While the indices agree: the number of active servers in state `Waiting`. */
    method GetWaitingCount() returns (n: nat)
      ensures n == |waiting|
      ensures Agree(View()) ==> n == |set ws | ws in activeServers && activeServers[ws].state == Waiting|
    {
      if Agree(View()) { WaitersAreActive(View()); }
      return |waiting|;
    }

    /** While the indices agree: half of `pairLookup`, and the active servers that do not wait. */
    method GetPairCount() returns (n: nat)
      ensures n == |pairs|
      ensures Agree(View()) ==> 2 * n == |pairLookup| && n == |activeServers| - |waiting|
    {
      if Agree(View()) { CountersAgree(View()); }
      return |pairs|;
    }
  }

  // ---- agreement of the indices ------------------------------------------

  predicate WaitsIn(waiting: map<string, Socket>, ws: Socket) {
    exists u :: u in waiting && waiting[u] == ws
  }

  /** No socket waits under two names, and no waiting socket is paired. */
  predicate WaitingAgrees(ix: Indices) {
    && (forall u, v :: u in ix.waiting && v in ix.waiting && ix.waiting[u] == ix.waiting[v] ==> u == v)
    && (forall u :: u in ix.waiting ==> ix.waiting[u] !in ix.pairLookup)
  }

  /** `pairLookup` maps exactly the two different ends of each live pair to that pair. */
  predicate PairsAgree(ix: Indices) {
    && (forall p :: p in ix.pairs ==>
        && p.server != p.client
        && p.server in ix.pairLookup && ix.pairLookup[p.server] == p
        && p.client in ix.pairLookup && ix.pairLookup[p.client] == p)
    && (forall ws :: ws in ix.pairLookup ==>
        && ix.pairLookup[ws] in ix.pairs
        && (ws == ix.pairLookup[ws].server || ws == ix.pairLookup[ws].client))
  }

  /** `activeServers` holds exactly the waiting sockets and the servers of the pairs, with
      matching state and name. */
  predicate ActiveAgrees(ix: Indices) {
    && (forall u :: u in ix.waiting ==>
        && ix.waiting[u] in ix.active
        && ix.active[ix.waiting[u]].state == Waiting && ix.active[ix.waiting[u]].username == u)
    && (forall p :: p in ix.pairs ==> p.server in ix.active && ix.active[p.server].state == Paired)
    && (forall ws :: ws in ix.active ==>
        if ix.active[ws].state == Waiting
        then ix.active[ws].username in ix.waiting && ix.waiting[ix.active[ws].username] == ws
        else ws in ix.pairLookup && ix.pairLookup[ws].server == ws)
  }

  predicate Agree(ix: Indices) {
    WaitingAgrees(ix) && PairsAgree(ix) && ActiveAgrees(ix)
  }

  /** When the indices agree, the counters agree: active servers are the waiting sockets
      plus one per pair, and `pairLookup` has two entries per pair. */
  lemma CountersAgree(ix: Indices)
    requires Agree(ix)
    ensures |ix.active| == |ix.waiting| + |ix.pairs|
    ensures |ix.pairLookup| == 2 * |ix.pairs|
  {
    var servers, clients, waiters := Servers(ix), Clients(ix), Waiters(ix);
    assert ix.active.Keys == waiters + servers && waiters !! servers by { ActiveIsDisjointUnion(ix); }
    assert ix.pairLookup.Keys == servers + clients && servers !! clients by { LookupIsDisjointUnion(ix); }
    SideCounts(ix);
    WaiterCount(ix);
    assert |ix.active| == |ix.active.Keys| && |ix.pairLookup| == |ix.pairLookup.Keys|;
  }

  function Servers(ix: Indices): set<Socket> { set p | p in ix.pairs :: p.server }

  function Clients(ix: Indices): set<Socket> { set p | p in ix.pairs :: p.client }

  function Waiters(ix: Indices): set<Socket> { set u | u in ix.waiting :: ix.waiting[u] }

  lemma ActiveIsDisjointUnion(ix: Indices)
    requires Agree(ix)
    ensures ix.active.Keys == Waiters(ix) + Servers(ix) && Waiters(ix) !! Servers(ix)
  {
    forall ws | ws in ix.active ensures ws in Waiters(ix) + Servers(ix) {
      if ix.active[ws].state == Waiting {
        assert ix.active[ws].username in ix.waiting;
      } else {
        assert ix.pairLookup[ws] in ix.pairs;
      }
    }
  }

  lemma LookupIsDisjointUnion(ix: Indices)
    requires Agree(ix)
    ensures ix.pairLookup.Keys == Servers(ix) + Clients(ix) && Servers(ix) !! Clients(ix)
  {
    forall ws | ws in ix.pairLookup ensures ws in Servers(ix) + Clients(ix) {
      assert ix.pairLookup[ws] in ix.pairs;
    }
  }

  lemma SideCounts(ix: Indices)
    requires Agree(ix)
    ensures |Servers(ix)| == |ix.pairs| && |Clients(ix)| == |ix.pairs|
  {
    ImageCardinality(ix.pairs, (p: Pair) => p.server, Servers(ix));
    ImageCardinality(ix.pairs, (p: Pair) => p.client, Clients(ix));
  }

  lemma WaiterCount(ix: Indices)
    requires Agree(ix)
    ensures |Waiters(ix)| == |ix.waiting|
  {
    ImageCardinality(ix.waiting.Keys, (u: string) requires u in ix.waiting => ix.waiting[u], Waiters(ix));
    assert |ix.waiting| == |ix.waiting.Keys|;
  }

  /** An injective image has as many elements as its source. */
  lemma WaitersAreActive(ix: Indices)
    requires Agree(ix)
    ensures |set ws | ws in ix.active && ix.active[ws].state == Waiting| == |ix.waiting|
  {
    assert (set ws | ws in ix.active && ix.active[ws].state == Waiting) == Waiters(ix);
    WaiterCount(ix);
  }

  lemma {:induction false} ImageCardinality<A(!new), B>(s: set<A>, f: A --> B, image: set<B>)
    requires forall x :: x in s ==> f.requires(x)
    requires forall x, y :: x in s && y in s && f(x) == f(y) ==> x == y
    requires forall x :: x in s ==> f(x) in image
    requires forall b :: b in image ==> exists x :: x in s && f(x) == b
    ensures |image| == |s|
  {
    if s == {} {
      assert image == {};
    } else {
      var x :| x in s;
      ImageCardinality(s - {x}, f, image - {f(x)});
    }
  }

  /** Registering keeps the indices in agreement exactly when the socket does not already
      wait under a different name. */
  lemma RegistrationKeepsAgreement(ix: Indices, ws: Socket, u: string, installId: string, metadata: Metadata,
                                   now: string)
    requires Agree(ix) && ws !in ix.pairLookup
    ensures Agree(AfterRegistration(ix, ws, u, installId, metadata, now))
        <==> (forall v :: v in ix.waiting && ix.waiting[v] == ws ==> v == u)
  {
    var ix' := AfterRegistration(ix, ws, u, installId, metadata, now);
    if v :| v in ix.waiting && ix.waiting[v] == ws && v != u {
      assert ix'.waiting[u] == ix'.waiting[v];
    } else {
      assert PairsAgree(ix');
      assert WaitingAgrees(ix');
      assert ActiveAgrees(ix');
    }
  }

  /** Pairing keeps the indices in agreement exactly when the client is not itself a
      waiting server. */
  lemma PairingKeepsAgreement(ix: Indices, ws: Socket, u: string)
    requires Agree(ix) && ws !in ix.pairLookup && u in ix.waiting
    ensures Agree(AfterPairing(ix, ws, u)) <==> !WaitsIn(ix.waiting, ws)
  {
    var ix' := AfterPairing(ix, ws, u);
    if WaitsIn(ix.waiting, ws) {
      var v :| v in ix.waiting && ix.waiting[v] == ws;
      if v == u {
        assert Pair(ws, ws) in ix'.pairs;
      } else {
        assert ix'.waiting[v] in ix'.pairLookup;
      }
    } else {
      FreshPairing(ix, ws, u);
    }
  }

  lemma FreshPairing(ix: Indices, ws: Socket, u: string)
    requires Agree(ix) && ws !in ix.pairLookup && u in ix.waiting && !WaitsIn(ix.waiting, ws)
    ensures Agree(AfterPairing(ix, ws, u))
  {
    var ix' := AfterPairing(ix, ws, u);
    assert PairsAgree(ix');
    assert WaitingAgrees(ix');
    assert ActiveAgrees(ix');
  }

  lemma WaiterClosing(ix: Indices, u: string)
    requires Agree(ix) && u in ix.waiting
    ensures Agree(ix.(waiting := ix.waiting - {u}, active := ix.active - {ix.waiting[u]}))
  {
  }

  lemma PairClosing(ix: Indices, p: Pair)
    requires Agree(ix) && p in ix.pairs
    ensures Agree(ix.(pairs := ix.pairs - {p}, pairLookup := ix.pairLookup - {p.server} - {p.client},
                      active := ix.active - {p.server}))
  {
    var ix' := ix.(pairs := ix.pairs - {p}, pairLookup := ix.pairLookup - {p.server} - {p.client},
                   active := ix.active - {p.server});
    assert PairsAgree(ix') && WaitingAgrees(ix');
  }

  /** A close keeps the indices in agreement whatever username the handler passes. */
  lemma ClosingKeepsAgreement(ix: Indices, ws: Socket, username: Option<string>)
    requires Agree(ix)
    ensures Agree(AfterClose(ix, ws, username))
    ensures ws !in AfterClose(ix, ws, username).pairLookup
  {
    if WaitsUnder(ix, ws, username) {
      WaiterClosing(ix, username.value);
    } else if ws in ix.pairLookup {
      PairClosing(ix, ix.pairLookup[ws]);
    }
  }

  /** The close event of a replaced server, arriving after its successor registered, leaves
      every index as it is. */
  lemma LateCloseOfReplaced(ix: Indices, before: Socket, ws: Socket, u: string, installId: string,
                            metadata: Metadata, now: string)
    requires Agree(ix) && u in ix.waiting && ix.waiting[u] == before && before != ws
    ensures AfterClose(AfterRegistration(ix, ws, u, installId, metadata, now), before, Some(u))
         == AfterRegistration(ix, ws, u, installId, metadata, now)
    ensures CloseOutcome(AfterRegistration(ix, ws, u, installId, metadata, now), before, Some(u)) == NothingClosed
  {
  }
}

/** The relay's keepalive of one socket: a ping interval that arms a pong timeout. */
module Keepalive {
  import opened Prelude

  /** `interval` and `timeout` are the two fields of the socket's state; `intervals` and
      `timeouts` are the timers that are really scheduled, with the time they are due. A
      timer whose identifier is no longer in a field can no longer be cleared. */
  datatype Timers = Timers(interval: Option<nat>, timeout: Option<nat>,
                           intervals: map<nat, int>, timeouts: map<nat, int>, next: nat)

  const NO_TIMERS := Timers(None, None, map[], map[], 0)

  datatype Config = Config(pingIntervalMs: int, pongTimeoutMs: int)

  /** `startPingInterval` overwrites the field without clearing an earlier interval. */
  function Started(k: Timers, now: int, c: Config): Timers {
    k.(interval := Some(k.next), intervals := k.intervals[k.next := now + c.pingIntervalMs], next := k.next + 1)
  }

  function ClearedInterval(k: Timers): Timers {
    if k.interval.Some? then k.(interval := None, intervals := k.intervals - {k.interval.value}) else k
  }

  function ClearedTimeout(k: Timers): Timers {
    if k.timeout.Some? then k.(timeout := None, timeouts := k.timeouts - {k.timeout.value}) else k
  }

  function Stopped(k: Timers): Timers {
    ClearedTimeout(ClearedInterval(k))
  }

  /** The interval callback: a paired socket stops its interval, any other is pinged and
      its pong timeout is armed. */
  function Ticked(k: Timers, id: nat, paired: bool, now: int, c: Config): Timers {
    var again := k.(intervals := k.intervals[id := now + c.pingIntervalMs]);
    if paired then ClearedInterval(again)
    else again.(timeout := Some(k.next), timeouts := k.timeouts[k.next := now + c.pongTimeoutMs], next := k.next + 1)
  }

  function Expired(k: Timers, id: nat): Timers {
    k.(timeouts := k.timeouts - {id})
  }

  predicate NothingOverdue(k: Timers, at: int) {
    && (forall id :: id in k.intervals ==> at <= k.intervals[id])
    && (forall id :: id in k.timeouts ==> at <= k.timeouts[id])
  }

  // ---- one socket over time ----------------------------------------------

  datatype Phase = Fresh | WaitingForClient | Done

  /** One socket as its keepalive sees it. `unanswered` are the times of the pings that have
      no pong yet, oldest first; `timedOut` says that a pong timeout asked the socket to close. */
  datatype Watch = Watch(now: int, timers: Timers, phase: Phase, paired: bool, timedOut: bool, unanswered: seq<int>)

  datatype Happening =
    | Register
    | PairAsServer
    | PairAsClient
    | Close
    | Pong
    | IntervalFires(id: nat)
    | TimeoutFires(timer: nat)
    | Advance(to: int)
    | Elsewhere

  function Next(w: Watch, h: Happening, c: Config): Watch {
    match h
    case Register => w.(timers := Started(w.timers, w.now, c), phase := WaitingForClient)
    case PairAsServer => w.(timers := Stopped(w.timers), phase := Done, paired := true, unanswered := [])
    case PairAsClient => w.(phase := Done, paired := true)
    case Close => w.(timers := Stopped(w.timers), phase := Done, unanswered := [])
    case Pong => w.(timers := ClearedTimeout(w.timers), unanswered := if w.unanswered == [] then [] else w.unanswered[1..])
    case IntervalFires(id) =>
      w.(timers := Ticked(w.timers, id, w.paired, w.now, c),
         unanswered := if w.paired then w.unanswered else w.unanswered + [w.now])
    case TimeoutFires(id) => w.(timers := Expired(w.timers, id), timedOut := true)
    case Advance(to) => w.(now := to)
    case Elsewhere => w
  }

  /** Timers fire when they are due, and time does not pass a due timer. */
  predicate Punctual(w: Watch, h: Happening) {
    match h
    case IntervalFires(id) => id in w.timers.intervals && w.timers.intervals[id] <= w.now
    case TimeoutFires(id) => id in w.timers.timeouts && w.timers.timeouts[id] <= w.now
    case Advance(to) => w.now <= to && NothingOverdue(w.timers, to)
    case _ => true
  }

  /** The socket has at most one accepted handshake. */
  predicate OneHandshake(w: Watch, h: Happening) {
    match h
    case Register => w.phase == Fresh
    case PairAsClient => w.phase == Fresh
    case PairAsServer => w.phase == WaitingForClient
    case _ => true
  }

  /** The server answers every ping, each with its own pong, less than `pongTimeoutMs` after
      it was sent: time does not reach the end of that span for the oldest unanswered one. */
  predicate Prompt(w: Watch, h: Happening, c: Config) {
    h.Advance? && w.unanswered != [] ==> h.to < w.unanswered[0] + c.pongTimeoutMs
  }

  /** One accepted handshake, and a pong in time for every ping. */
  function Answering(c: Config): (Watch, Happening) -> bool {
    (w, h) => OneHandshake(w, h) && Prompt(w, h, c)
  }

  /** Nothing arrives from the socket, and it is neither paired nor closed. */
  predicate Silent(h: Happening) {
    h.IntervalFires? || h.TimeoutFires? || h.Advance? || h.Elsewhere?
  }

  const FRESH := Watch(0, NO_TIMERS, Fresh, false, false, [])

  function Play(w: Watch, hs: seq<Happening>, c: Config): Watch {
    if hs == [] then w else Next(Play(w, hs[..|hs| - 1], c), hs[|hs| - 1], c)
  }

  ghost predicate Possible(w: Watch, hs: seq<Happening>, c: Config, extra: (Watch, Happening) -> bool) {
    hs != [] ==>
      var before := Play(w, hs[..|hs| - 1], c);
      Possible(w, hs[..|hs| - 1], c, extra) && Punctual(before, hs[|hs| - 1]) && extra(before, hs[|hs| - 1])
  }

  /** The timers a socket with one accepted handshake can have: none before registering and
      none once paired or closed; while waiting one interval, and at most one pong timeout,
      armed by the interval's last tick. */
  ghost predicate TimersInOrder(w: Watch, c: Config) {
    var k := w.timers;
    match w.phase
    case Fresh =>
      && k.intervals == map[] && k.timeouts == map[] && k.interval.None? && k.timeout.None?
      && !w.paired && w.unanswered == []
    case Done => k.intervals == map[] && k.timeouts == map[]
    case WaitingForClient =>
      && !w.paired
      && k.interval.Some? && k.interval.value < k.next
      && k.intervals.Keys == {k.interval.value}
      && var due := k.intervals[k.interval.value];
      && w.now <= due <= w.now + c.pingIntervalMs
      && (k.timeout.Some? ==> k.timeout.value < k.next)
      && (k.timeouts == map[] || (k.timeout.Some? && k.timeouts == map[k.timeout.value := due - c.pingIntervalMs + c.pongTimeoutMs]
                                  && w.now <= k.timeouts[k.timeout.value]))
  }

  predicate Sound(c: Config) { 0 < c.pongTimeoutMs < c.pingIntervalMs }

  /** The order is kept by every happening, a tick included unless it comes while a pong
      timeout is still scheduled. */
  lemma TimersStep(w: Watch, h: Happening, c: Config)
    requires 0 < c.pongTimeoutMs && 0 < c.pingIntervalMs
    requires TimersInOrder(w, c) && Punctual(w, h) && OneHandshake(w, h)
    requires h.IntervalFires? && w.phase == WaitingForClient ==> w.timers.timeouts == map[]
    ensures TimersInOrder(Next(w, h, c), c)
  {
    if w.phase == WaitingForClient && h.IntervalFires? {
      assert h.id == w.timers.interval.value;
      assert Next(w, h, c).timers.intervals.Keys == {h.id};
    }
  }

  lemma TimersStayInOrder(w: Watch, h: Happening, c: Config)
    requires Sound(c) && TimersInOrder(w, c) && Punctual(w, h) && OneHandshake(w, h)
    ensures TimersInOrder(Next(w, h, c), c)
  {
    if w.phase == WaitingForClient && h.IntervalFires? {
      assert h.id == w.timers.interval.value;
      assert w.timers.timeouts == map[];
    }
    TimersStep(w, h, c);
  }

  lemma {:induction false} TimersInOrderAlways(hs: seq<Happening>, c: Config)
    requires Sound(c) && Possible(FRESH, hs, c, OneHandshake)
    ensures TimersInOrder(Play(FRESH, hs, c), c)
  {
    if hs != [] {
      TimersInOrderAlways(hs[..|hs| - 1], c);
      TimersStayInOrder(Play(FRESH, hs[..|hs| - 1], c), hs[|hs| - 1], c);
    }
  }

  /** At most one pong timeout is ever scheduled for a socket, in every run, exactly when
      the pong timeout is shorter than the ping interval. */
  lemma OnePongTimer(c: Config)
    requires 0 < c.pongTimeoutMs && 0 < c.pingIntervalMs
    ensures (forall hs :: Possible(FRESH, hs, c, OneHandshake) ==> |Play(FRESH, hs, c).timers.timeouts| <= 1)
        <==> c.pongTimeoutMs < c.pingIntervalMs
  {
    if c.pongTimeoutMs < c.pingIntervalMs {
      forall hs | Possible(FRESH, hs, c, OneHandshake)
        ensures |Play(FRESH, hs, c).timers.timeouts| <= 1
      {
        TimersInOrderAlways(hs, c);
      }
    } else {
      TwoTicks(c);
    }
  }

  function OnePing(c: Config): seq<Happening> {
    [] + [Register] + [Advance(c.pingIntervalMs)] + [IntervalFires(0)]
  }

  /** Two ticks of the interval without a pong between them. */
  function TwoPings(c: Config): seq<Happening> {
    OnePing(c) + [Advance(2 * c.pingIntervalMs)] + [IntervalFires(0)]
  }

  lemma OneTick(c: Config)
    requires 0 < c.pingIntervalMs
    ensures Possible(FRESH, OnePing(c), c, OneHandshake) && Possible(FRESH, OnePing(c), c, Answering(c))
    ensures var p := c.pingIntervalMs;
      Play(FRESH, OnePing(c), c)
      == Watch(p, Timers(Some(0), Some(1), map[0 := 2 * p], map[1 := p + c.pongTimeoutMs], 2),
               WaitingForClient, false, false, [p])
  {
    var p := c.pingIntervalMs;
    PlayStep(FRESH, [], Register, c);
    PlayStep(FRESH, [] + [Register], Advance(p), c);
    PlayStep(FRESH, [] + [Register] + [Advance(p)], IntervalFires(0), c);
  }

  lemma TwoTicks(c: Config)
    requires 0 < c.pingIntervalMs <= c.pongTimeoutMs
    ensures Possible(FRESH, TwoPings(c), c, OneHandshake)
    ensures c.pingIntervalMs < c.pongTimeoutMs ==> Possible(FRESH, TwoPings(c), c, Answering(c))
    ensures var p, t := c.pingIntervalMs, c.pongTimeoutMs;
      Play(FRESH, TwoPings(c), c)
      == Watch(2 * p, Timers(Some(0), Some(2), map[0 := 3 * p], map[1 := p + t, 2 := 2 * p + t], 3),
               WaitingForClient, false, false, [p, 2 * p])
    ensures |Play(FRESH, TwoPings(c), c).timers.timeouts| == 2
  {
    var p, w := c.pingIntervalMs, Play(FRESH, OnePing(c), c);
    OneTick(c);
    SecondTick(c, w);
    PlayStep(FRESH, OnePing(c), Advance(2 * p), c);
    PlayStep(FRESH, OnePing(c) + [Advance(2 * p)], IntervalFires(0), c);
    assert Play(FRESH, TwoPings(c), c).timers.timeouts.Keys == {1, 2};
  }

  lemma SecondTick(c: Config, w: Watch)
    requires var p, t := c.pingIntervalMs, c.pongTimeoutMs;
      w == Watch(p, Timers(Some(0), Some(1), map[0 := 2 * p], map[1 := p + t], 2), WaitingForClient, false, false, [p])
    ensures var p, t := c.pingIntervalMs, c.pongTimeoutMs;
      Next(Next(w, Advance(2 * p), c), IntervalFires(0), c)
      == Watch(2 * p, Timers(Some(0), Some(2), map[0 := 3 * p], map[1 := p + t, 2 := 2 * p + t], 3),
               WaitingForClient, false, false, [p, 2 * p])
  {
  }

  lemma PlayStep(w: Watch, hs: seq<Happening>, h: Happening, c: Config)
    ensures Play(w, hs + [h], c) == Next(Play(w, hs, c), h, c)
    ensures forall extra: (Watch, Happening) -> bool ::
      Possible(w, hs + [h], c, extra)
      == (Possible(w, hs, c, extra) && Punctual(Play(w, hs, c), h) && extra(Play(w, hs, c), h))
  {
    assert (hs + [h])[..|hs + [h]| - 1] == hs;
  }

  // ---- a server that answers ---------------------------------------------

  /** While the server answers, at most one ping is unanswered and at most its timeout runs. */
  ghost predicate AnswersSoFar(w: Watch, c: Config) {
    && TimersInOrder(w, c)
    && !w.timedOut
    && (w.phase == WaitingForClient ==>
        var k := w.timers;
        if w.unanswered == [] then k.timeouts == map[]
        else
          var p := w.unanswered[0];
          && |w.unanswered| == 1 && w.now < p + c.pongTimeoutMs
          && k.intervals[k.interval.value] == p + c.pingIntervalMs
          && (forall id :: id in k.timeouts ==> k.timeouts[id] == p + c.pongTimeoutMs))
  }

  lemma AnsweringStep(w: Watch, h: Happening, c: Config)
    requires 0 < c.pongTimeoutMs <= c.pingIntervalMs
    requires AnswersSoFar(w, c) && Punctual(w, h) && OneHandshake(w, h) && Prompt(w, h, c)
    ensures AnswersSoFar(Next(w, h, c), c)
  {
    if w.phase == WaitingForClient && h.IntervalFires? {
      assert h.id == w.timers.interval.value;
      assert w.unanswered == [];
    }
    TimersStep(w, h, c);
  }

  /** With a pong timeout not longer than the interval, a waiting server that answers each
      ping in time is never closed for a missing pong, in any run, and neither is anybody else. */
  lemma {:induction false} AnsweringServerNeverTimesOut(hs: seq<Happening>, c: Config)
    requires 0 < c.pongTimeoutMs <= c.pingIntervalMs && Possible(FRESH, hs, c, Answering(c))
    ensures AnswersSoFar(Play(FRESH, hs, c), c)
    ensures !Play(FRESH, hs, c).timedOut
  {
    if hs != [] {
      AnsweringServerNeverTimesOut(hs[..|hs| - 1], c);
      AnsweringStep(Play(FRESH, hs[..|hs| - 1], c), hs[|hs| - 1], c);
    }
  }

  /** Both pings are answered right after the second, and every later ping, `rounds` of them,
      at once. */
  function LatePongs(c: Config, rounds: nat): seq<Happening> {
    if rounds == 0 then TwoPings(c) + [Pong] + [Pong]
    else LatePongs(c, rounds - 1) + [Advance(Round(c, rounds))] + [IntervalFires(0)] + [Pong]
  }

  /** The time of the tick that ends a round. */
  function Round(c: Config, rounds: nat): int {
    if rounds == 0 then 2 * c.pingIntervalMs else Round(c, rounds - 1) + c.pingIntervalMs
  }

  /** At the end of a round only the timeout of the first ping is scheduled. */
  function Late(c: Config, now: int, next: nat): Watch {
    Watch(now, Timers(Some(0), None, map[0 := now + c.pingIntervalMs], map[1 := c.pingIntervalMs + c.pongTimeoutMs], next),
          WaitingForClient, false, false, [])
  }

  /** A run of an answering server that ends in `w`. */
  ghost predicate Reaches(hs: seq<Happening>, c: Config, w: Watch) {
    Possible(FRESH, hs, c, Answering(c)) && Play(FRESH, hs, c) == w
  }

  predicate May(w: Watch, h: Happening, c: Config) {
    Punctual(w, h) && OneHandshake(w, h) && Prompt(w, h, c)
  }

  lemma ReachesNext(hs: seq<Happening>, h: Happening, c: Config, w: Watch)
    requires Reaches(hs, c, w) && May(w, h, c)
    ensures Reaches(hs + [h], c, Next(w, h, c))
  {
    PlayStep(FRESH, hs, h, c);
  }

  lemma ReachesTwo(hs: seq<Happening>, g: Happening, h: Happening, c: Config, w: Watch)
    requires Reaches(hs, c, w) && May(w, g, c) && May(Next(w, g, c), h, c)
    ensures Reaches(hs + [g] + [h], c, Next(Next(w, g, c), h, c))
  {
    ReachesNext(hs, g, c, w);
    ReachesNext(hs + [g], h, c, Next(w, g, c));
  }

  lemma PongsEffect(c: Config, w: Watch)
    requires var p, t := c.pingIntervalMs, c.pongTimeoutMs;
      w == Watch(2 * p, Timers(Some(0), Some(2), map[0 := 3 * p], map[1 := p + t, 2 := 2 * p + t], 3),
                 WaitingForClient, false, false, [p, 2 * p])
    ensures May(w, Pong, c) && May(Next(w, Pong, c), Pong, c)
    ensures Next(Next(w, Pong, c), Pong, c) == Late(c, 2 * c.pingIntervalMs, 3)
  {
  }

  lemma TwoPongs(c: Config)
    requires 0 < c.pingIntervalMs < c.pongTimeoutMs
    ensures Reaches(TwoPings(c) + [Pong] + [Pong], c, Late(c, 2 * c.pingIntervalMs, 3))
  {
    TwoTicks(c);
    PongsEffect(c, Play(FRESH, TwoPings(c), c));
    ReachesTwo(TwoPings(c), Pong, Pong, c, Play(FRESH, TwoPings(c), c));
  }

  lemma RoundEffect(c: Config, now: int, next: nat)
    requires 0 < c.pingIntervalMs && next > 1 && now <= c.pongTimeoutMs
    ensures var to, w := now + c.pingIntervalMs, Late(c, now, next);
      var v := Next(Next(w, Advance(to), c), IntervalFires(0), c);
      && May(w, Advance(to), c) && May(Next(w, Advance(to), c), IntervalFires(0), c) && May(v, Pong, c)
      && Next(v, Pong, c) == Late(c, to, next + 1)
  {
  }

  lemma OneRound(c: Config, hs: seq<Happening>, now: int, next: nat)
    requires 0 < c.pingIntervalMs && next > 1 && now <= c.pongTimeoutMs && Reaches(hs, c, Late(c, now, next))
    ensures var after := hs + [Advance(now + c.pingIntervalMs)] + [IntervalFires(0)] + [Pong];
      Reaches(after, c, Late(c, now + c.pingIntervalMs, next + 1))
  {
    var to, w := now + c.pingIntervalMs, Late(c, now, next);
    RoundEffect(c, now, next);
    ReachesTwo(hs, Advance(to), IntervalFires(0), c, w);
    ReachesNext(hs + [Advance(to)] + [IntervalFires(0)], Pong, c, Next(Next(w, Advance(to), c), IntervalFires(0), c));
  }

  /** Nothing clears the timeout of the first ping: the pongs reach only the newest. */
  lemma {:induction false} FirstTimeoutStays(c: Config, rounds: nat)
    requires 0 < c.pingIntervalMs < c.pongTimeoutMs && Round(c, rounds) <= c.pingIntervalMs + c.pongTimeoutMs
    ensures Reaches(LatePongs(c, rounds), c, Late(c, Round(c, rounds), rounds + 3))
  {
    if rounds == 0 {
      TwoPongs(c);
    } else {
      FirstTimeoutStays(c, rounds - 1);
      OneRound(c, LatePongs(c, rounds - 1), Round(c, rounds - 1), rounds + 2);
    }
  }

  /** The last round before the timeout of the first ping is due. */
  lemma {:induction false} LastRound(c: Config, rounds: nat) returns (last: nat)
    requires 0 < c.pingIntervalMs < c.pongTimeoutMs && Round(c, rounds) <= c.pingIntervalMs + c.pongTimeoutMs
    ensures Round(c, last) <= c.pingIntervalMs + c.pongTimeoutMs < Round(c, last) + c.pingIntervalMs
    decreases c.pingIntervalMs + c.pongTimeoutMs - Round(c, rounds)
  {
    last := rounds;
    if Round(c, rounds) + c.pingIntervalMs <= c.pingIntervalMs + c.pongTimeoutMs {
      last := LastRound(c, rounds + 1);
    }
  }

  /** With a pong timeout longer than the interval, a server that answers every ping in time
      can still be closed for a missing pong. */
  lemma SlowTimeoutClosesAnsweringServer(c: Config) returns (hs: seq<Happening>)
    requires 0 < c.pingIntervalMs < c.pongTimeoutMs
    ensures Possible(FRESH, hs, c, Answering(c))
    ensures Play(FRESH, hs, c).timedOut
  {
    var last := LastRound(c, 0);
    FirstTimeoutStays(c, last);
    hs := LatePongs(c, last);
    PlayStep(FRESH, hs, Advance(c.pingIntervalMs + c.pongTimeoutMs), c);
    hs := hs + [Advance(c.pingIntervalMs + c.pongTimeoutMs)];
    PlayStep(FRESH, hs, TimeoutFires(1), c);
    hs := hs + [TimeoutFires(1)];
  }

  /** A server that answers every ping in time is safe, in every run, exactly when the pong
      timeout is not longer than the ping interval. */
  lemma AnsweringServerSafeExactly(c: Config)
    requires 0 < c.pongTimeoutMs && 0 < c.pingIntervalMs
    ensures (forall hs :: Possible(FRESH, hs, c, Answering(c)) ==> !Play(FRESH, hs, c).timedOut)
        <==> c.pongTimeoutMs <= c.pingIntervalMs
  {
    if c.pongTimeoutMs <= c.pingIntervalMs {
      forall hs | Possible(FRESH, hs, c, Answering(c)) ensures !Play(FRESH, hs, c).timedOut {
        AnsweringServerNeverTimesOut(hs, c);
      }
    } else {
      var hs := SlowTimeoutClosesAnsweringServer(c);
    }
  }

  // ---- a server that is silent -------------------------------------------

  ghost predicate DeadlineAhead(w: Watch, since: int, c: Config) {
    && TimersInOrder(w, c)
    && w.phase == WaitingForClient
    && (w.timedOut
        || w.timers.intervals[w.timers.interval.value] <= since + c.pingIntervalMs
        || exists id :: id in w.timers.timeouts && w.timers.timeouts[id] <= since + c.pingIntervalMs + c.pongTimeoutMs)
  }

  /** A waiting server that is silent from some moment on is asked to close at most one ping
      interval and one pong timeout later, unless it is paired or closed first. */
  lemma {:induction false} SilentServerTimesOut(w: Watch, hs: seq<Happening>, c: Config)
    requires Sound(c) && TimersInOrder(w, c) && w.phase == WaitingForClient
    requires Possible(w, hs, c, (_, h) => Silent(h))
    ensures DeadlineAhead(Play(w, hs, c), w.now, c)
    ensures Play(w, hs, c).timedOut || Play(w, hs, c).now <= w.now + c.pingIntervalMs + c.pongTimeoutMs
  {
    if hs != [] {
      var v, h := Play(w, hs[..|hs| - 1], c), hs[|hs| - 1];
      SilentServerTimesOut(w, hs[..|hs| - 1], c);
      SilentStep(v, h, w.now, c);
    }
  }

  lemma SilentStep(v: Watch, h: Happening, since: int, c: Config)
    requires Sound(c) && DeadlineAhead(v, since, c) && Punctual(v, h) && Silent(h)
    requires v.timedOut || v.now <= since + c.pingIntervalMs + c.pongTimeoutMs
    ensures DeadlineAhead(Next(v, h, c), since, c)
    ensures Next(v, h, c).timedOut || Next(v, h, c).now <= since + c.pingIntervalMs + c.pongTimeoutMs
  {
    TimersStayInOrder(v, h, c);
    if h.IntervalFires? && !v.timedOut {
      assert h.id == v.timers.interval.value;
      var armed := v.timers.next;
      assert armed in Next(v, h, c).timers.timeouts;
    }
  }

  // ---- after pairing -----------------------------------------------------

  /** No timer survives pairing or closing: whatever happens afterwards, no timer of the
      socket can fire and the keepalive never asks it to close. */
  lemma {:induction false} NoTimerSurvives(w: Watch, hs: seq<Happening>, c: Config)
    requires w.phase == Done && TimersInOrder(w, c)
    requires Possible(w, hs, c, OneHandshake)
    ensures Play(w, hs, c).phase == Done && TimersInOrder(Play(w, hs, c), c)
    ensures Play(w, hs, c).timedOut == w.timedOut
    ensures forall id :: !Punctual(Play(w, hs, c), IntervalFires(id)) && !Punctual(Play(w, hs, c), TimeoutFires(id))
  {
    if hs != [] {
      NoTimerSurvives(w, hs[..|hs| - 1], c);
    }
  }

  /** Without the one-handshake hypothesis this fails: a socket that registers twice has two
      intervals, one of the two pong timeouts they arm is lost from the state, and it fires
      after the server was paired. */
  function TwiceRegistered(c: Config): seq<Happening> {
    BothTicked(c) + [PairAsServer] + [Advance(c.pingIntervalMs + c.pongTimeoutMs)] + [TimeoutFires(2)]
  }

  function BothTicked(c: Config): seq<Happening> {
    [] + [Register] + [Register] + [Advance(c.pingIntervalMs)] + [IntervalFires(0)] + [IntervalFires(1)]
  }

  lemma BothTickedTimers(c: Config)
    requires Sound(c)
    ensures Possible(FRESH, BothTicked(c), c, (_, _) => true)
    ensures var p, t := c.pingIntervalMs, c.pongTimeoutMs;
      Play(FRESH, BothTicked(c), c)
      == Watch(p, Timers(Some(1), Some(3), map[0 := 2 * p, 1 := 2 * p], map[2 := p + t, 3 := p + t], 4),
               WaitingForClient, false, false, [p, p])
  {
    var p := c.pingIntervalMs;
    var hs := [];
    PlayStep(FRESH, hs, Register, c);
    hs := hs + [Register];
    PlayStep(FRESH, hs, Register, c);
    hs := hs + [Register];
    PlayStep(FRESH, hs, Advance(p), c);
    hs := hs + [Advance(p)];
    PlayStep(FRESH, hs, IntervalFires(0), c);
    hs := hs + [IntervalFires(0)];
    PlayStep(FRESH, hs, IntervalFires(1), c);
  }

  lemma SecondRegistrationLeaksTimer(c: Config)
    requires Sound(c)
    ensures Possible(FRESH, TwiceRegistered(c), c, (_, _) => true)
    ensures Play(FRESH, TwiceRegistered(c), c).paired && Play(FRESH, TwiceRegistered(c), c).timedOut
  {
    BothTickedTimers(c);
    var hs := BothTicked(c);
    PlayStep(FRESH, hs, PairAsServer, c);
    hs := hs + [PairAsServer];
    PlayStep(FRESH, hs, Advance(c.pingIntervalMs + c.pongTimeoutMs), c);
    hs := hs + [Advance(c.pingIntervalMs + c.pongTimeoutMs)];
    PlayStep(FRESH, hs, TimeoutFires(2), c);
  }
}

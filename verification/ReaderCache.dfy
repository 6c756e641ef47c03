/** The bounded cache of session readers, keyed by project. */
module ReaderCache {
  import opened Prelude

  const MAX: nat := 500

  /** One entry of the cache map; the map lists its entries in insertion order. */
  datatype Entry<R> = Entry(key: string, reader: R)

  predicate Holds<R>(entries: seq<Entry<R>>, key: string) {
    exists i :: 0 <= i < |entries| && entries[i].key == key
  }

  predicate DistinctKeys<R>(entries: seq<Entry<R>>) {
    forall i, j :: 0 <= i < j < |entries| ==> entries[i].key != entries[j].key
  }

  function Lookup<R>(entries: seq<Entry<R>>, key: string): Option<R> {
    if entries == [] then None
    else if entries[0].key == key then Some(entries[0].reader)
    else Lookup(entries[1..], key)
  }

  /** Drops the oldest entries down to the limit; an empty oldest key ends the loop early. */
  function Evicted<R>(entries: seq<Entry<R>>): seq<Entry<R>> {
    if |entries| > MAX && entries[0].key != "" then Evicted(entries[1..]) else entries
  }

  /** A call; the factory yields no reader when it throws. */
  datatype Call<R> = Call(key: string, factory: Option<R>)

  predicate Misses<R>(entries: seq<Entry<R>>, call: Call<R>) { !Holds(entries, call.key) && call.factory.Some? }

  function AfterCall<R>(entries: seq<Entry<R>>, call: Call<R>): seq<Entry<R>> {
    if Misses(entries, call) then Evicted(entries + [Entry(call.key, call.factory.value)]) else entries
  }

  function Returned<R>(entries: seq<Entry<R>>, call: Call<R>): Option<R> {
    if Holds(entries, call.key) then Lookup(entries, call.key) else call.factory
  }

  class Cache<R> {
    var entries: seq<Entry<R>>

    constructor ()
      ensures entries == []
    {
      entries := [];
    }

    method Get(key: string) returns (reader: Option<R>)
      ensures reader == Lookup(entries, key) && (reader.Some? <==> Holds(entries, key))
    {
      var i := 0;
      while i < |entries|
        invariant i <= |entries| && Lookup(entries, key) == Lookup(entries[i..], key)
        invariant forall j :: 0 <= j < i ==> entries[j].key != key
      {
        if entries[i].key == key { return Some(entries[i].reader); }
        i := i + 1;
      }
      return None;
    }

    /** `getOrCreateReader`; no reader is returned when the factory throws. */
    method GetOrCreateReader(key: string, factory: Option<R>) returns (reader: Option<R>)
      modifies this
      ensures entries == AfterCall(old(entries), Call(key, factory))
      ensures reader == Returned(old(entries), Call(key, factory))
    {
      var cached := Get(key);
      if cached.Some? { return cached; }
      if factory.None? { return None; }
      reader := factory;
      entries := entries + [Entry(key, factory.value)];
      while |entries| > MAX
        invariant Evicted(entries) == AfterCall(old(entries), Call(key, factory))
      {
        var oldestKey := entries[0].key;
        if oldestKey == "" { break; }
        entries := entries[1..];
      }
    }
  }

  // ---- one call ----------------------------------------------------------

  /** A call on a cache within the limit leaves it within the limit unless it misses on a full
      cache whose oldest key is empty. */
  lemma BoundKeptExactly<R>(entries: seq<Entry<R>>, call: Call<R>)
    requires |entries| <= MAX
    ensures |AfterCall(entries, call)| <= MAX
      <==> !Misses(entries, call) || |entries| < MAX || entries[0].key != ""
  {
    if Misses(entries, call) && |entries| == MAX {
      AddToFull(entries, Entry(call.key, call.factory.value));
    }
  }

  /** The new entry stays, behind all of the old entries or all but the oldest. */
  lemma AddToFull<R>(entries: seq<Entry<R>>, e: Entry<R>)
    requires |entries| == MAX
    ensures Evicted(entries + [e]) == if entries[0].key == "" then entries + [e] else entries[1..] + [e]
  {
    assert (entries + [e])[1..] == entries[1..] + [e];
  }

  /** From then on every miss makes the cache larger. */
  lemma {:induction false} StuckCacheGrows<R>(entries: seq<Entry<R>>, calls: seq<Call<R>>)
    requires |entries| >= MAX && entries[0].key == ""
    ensures var after := Run(entries, calls);
      entries <= after && (calls != [] && Misses(Run(entries, calls[..|calls| - 1]), calls[|calls| - 1])
                           ==> |after| == |Run(entries, calls[..|calls| - 1])| + 1)
  {
    if calls != [] {
      StuckCacheGrows(entries, calls[..|calls| - 1]);
    }
  }

  // ---- all calls ---------------------------------------------------------

  function Run<R>(entries: seq<Entry<R>>, calls: seq<Call<R>>): seq<Entry<R>> {
    if calls == [] then entries else AfterCall(Run(entries, calls[..|calls| - 1]), calls[|calls| - 1])
  }

  method Drive<R>(cache: Cache<R>, calls: seq<Call<R>>)
    modifies cache
    ensures cache.entries == Run(old(cache.entries), calls)
  {
    for n := 0 to |calls|
      invariant cache.entries == Run(old(cache.entries), calls[..n])
    {
      assert calls[..n + 1][..n] == calls[..n];
      var _ := cache.GetOrCreateReader(calls[n].key, calls[n].factory);
    }
    assert calls[..|calls|] == calls;
  }

  /** The last entries of a log, at most MAX of them. */
  function Window<R>(log: seq<Entry<R>>): seq<Entry<R>> { if |log| <= MAX then log else log[|log| - MAX..] }

  /** The misses of a run: a call misses when its key is not among those of the last MAX misses. */
  function MissLog<R>(calls: seq<Call<R>>): seq<Entry<R>> {
    if calls == [] then []
    else
      var log, call := MissLog(calls[..|calls| - 1]), calls[|calls| - 1];
      if Misses(Window(log), call) then log + [Entry(call.key, call.factory.value)] else log
  }

  /** A miss while MAX readers are held of which the oldest has the empty key. */
  predicate Sticks<R>(log: seq<Entry<R>>, call: Call<R>) {
    Misses(Window(log), call) && |log| >= MAX && Window(log)[0].key == ""
  }

  predicate NeverSticks<R>(calls: seq<Call<R>>) {
    forall n :: 0 <= n < |calls| ==> !Sticks(MissLog(calls[..n]), calls[n])
  }

  lemma WindowNext<R>(log: seq<Entry<R>>, e: Entry<R>)
    ensures Window(log + [e]) == (if |log| < MAX then log else Window(log)[1..]) + [e]
  {
  }

  lemma StepKeepsWindow<R>(log: seq<Entry<R>>, call: Call<R>)
    ensures AfterCall(Window(log), call)
      == Window(if Misses(Window(log), call) then log + [Entry(call.key, call.factory.value)] else log)
      <==> !Sticks(log, call)
  {
    if Misses(Window(log), call) {
      WindowNext(log, Entry(call.key, call.factory.value));
      if |log| >= MAX { AddToFull(Window(log), Entry(call.key, call.factory.value)); }
    }
  }

  ghost predicate AlwaysWindow<R>(calls: seq<Call<R>>) {
    forall n :: 0 <= n <= |calls| ==> Run([], calls[..n]) == Window(MissLog(calls[..n]))
  }

  lemma PrefixStep<R>(calls: seq<Call<R>>, n: nat)
    requires n < |calls|
    ensures Run([], calls[..n + 1]) == AfterCall(Run([], calls[..n]), calls[n])
    ensures var log := MissLog(calls[..n]);
      MissLog(calls[..n + 1])
        == if Misses(Window(log), calls[n]) then log + [Entry(calls[n].key, calls[n].factory.value)] else log
  {
    assert calls[..n + 1][..n] == calls[..n];
  }

  lemma {:induction false} WindowUpTo<R>(calls: seq<Call<R>>, n: nat)
    requires n <= |calls| && NeverSticks(calls)
    ensures Run([], calls[..n]) == Window(MissLog(calls[..n]))
  {
    if n > 0 {
      WindowUpTo(calls, n - 1);
      PrefixStep(calls, n - 1);
      StepKeepsWindow(MissLog(calls[..n - 1]), calls[n - 1]);
    }
  }

  /** At every point of a run the cache holds exactly the last min(MAX, misses) misses, in order,
      if and only if no miss meets a full window whose oldest key is empty. */
  lemma CacheIsWindow<R>(calls: seq<Call<R>>)
    ensures AlwaysWindow(calls) <==> NeverSticks(calls)
  {
    if NeverSticks(calls) {
      forall n | 0 <= n <= |calls| ensures Run([], calls[..n]) == Window(MissLog(calls[..n])) {
        WindowUpTo(calls, n);
      }
    }
    if AlwaysWindow(calls) {
      forall n | 0 <= n < |calls| ensures !Sticks(MissLog(calls[..n]), calls[n]) {
        PrefixStep(calls, n);
        StepKeepsWindow(MissLog(calls[..n]), calls[n]);
      }
    }
  }

  // ---- what the window holds ---------------------------------------------

  predicate KeysGiven<R>(calls: seq<Call<R>>) { forall i :: 0 <= i < |calls| ==> calls[i].key != "" }

  lemma {:induction false} LogKeysGiven<R>(calls: seq<Call<R>>)
    requires KeysGiven(calls)
    ensures forall i :: 0 <= i < |MissLog(calls)| ==> MissLog(calls)[i].key != ""
  {
    if calls != [] { LogKeysGiven(calls[..|calls| - 1]); }
  }

  /** With keys given for all calls the cache is the window. */
  lemma GivenKeysNeverStick<R>(calls: seq<Call<R>>)
    requires KeysGiven(calls)
    ensures NeverSticks(calls) && Run([], calls) == Window(MissLog(calls)) && |Run([], calls)| <= MAX
  {
    forall n | 0 <= n < |calls| ensures !Sticks(MissLog(calls[..n]), calls[n]) {
      LogKeysGiven(calls[..n]);
    }
    WindowUpTo(calls, |calls|);
    assert calls[..|calls|] == calls;
  }

  lemma {:induction false} WindowDistinct<R>(calls: seq<Call<R>>)
    ensures DistinctKeys(Window(MissLog(calls)))
  {
    if calls != [] {
      var log, call := MissLog(calls[..|calls| - 1]), calls[|calls| - 1];
      WindowDistinct(calls[..|calls| - 1]);
      if Misses(Window(log), call) {
        WindowNext(log, Entry(call.key, call.factory.value));
      }
    }
  }

  /** The reader built at the last miss of `key`. */
  function LatestMiss<R>(log: seq<Entry<R>>, key: string): Option<R> {
    if log == [] then None
    else if log[|log| - 1].key == key then Some(log[|log| - 1].reader)
    else LatestMiss(log[..|log| - 1], key)
  }

  lemma {:induction false} LookupInDistinct<R>(entries: seq<Entry<R>>, i: nat)
    requires DistinctKeys(entries) && i < |entries|
    ensures Lookup(entries, entries[i].key) == Some(entries[i].reader)
  {
    if i > 0 {
      assert entries[0].key != entries[i].key;
      LookupInDistinct(entries[1..], i - 1);
    }
  }

  lemma {:induction false} LatestAt<R>(log: seq<Entry<R>>, i: nat)
    requires i < |log| && forall j :: i < j < |log| ==> log[j].key != log[i].key
    ensures LatestMiss(log, log[i].key) == Some(log[i].reader)
  {
    if i < |log| - 1 {
      assert log[|log| - 1].key != log[i].key;
      LatestAt(log[..|log| - 1], i);
    }
  }

  lemma LatestInWindow<R>(log: seq<Entry<R>>, i: nat)
    requires DistinctKeys(Window(log)) && i < |Window(log)|
    ensures LatestMiss(log, Window(log)[i].key) == Some(Window(log)[i].reader)
  {
    var offset := |log| - |Window(log)|;
    forall j | offset + i < j < |log| ensures log[j].key != log[offset + i].key {
      assert log[j] == Window(log)[j - offset];
    }
    LatestAt(log, offset + i);
  }

  /** Every key held is held once, and asking for it returns the reader built at its latest miss
      and changes nothing. */
  lemma HitReturnsLatest<R>(calls: seq<Call<R>>, call: Call<R>)
    requires KeysGiven(calls) && Holds(Run([], calls), call.key)
    ensures DistinctKeys(Run([], calls)) && AfterCall(Run([], calls), call) == Run([], calls)
    ensures Returned(Run([], calls), call) == LatestMiss(MissLog(calls), call.key)
  {
    GivenKeysNeverStick(calls);
    WindowDistinct(calls);
    var entries := Run([], calls);
    var i :| 0 <= i < |entries| && entries[i].key == call.key;
    LookupInDistinct(entries, i);
    LatestInWindow(MissLog(calls), i);
  }

  /** A miss returns the new reader and puts it last, behind all the readers held before or all
      but the oldest of MAX. */
  lemma MissAddsNewest<R>(calls: seq<Call<R>>, call: Call<R>)
    requires KeysGiven(calls) && Misses(Run([], calls), call)
    ensures var entries := Run([], calls);
      && Returned(entries, call) == call.factory
      && AfterCall(entries, call)
         == (if |entries| < MAX then entries else entries[1..]) + [Entry(call.key, call.factory.value)]
  {
    GivenKeysNeverStick(calls);
    LogKeysGiven(calls);
    var entries := Run([], calls);
    if |entries| == MAX {
      AddToFull(entries, Entry(call.key, call.factory.value));
    }
  }
}

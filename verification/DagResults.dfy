/** Ordering twice is ordering once, and when the output needs no reordering. */
module DagResults {
  import opened Prelude
  import opened Dag
  import opened DagOrder

  /** `items` was reordered to `walk + rest`. */
  ghost predicate Reorders(items: seq<Item>, walk: seq<nat>, rest: seq<nat>) {
    && WellFormed(items) && PreorderThenRest(items, walk, rest) && Permutation(walk + rest, |items|)
  }

  function Image(o: seq<nat>, d: seq<nat>): (r: seq<nat>)
    requires Within(d, |o|)
    ensures |r| == |d| && forall k :: 0 <= k < |d| ==> r[k] == o[d[k]]
  {
    seq(|d|, k requires 0 <= k < |d| && d[k] < |o| => o[d[k]])
  }

  ghost function Place(o: seq<nat>, k: nat): (p: nat)
    requires k in o
    ensures p < |o| && o[p] == k
  {
    var p :| 0 <= p < |o| && o[p] == k; p
  }

  lemma OutputWellFormed(items: seq<Item>, o: seq<nat>)
    requires WellFormed(items) && Permutation(o, |items|)
    ensures WellFormed(Pick(items, o))
  {
    var items' := Pick(items, o);
    forall i, j | 0 <= i < j < |items'| ensures DagId(items'[i]) != DagId(items'[j]) {
      assert o[i] != o[j];
    }
  }

  /** Chains of the output are the chains of the input, renumbered. */
  lemma ChainsRenumbered(items: seq<Item>, o: seq<nat>, d: seq<nat>)
    requires Permutation(o, |items|) && Within(d, |o|)
    ensures IsChain(Pick(items, o), d) <==> IsChain(items, Image(o, d))
  {
    var items', e := Pick(items, o), Image(o, d);
    assert forall k :: 0 <= k < |d| ==> items'[d[k]] == items[e[k]];
    if IsChain(items, e) {
      forall k | 0 < k < |d| ensures items'[d[k]].parentUuid == Some(DagId(items'[d[k - 1]])) {
        assert items[e[k]].parentUuid == Some(DagId(items[e[k - 1]]));
      }
    }
    if IsChain(items', d) {
      forall k | 0 < k < |e| ensures items[e[k]].parentUuid == Some(DagId(items[e[k - 1]])) {
        assert items'[d[k]].parentUuid == Some(DagId(items'[d[k - 1]]));
      }
    }
  }

  lemma RootedRenumbered(items: seq<Item>, o: seq<nat>, p: nat)
    requires Permutation(o, |items|) && p < |o|
    ensures Rooted(Pick(items, o), p) <==> Rooted(items, o[p])
  {
    if Rooted(Pick(items, o), p) {
      var d := ChainOf(Pick(items, o), p);
      ChainsRenumbered(items, o, d);
      assert Last(Image(o, d)) == o[p];
    }
    if Rooted(items, o[p]) {
      var e := ChainOf(items, o[p]);
      var d := seq(|e|, k requires 0 <= k < |e| && e[k] in o => Place(o, e[k]));
      assert Image(o, d) == e;
      ChainsRenumbered(items, o, d);
      assert o[Last(d)] == o[p];
      assert Last(d) == p;
    }
  }

  lemma ChainOfRenumbered(items: seq<Item>, o: seq<nat>, p: nat)
    requires WellFormed(items) && Permutation(o, |items|) && p < |o| && Rooted(Pick(items, o), p)
    ensures Rooted(items, o[p]) && Image(o, ChainOf(Pick(items, o), p)) == ChainOf(items, o[p])
  {
    var d := ChainOf(Pick(items, o), p);
    ChainsRenumbered(items, o, d);
    RootedRenumbered(items, o, p);
    assert Last(Image(o, d)) == o[p];
    ChainUnique(items, Image(o, d), ChainOf(items, o[p]));
  }

  lemma PrefixChain(items: seq<Item>, d: seq<nat>, k: nat)
    requires WellFormed(items) && IsChain(items, d) && k < |d|
    ensures Rooted(items, d[k]) && ChainOf(items, d[k]) == d[..k + 1]
  {
    assert IsChain(items, d[..k + 1]) && Last(d[..k + 1]) == d[k];
    ChainUnique(items, d[..k + 1], ChainOf(items, d[k]));
  }

  /** The positions of the rooted items are exactly the first ones. */
  lemma RootedFirst(items: seq<Item>, walk: seq<nat>, rest: seq<nat>, p: nat)
    requires Reorders(items, walk, rest) && p < |walk + rest|
    ensures Rooted(items, (walk + rest)[p]) <==> p < |walk|
  {
    if p >= |walk| { assert (walk + rest)[p] == rest[p - |walk|]; }
  }

  lemma AncestorsKeepOrder(items: seq<Item>, walk: seq<nat>, rest: seq<nat>, a: nat, b: nat, d: seq<nat>,
                           e: seq<nat>, k: nat)
    requires Reorders(items, walk, rest)
    requires IsChain(items, d) && IsChain(items, e) && DivergesAt(d, e, k)
    requires a < |walk + rest| && b < |walk + rest| && (walk + rest)[a] == d[k] && (walk + rest)[b] == e[k]
    ensures a < b
  {
    PrefixChain(items, d, k);
    PrefixChain(items, e, k);
    RootedFirst(items, walk, rest, a);
    RootedFirst(items, walk, rest, b);
    var x, y := d[..k + 1], e[..k + 1];
    assert DivergesAt(x, y, k) by { assert x[..k] == d[..k] && y[..k] == e[..k]; }
    ChainLessIff(x, y);
    ChainLessAsymmetric(x, y);
    assert walk[a] == d[k] && walk[b] == e[k];
  }

  lemma RenumberedAscends(items: seq<Item>, walk: seq<nat>, rest: seq<nat>, p: nat, q: nat)
    requires Reorders(items, walk, rest) && p < q < |walk|
    requires var items' := Pick(items, walk + rest); Rooted(items', p) && Rooted(items', q)
    ensures var items' := Pick(items, walk + rest); ChainLess(ChainOf(items', p), ChainOf(items', q))
  {
    var o := walk + rest;
    var items' := Pick(items, o);
    var d', e' := ChainOf(items', p), ChainOf(items', q);
    ChainOfRenumbered(items, o, p);
    ChainOfRenumbered(items, o, q);
    var d, e := Image(o, d'), Image(o, e');
    assert o[p] == walk[p] && o[q] == walk[q];
    assert ChainLess(d, e);
    ChainLessIff(d, e);
    if Extends(d, e) {
      SamePlaces(o, d', e', |d|);
      assert d'[..|d|] == d';
      assert Extends(d', e');
    } else {
      var k: nat :| DivergesAt(d, e, k);
      SamePlaces(o, d', e', k);
      AncestorsKeepOrder(items, walk, rest, d'[k], e'[k], d, e, k);
      assert DivergesAt(d', e', k);
    }
    ChainLessIff(d', e');
  }

  lemma SamePlaces(o: seq<nat>, d: seq<nat>, e: seq<nat>, k: nat)
    requires (forall i, j :: 0 <= i < j < |o| ==> o[i] != o[j]) && Within(d, |o|) && Within(e, |o|)
    requires k <= |d| && k <= |e| && Image(o, d)[..k] == Image(o, e)[..k]
    ensures d[..k] == e[..k]
  {
    forall i | 0 <= i < k ensures d[i] == e[i] {
      assert o[d[i]] == Image(o, d)[..k][i] == Image(o, e)[..k][i] == o[e[i]];
    }
  }

  /** The output, renumbered, is already in the specified order. */
  lemma OutputInOrder(items: seq<Item>, walk: seq<nat>, rest: seq<nat>)
    requires Reorders(items, walk, rest)
    ensures var n, m := |items|, |walk|;
      PreorderThenRest(Pick(items, walk + rest), Identity(n)[..m], Identity(n)[m..])
  {
    var o := walk + rest;
    var items' := Pick(items, o);
    var n, m := |items|, |walk|;
    var walk', rest' := Identity(n)[..m], Identity(n)[m..];
    forall i | 0 <= i < m ensures Rooted(items', walk'[i]) {
      RootedRenumbered(items, o, i);
      RootedFirst(items, walk, rest, i);
    }
    forall i, j | 0 <= i < j < m ensures ChainLess(ChainOf(items', walk'[i]), ChainOf(items', walk'[j])) {
      assert walk'[i] == i && walk'[j] == j;
      assert Rooted(items', walk'[i]) && Rooted(items', walk'[j]);
      RenumberedAscends(items, walk, rest, i, j);
    }
    forall i | 0 <= i < |rest'| ensures !Rooted(items', rest'[i]) {
      assert rest'[i] == m + i;
      RootedRenumbered(items, o, m + i);
      RootedFirst(items, walk, rest, m + i);
    }
    assert walk' + rest' == Identity(n);
    forall k: nat | k < n ensures k in walk' + rest' { assert Identity(n)[k] == k; }
  }

  /** Ordering is idempotent on every list, orphans and cycles included. */
  lemma OrderIdempotent(items: seq<Item>)
    requires WellFormed(items)
    ensures Ordered(Ordered(items)) == Ordered(items)
  {
    PickIdentity(items);
    PickIdentity(Ordered(items));
    if |items| > 1 && !ParentsFirst(items) {
      OrderIsPreorder(items);
      var walk := Walk(items, Children(items, None), {});
      var rest := RestBefore(items, walk.0, |items|);
      PreorderIsPermutation(items, walk.1, rest);
      OutputInOrder(items, walk.1, rest);
      OutputWellFormed(items, walk.1 + rest);
      if !ParentsFirst(Ordered(items)) { SecondOrder(items, walk.1, rest); }
    }
  }

  lemma SecondOrder(items: seq<Item>, walk: seq<nat>, rest: seq<nat>)
    requires Reorders(items, walk, rest) && |items| > 1
    requires var items' := Pick(items, walk + rest);
      WellFormed(items') && !ParentsFirst(items')
      && PreorderThenRest(items', Identity(|items|)[..|walk|], Identity(|items|)[|walk|..])
    ensures Order(Pick(items, walk + rest)) == Identity(|items|)
  {
    var items' := Pick(items, walk + rest);
    OrderIsPreorder(items');
    var again := Walk(items', Children(items', None), {});
    var n := |items|;
    var walk', rest' := Identity(n)[..|walk|], Identity(n)[|walk|..];
    PreorderUnique(items', again.1, RestBefore(items', again.0, |items'|), walk', rest');
    Rejoined(Identity(n), |walk|);
  }

  lemma Rejoined(ks: seq<nat>, n: nat)
    requires n <= |ks|
    ensures ks[..n] + ks[n..] == ks
  {
  }

  // ---- when the output needs no reordering --------------------------------

  ghost predicate AllRooted(items: seq<Item>) {
    forall i :: 0 <= i < |items| ==> Rooted(items, i)
  }

  /** When parents come first, everything reaches a root. */
  lemma {:induction false} ParentsFirstRooted(items: seq<Item>, i: nat)
    requires WellFormed(items) && ParentsFirst(items) && i < |items|
    ensures Rooted(items, i)
  {
    if items[i].parentUuid.None? {
      assert IsChain(items, [i]) && Last([i]) == i;
    } else {
      assert HasParent(items[i]);
      var j: nat :| j < i && DagId(items[j]) == items[i].parentUuid.value;
      ParentsFirstRooted(items, j);
      var c := ChainOf(items, j);
      assert IsChain(items, c + [i]) && Last(c + [i]) == i;
    }
  }

  /** In the walk every parent comes before its children. */
  lemma WalkParentsFirst(items: seq<Item>, walk: seq<nat>, rest: seq<nat>, p: nat)
    requires Reorders(items, walk, rest) && p < |walk| && HasParent(items[walk[p]])
    ensures exists j: nat :: j < p && DagId(items[walk[j]]) == items[walk[p]].parentUuid.value
  {
    var d := ChainOf(items, walk[p]);
    ChainEnd(items, d);
    assert |d| > 1;
    var x := d[|d| - 2];
    PrefixChain(items, d, |d| - 2);
    assert x in walk + rest;
    var j: nat :| j < |walk + rest| && (walk + rest)[j] == x;
    RootedFirst(items, walk, rest, j);
    assert walk[j] == x;
    assert Extends(ChainOf(items, x), d);
    ChainLessIff(ChainOf(items, x), d);
    ChainLessAsymmetric(ChainOf(items, x), d);
    assert j < p;
  }

  /** The output needs no reordering exactly when every item reaches a root. */
  lemma OutputSettled(items: seq<Item>)
    requires WellFormed(items)
    ensures ParentsFirst(Ordered(items)) <==> AllRooted(items)
  {
    PickIdentity(items);
    if |items| > 1 && !ParentsFirst(items) {
      OrderIsPreorder(items);
      var walk := Walk(items, Children(items, None), {});
      var rest := RestBefore(items, walk.0, |items|);
      PreorderIsPermutation(items, walk.1, rest);
      ReorderedSettled(items, walk.1, rest);
    } else if ParentsFirst(items) {
      forall i | 0 <= i < |items| ensures Rooted(items, i) { ParentsFirstRooted(items, i); }
    } else {
      SingletonSettled(items);
    }
  }

  lemma SingletonSettled(items: seq<Item>)
    requires WellFormed(items) && |items| <= 1 && !ParentsFirst(items)
    ensures !AllRooted(items)
  {
    if Rooted(items, 0) { ChainEnd(items, ChainOf(items, 0)); }
  }

  lemma ReorderedSettled(items: seq<Item>, walk: seq<nat>, rest: seq<nat>)
    requires Reorders(items, walk, rest)
    ensures ParentsFirst(Pick(items, walk + rest)) <==> AllRooted(items)
  {
    var o := walk + rest;
    var items' := Pick(items, o);
    OutputWellFormed(items, o);
    if ParentsFirst(items') {
      forall i | 0 <= i < |items| ensures Rooted(items, i) {
        assert i in o;
        var p: nat :| p < |o| && o[p] == i;
        ParentsFirstRooted(items', p);
        RootedRenumbered(items, o, p);
      }
    }
    if AllRooted(items) {
      forall p | 0 <= p < |items'| && HasParent(items'[p])
        ensures exists j :: 0 <= j < p && DagId(items'[j]) == items'[p].parentUuid.value
      {
        RootedFirst(items, walk, rest, p);
        assert o[p] == walk[p];
        WalkParentsFirst(items, walk, rest, p);
        var j: nat :| j < p && DagId(items[walk[j]]) == items[walk[p]].parentUuid.value;
        assert items'[j] == items[walk[j]];
      }
    }
  }
}

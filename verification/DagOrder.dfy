/** What the parent-chain order is, without reference to the walk that computes it. */
module DagOrder {
  import opened Prelude
  import opened Dag

  /** Ids are distinct and not empty; a parent is null or not empty. Parents may be missing
      from the list, and cycles are allowed. */
  predicate WellFormed(items: seq<Item>) {
    && (forall i, j :: 0 <= i < j < |items| ==> DagId(items[i]) != DagId(items[j]))
    && (forall i :: 0 <= i < |items| ==> DagId(items[i]) != "" && items[i].parentUuid != Some(""))
  }

  function Last<T>(s: seq<T>): T
    requires s != []
  {
    s[|s| - 1]
  }

  /** The positions on the way from a root (null parent) down to an item. */
  predicate IsChain(items: seq<Item>, c: seq<nat>) {
    && c != [] && Within(c, |items|)
    && items[c[0]].parentUuid.None?
    && forall k :: 0 < k < |c| ==> items[c[k]].parentUuid == Some(DagId(items[c[k - 1]]))
  }

  ghost predicate Rooted(items: seq<Item>, i: nat) {
    exists c: seq<nat> :: IsChain(items, c) && Last(c) == i
  }

  ghost function ChainOf(items: seq<Item>, i: nat): (c: seq<nat>)
    requires Rooted(items, i)
    ensures IsChain(items, c) && Last(c) == i
  {
    var c: seq<nat> :| IsChain(items, c) && Last(c) == i; c
  }

  lemma ChainEnd(items: seq<Item>, c: seq<nat>)
    requires IsChain(items, c)
    ensures items[Last(c)].parentUuid == if |c| == 1 then None else Some(DagId(items[c[|c| - 2]]))
  {
    var k := |c| - 1;
    if k > 0 { assert items[c[k]].parentUuid == Some(DagId(items[c[k - 1]])); }
  }

  lemma {:induction false} ChainUnique(items: seq<Item>, c: seq<nat>, d: seq<nat>)
    requires WellFormed(items) && IsChain(items, c) && IsChain(items, d) && Last(c) == Last(d)
    ensures c == d
  {
    if |c| > 1 && |d| > 1 {
      var c', d' := c[..|c| - 1], d[..|d| - 1];
      assert DagId(items[Last(c')]) == DagId(items[Last(d')]);
      ChainUnique(items, c', d');
      assert c == c' + [Last(c)] && d == d' + [Last(d)];
    } else {
      ChainEnd(items, c);
      ChainEnd(items, d);
      assert c == [Last(c)] && d == [Last(d)];
    }
  }

  /** Lexicographic order of chains: ancestors first, siblings in input order. */
  predicate ChainLess(c: seq<nat>, d: seq<nat>) {
    if d == [] then false
    else if c == [] then true
    else if c[0] != d[0] then c[0] < d[0]
    else ChainLess(c[1..], d[1..])
  }

  lemma {:induction false} ChainLessAsymmetric(c: seq<nat>, d: seq<nat>)
    ensures !(ChainLess(c, d) && ChainLess(d, c)) && !ChainLess(c, c)
    decreases |c|
  {
    if c != [] { ChainLessAsymmetric(c[1..], if d == [] then [] else d[1..]); }
  }

  lemma {:induction false} ChainLessTotal(c: seq<nat>, d: seq<nat>)
    ensures c == d || ChainLess(c, d) || ChainLess(d, c)
  {
    if c != [] && d != [] && c[0] == d[0] {
      ChainLessTotal(c[1..], d[1..]);
      assert c == [c[0]] + c[1..] && d == [d[0]] + d[1..];
    }
  }

  /** The two ways one chain comes before another. */
  predicate Extends(c: seq<nat>, d: seq<nat>) { |c| < |d| && c == d[..|c|] }

  predicate DivergesAt(c: seq<nat>, d: seq<nat>, k: nat) {
    k < |c| && k < |d| && c[..k] == d[..k] && c[k] < d[k]
  }

  lemma DivergesHead(c: seq<nat>, d: seq<nat>, k: nat)
    requires DivergesAt(c, d, k)
    ensures if k == 0 then c[0] < d[0] else c[0] == d[0]
  {
    if k > 0 { assert c[0] == c[..k][0] == d[..k][0]; }
  }

  lemma {:induction false} ChainLessIff(c: seq<nat>, d: seq<nat>)
    ensures ChainLess(c, d) <==> Extends(c, d) || exists k: nat :: DivergesAt(c, d, k)
  {
    if c != [] && d != [] && c[0] == d[0] {
      ChainLessIff(c[1..], d[1..]);
      if Extends(c[1..], d[1..]) { assert d[..|c|] == [d[0]] + d[1..][..|c| - 1] == c; }
      if Extends(c, d) { assert d[1..][..|c| - 1] == d[..|c|][1..] == c[1..]; }
      forall k: nat | DivergesAt(c[1..], d[1..], k) ensures DivergesAt(c, d, k + 1) {
        assert c[..k + 1] == [c[0]] + c[1..][..k] && d[..k + 1] == [d[0]] + d[1..][..k];
      }
      forall k: nat | DivergesAt(c, d, k) ensures k > 0 && DivergesAt(c[1..], d[1..], k - 1) {
        assert c[1..][..k - 1] == c[..k][1..] && d[1..][..k - 1] == d[..k][1..];
      }
    } else if c != [] && d != [] {
      if c[0] < d[0] { assert DivergesAt(c, d, 0); }
      forall k: nat | DivergesAt(c, d, k) ensures k == 0 { DivergesHead(c, d, k); }
    }
  }

  // ---- the specification -------------------------------------------------

  ghost predicate ChainsAscend(items: seq<Item>, ks: seq<nat>) {
    && (forall i :: 0 <= i < |ks| ==> Rooted(items, ks[i]))
    && (forall i, j :: 0 <= i < j < |ks| ==> ChainLess(ChainOf(items, ks[i]), ChainOf(items, ks[j])))
  }

  predicate Covers(ks: seq<nat>, n: nat) {
    forall k: nat :: k < n ==> k in ks
  }

  /** First the items reachable from a root, by their chains: the stable preorder walk. Then
      every other item, in input order. */
  ghost predicate PreorderThenRest(items: seq<Item>, walk: seq<nat>, rest: seq<nat>) {
    && Within(walk, |items|) && Within(rest, |items|)
    && ChainsAscend(items, walk)
    && Increasing(rest) && (forall i :: 0 <= i < |rest| ==> !Rooted(items, rest[i]))
    && Covers(walk + rest, |items|)
  }

  /** Every position occurs exactly once. */
  predicate Permutation(ks: seq<nat>, n: nat) {
    |ks| == n && Within(ks, n) && Covers(ks, n) && forall i, j :: 0 <= i < j < |ks| ==> ks[i] != ks[j]
  }

  // ---- children ----------------------------------------------------------

  lemma {:induction false} ChildrenExact(items: seq<Item>, key: Option<string>, n: nat)
    requires n <= |items|
    ensures forall i :: 0 <= i < |ChildrenBefore(items, key, n)| ==> items[ChildrenBefore(items, key, n)[i]].parentUuid == key
    ensures forall k: nat :: k < n && items[k].parentUuid == key ==> k in ChildrenBefore(items, key, n)
  {
    if n > 0 {
      ChildrenExact(items, key, n - 1);
      var before := ChildrenBefore(items, key, n - 1);
      assert ChildrenBefore(items, key, n) == before + if items[n - 1].parentUuid == key then [n - 1] else [];
    }
  }

  lemma {:induction false} RestExact(items: seq<Item>, visited: set<string>, n: nat)
    requires n <= |items|
    ensures forall i :: 0 <= i < |RestBefore(items, visited, n)| ==> DagId(items[RestBefore(items, visited, n)[i]]) !in visited
    ensures forall k: nat :: k < n && DagId(items[k]) !in visited ==> k in RestBefore(items, visited, n)
  {
    if n > 0 { RestExact(items, visited, n - 1); }
  }

  // ---- the walk meets it -------------------------------------------------

  /** The chain `d` goes through the sibling `s` below the chain `c`. */
  predicate Through(c: seq<nat>, s: nat, d: seq<nat>) { c + [s] <= d }

  /** Nothing at or below the siblings has been visited. */
  ghost predicate Unvisited(items: seq<Item>, c: seq<nat>, sibs: seq<nat>, visited: set<string>) {
    forall d: seq<nat>, i :: IsChain(items, d) && 0 <= i < |sibs| && Through(c, sibs[i], d) ==> DagId(items[Last(d)]) !in visited
  }

  ghost predicate Siblings(items: seq<Item>, c: seq<nat>, sibs: seq<nat>) {
    && Within(sibs, |items|) && Increasing(sibs)
    && forall i :: 0 <= i < |sibs| ==> IsChain(items, c + [sibs[i]])
  }

  /** `out` lists exactly what lies at or below the siblings, by chains. */
  ghost predicate Lists(items: seq<Item>, c: seq<nat>, sibs: seq<nat>, out: seq<nat>) {
    && ChainsAscend(items, out)
    && (forall k :: 0 <= k < |out| ==> exists i :: 0 <= i < |sibs| && Through(c, sibs[i], ChainOf(items, out[k])))
    && (forall d: seq<nat>, i :: IsChain(items, d) && 0 <= i < |sibs| && Through(c, sibs[i], d) ==> Last(d) in out)
  }

  ghost predicate VisitsExactly(items: seq<Item>, visited: set<string>, out: seq<nat>, visited': set<string>)
    requires Within(out, |items|)
  {
    forall k: nat :: k < |items| ==> (DagId(items[k]) in visited' <==> DagId(items[k]) in visited || k in out)
  }

  /** The guard of `visit` lets every sibling through. */
  predicate GuardNeverFires(items: seq<Item>, sibs: seq<nat>, visited: set<string>)
    requires Within(sibs, |items|)
    decreases AllIds(items) - visited, |sibs|
  {
    sibs == [] ||
    var id := DagId(items[sibs[0]]);
    && id !in visited
    && assert id in AllIds(items);
    var children := Children(items, Some(id));
    GuardNeverFires(items, children, visited + {id})
    && GuardNeverFires(items, sibs[1..], Walk(items, children, visited + {id}).0)
  }

  lemma {:induction false} WalkVisits(items: seq<Item>, sibs: seq<nat>, visited: set<string>)
    requires WellFormed(items) && Within(sibs, |items|)
    ensures VisitsExactly(items, visited, Walk(items, sibs, visited).1, Walk(items, sibs, visited).0)
    decreases AllIds(items) - visited, |sibs|
  {
    if sibs != [] {
      var id := DagId(items[sibs[0]]);
      if id in visited {
        WalkVisits(items, sibs[1..], visited);
      } else {
        assert id in AllIds(items);
        var children := Children(items, Some(id));
        WalkVisits(items, children, visited + {id});
        var below := Walk(items, children, visited + {id});
        WalkVisits(items, sibs[1..], below.0);
        var after := Walk(items, sibs[1..], below.0);
        VisitsJoin(items, sibs[0], visited, below.1, below.0, after.1, after.0);
      }
    }
  }

  lemma VisitsJoin(items: seq<Item>, s: nat, visited: set<string>, below: seq<nat>, mid: set<string>,
                   after: seq<nat>, end: set<string>)
    requires WellFormed(items) && s < |items| && Within(below, |items|) && Within(after, |items|)
    requires VisitsExactly(items, visited + {DagId(items[s])}, below, mid) && VisitsExactly(items, mid, after, end)
    ensures VisitsExactly(items, visited, [s] + below + after, end)
  {
  }

  lemma {:induction false} WalkLists(items: seq<Item>, c: seq<nat>, sibs: seq<nat>, visited: set<string>)
    requires WellFormed(items) && Siblings(items, c, sibs) && Unvisited(items, c, sibs, visited)
    ensures Lists(items, c, sibs, Walk(items, sibs, visited).1)
    ensures GuardNeverFires(items, sibs, visited)
    decreases AllIds(items) - visited, |sibs|
  {
    if sibs != [] {
      var s := sibs[0];
      var id := DagId(items[s]);
      HeadUnvisited(items, c, sibs, visited);
      assert id in AllIds(items);
      var children := Children(items, Some(id));
      DescendantsUnvisited(items, c, sibs, visited);
      WalkLists(items, c + [s], children, visited + {id});
      WalkVisits(items, children, visited + {id});
      var below := Walk(items, children, visited + {id});
      LaterSiblingsUnvisited(items, c, sibs, visited, below.1, below.0);
      WalkLists(items, c, sibs[1..], below.0);
      ListsJoin(items, c, sibs, below.1, Walk(items, sibs[1..], below.0).1);
    }
  }

  lemma HeadUnvisited(items: seq<Item>, c: seq<nat>, sibs: seq<nat>, visited: set<string>)
    requires sibs != [] && Siblings(items, c, sibs) && Unvisited(items, c, sibs, visited)
    ensures DagId(items[sibs[0]]) !in visited
  {
    assert Through(c, sibs[0], c + [sibs[0]]) && Last(c + [sibs[0]]) == sibs[0];
  }

  lemma DescendantsUnvisited(items: seq<Item>, c: seq<nat>, sibs: seq<nat>, visited: set<string>)
    requires WellFormed(items) && sibs != [] && Siblings(items, c, sibs) && Unvisited(items, c, sibs, visited)
    ensures var s := sibs[0];
      var children := Children(items, Some(DagId(items[s])));
      Siblings(items, c + [s], children) && Unvisited(items, c + [s], children, visited + {DagId(items[s])})
  {
    var s := sibs[0];
    var children := Children(items, Some(DagId(items[s])));
    ChildrenExact(items, Some(DagId(items[s])), |items|);
    forall i | 0 <= i < |children| ensures IsChain(items, c + [s] + [children[i]]) {
      assert IsChain(items, c + [s]);
    }
    forall d: seq<nat>, i | IsChain(items, d) && 0 <= i < |children| && Through(c + [s], children[i], d)
      ensures DagId(items[Last(d)]) !in visited + {DagId(items[s])}
    {
      assert d[..|c| + 1] == (c + [s] + [children[i]])[..|c| + 1] == c + [s];
      assert Through(c, sibs[0], d);
      if Last(d) == s { ChainUnique(items, d, c + [s]); }
    }
  }

  lemma LaterSiblingsUnvisited(items: seq<Item>, c: seq<nat>, sibs: seq<nat>, visited: set<string>,
                               out: seq<nat>, visited': set<string>)
    requires WellFormed(items) && sibs != [] && Siblings(items, c, sibs) && Unvisited(items, c, sibs, visited)
    requires Within(out, |items|) && Lists(items, c + [sibs[0]], Children(items, Some(DagId(items[sibs[0]]))), out)
    requires VisitsExactly(items, visited + {DagId(items[sibs[0]])}, out, visited')
    ensures Siblings(items, c, sibs[1..]) && Unvisited(items, c, sibs[1..], visited')
  {
    var s := sibs[0];
    BelowChains(items, c, s, Children(items, Some(DagId(items[s]))), out);
    forall d: seq<nat>, i | IsChain(items, d) && 0 <= i < |sibs[1..]| && Through(c, sibs[1..][i], d)
      ensures DagId(items[Last(d)]) !in visited'
    {
      assert sibs[1..][i] == sibs[i + 1] && Through(c, sibs[i + 1], d);
      assert d[|c|] == (c + [sibs[i + 1]])[|c|] == sibs[i + 1] > s;
      if Last(d) == s { ChainUnique(items, d, c + [s]); }
      forall k | 0 <= k < |out| ensures out[k] != Last(d) {
        if out[k] == Last(d) { ChainUnique(items, d, ChainOf(items, out[k])); }
      }
    }
  }

  lemma ListsJoin(items: seq<Item>, c: seq<nat>, sibs: seq<nat>, below: seq<nat>, after: seq<nat>)
    requires WellFormed(items) && sibs != [] && Siblings(items, c, sibs)
    requires Lists(items, c + [sibs[0]], Children(items, Some(DagId(items[sibs[0]]))), below)
    requires Lists(items, c, sibs[1..], after)
    ensures Lists(items, c, sibs, [sibs[0]] + below + after)
  {
    var s := sibs[0];
    var out := [s] + below + after;
    assert IsChain(items, c + [s]) && Last(c + [s]) == s;
    ChainUnique(items, ChainOf(items, s), c + [s]);
    BelowChains(items, c, s, Children(items, Some(DagId(items[s]))), below);
    AfterChains(items, c, sibs, after);
    AllAscend(items, c, s, below, after);
    JoinComplete(items, c, sibs, below, after);
    forall k | 0 <= k < |out| ensures exists i :: 0 <= i < |sibs| && Through(c, sibs[i], ChainOf(items, out[k])) {
      JoinThrough(items, c, sibs, below, after, k);
    }
  }

  lemma AllAscend(items: seq<Item>, c: seq<nat>, s: nat, below: seq<nat>, after: seq<nat>)
    requires Rooted(items, s) && ChainOf(items, s) == c + [s]
    requires ChainsAscend(items, below) && ChainsAscend(items, after)
    requires forall k :: 0 <= k < |below| ==> c + [s] < ChainOf(items, below[k])
    requires forall k :: 0 <= k < |after| ==>
      |c| < |ChainOf(items, after[k])| && ChainOf(items, after[k])[..|c|] == c && ChainOf(items, after[k])[|c|] > s
    ensures ChainsAscend(items, [s] + below + after)
  {
    var out := [s] + below + after;
    forall k | 0 <= k < |out| ensures Rooted(items, out[k]) {
      assert k > 0 ==> out[k] == if k <= |below| then below[k - 1] else after[k - 1 - |below|];
    }
    forall i, j | 0 <= i < j < |out| ensures ChainLess(ChainOf(items, out[i]), ChainOf(items, out[j])) {
      JoinAscends(items, c, s, below, after, i, j);
    }
  }

  lemma BelowChains(items: seq<Item>, c: seq<nat>, s: nat, children: seq<nat>, below: seq<nat>)
    requires Lists(items, c + [s], children, below)
    ensures forall k :: 0 <= k < |below| ==> c + [s] < ChainOf(items, below[k])
  {
    var head := c + [s];
    forall k | 0 <= k < |below| ensures head < ChainOf(items, below[k]) {
      var e := ChainOf(items, below[k]);
      var j :| 0 <= j < |children| && Through(head, children[j], e);
      assert e[..|head|] == (head + [children[j]])[..|head|] == head;
    }
  }

  lemma AfterChains(items: seq<Item>, c: seq<nat>, sibs: seq<nat>, after: seq<nat>)
    requires sibs != [] && Increasing(sibs) && Lists(items, c, sibs[1..], after)
    ensures forall k :: 0 <= k < |after| ==>
      |c| < |ChainOf(items, after[k])| && ChainOf(items, after[k])[..|c|] == c && ChainOf(items, after[k])[|c|] > sibs[0]
  {
    forall k | 0 <= k < |after|
      ensures |c| < |ChainOf(items, after[k])| && ChainOf(items, after[k])[..|c|] == c && ChainOf(items, after[k])[|c|] > sibs[0]
    {
      var e := ChainOf(items, after[k]);
      var j :| 0 <= j < |sibs[1..]| && Through(c, sibs[1..][j], e);
      assert sibs[1..][j] == sibs[j + 1];
      assert e[..|c|] == (c + [sibs[j + 1]])[..|c|] == c && e[|c|] == (c + [sibs[j + 1]])[|c|];
    }
  }

  lemma JoinThrough(items: seq<Item>, c: seq<nat>, sibs: seq<nat>, below: seq<nat>, after: seq<nat>, k: nat)
    requires sibs != [] && k < 1 + |below| + |after| && Lists(items, c, sibs[1..], after)
    requires ChainsAscend(items, below)
    requires Rooted(items, sibs[0]) && ChainOf(items, sibs[0]) == c + [sibs[0]]
    requires forall i :: 0 <= i < |below| ==> c + [sibs[0]] < ChainOf(items, below[i])
    ensures var out := [sibs[0]] + below + after;
      Rooted(items, out[k]) && exists i :: 0 <= i < |sibs| && Through(c, sibs[i], ChainOf(items, out[k]))
  {
    var out := [sibs[0]] + below + after;
    if k == 0 {
      assert Through(c, sibs[0], ChainOf(items, out[0]));
    } else if k <= |below| {
      assert out[k] == below[k - 1];
      assert Through(c, sibs[0], ChainOf(items, out[k]));
    } else {
      assert out[k] == after[k - 1 - |below|];
      var j :| 0 <= j < |sibs[1..]| && Through(c, sibs[1..][j], ChainOf(items, after[k - 1 - |below|]));
      assert Through(c, sibs[j + 1], ChainOf(items, out[k]));
    }
  }

  lemma JoinComplete(items: seq<Item>, c: seq<nat>, sibs: seq<nat>, below: seq<nat>, after: seq<nat>)
    requires sibs != [] && Within(sibs, |items|)
    requires Lists(items, c + [sibs[0]], Children(items, Some(DagId(items[sibs[0]]))), below)
    requires Lists(items, c, sibs[1..], after)
    ensures forall d: seq<nat>, i :: IsChain(items, d) && 0 <= i < |sibs| && Through(c, sibs[i], d) ==> Last(d) in [sibs[0]] + below + after
  {
    var s := sibs[0];
    var head := c + [s];
    var children := Children(items, Some(DagId(items[s])));
    ChildrenExact(items, Some(DagId(items[s])), |items|);
    forall d: seq<nat>, i | IsChain(items, d) && 0 <= i < |sibs| && Through(c, sibs[i], d) ensures Last(d) in [s] + below + after {
      if i > 0 {
        assert sibs[1..][i - 1] == sibs[i];
        assert Through(c, sibs[1..][i - 1], d);
        assert Last(d) in after;
      } else if |d| == |head| {
        assert d == head;
      } else {
        var t := d[|head|];
        assert d[|head| - 1] == head[|c|] == s;
        assert t in children;
        var j :| 0 <= j < |children| && children[j] == t;
        assert d[..|head| + 1] == head + [t];
        assert Through(head, children[j], d);
        assert Last(d) in below;
      }
    }
  }

  lemma JoinAscends(items: seq<Item>, c: seq<nat>, s: nat, below: seq<nat>, after: seq<nat>, i: nat, j: nat)
    requires Rooted(items, s) && ChainOf(items, s) == c + [s]
    requires ChainsAscend(items, below) && ChainsAscend(items, after)
    requires forall k :: 0 <= k < |below| ==> c + [s] < ChainOf(items, below[k])
    requires forall k :: 0 <= k < |after| ==>
      |c| < |ChainOf(items, after[k])| && ChainOf(items, after[k])[..|c|] == c && ChainOf(items, after[k])[|c|] > s
    requires i < j < 1 + |below| + |after|
    ensures var out := [s] + below + after;
      Rooted(items, out[i]) && Rooted(items, out[j]) && ChainLess(ChainOf(items, out[i]), ChainOf(items, out[j]))
  {
    var out := [s] + below + after;
    assert i > 0 ==> out[i] == if i <= |below| then below[i - 1] else after[i - 1 - |below|];
    assert out[j] == if j <= |below| then below[j - 1] else after[j - 1 - |below|];
    var d, e := ChainOf(items, out[i]), ChainOf(items, out[j]);
    if i == 0 && j <= |below| {
      assert Extends(d, e);
      ChainLessIff(d, e);
    } else if i <= |below| < j {
      assert c + [s] <= d;
      assert d[..|c|] == (c + [s])[..|c|] == c && d[|c|] == s;
      assert DivergesAt(d, e, |c|);
      ChainLessIff(d, e);
    }
  }

  /** When reordering is needed the result is the stable preorder walk of the items that
      reach a root, followed by the others in input order; the guard of `visit` is never
      needed. */
  lemma OrderIsPreorder(items: seq<Item>)
    requires WellFormed(items) && |items| > 1 && !ParentsFirst(items)
    ensures var walk := Walk(items, Children(items, None), {});
      && Order(items) == walk.1 + RestBefore(items, walk.0, |items|)
      && PreorderThenRest(items, walk.1, RestBefore(items, walk.0, |items|))
      && GuardNeverFires(items, Children(items, None), {})
  {
    var roots := Children(items, None);
    RootsUnvisited(items);
    WalkLists(items, [], roots, {});
    WalkVisits(items, roots, {});
    var walk := Walk(items, roots, {});
    WalkThenRest(items, roots, walk.1, walk.0);
  }

  lemma RootsUnvisited(items: seq<Item>)
    ensures Siblings(items, [], Children(items, None)) && Unvisited(items, [], Children(items, None), {})
  {
    var roots := Children(items, None);
    ChildrenExact(items, None, |items|);
    forall i | 0 <= i < |roots| ensures IsChain(items, [] + [roots[i]]) { assert [] + [roots[i]] == [roots[i]]; }
  }

  lemma WalkThenRest(items: seq<Item>, roots: seq<nat>, walk: seq<nat>, visited: set<string>)
    requires roots == Children(items, None) && Within(walk, |items|)
    requires Lists(items, [], roots, walk) && VisitsExactly(items, {}, walk, visited)
    ensures PreorderThenRest(items, walk, RestBefore(items, visited, |items|))
  {
    var rest := RestBefore(items, visited, |items|);
    ChildrenExact(items, None, |items|);
    RestExact(items, visited, |items|);
    forall k: nat | k < |items| && Rooted(items, k) ensures k in walk {
      var d := ChainOf(items, k);
      var i :| 0 <= i < |roots| && roots[i] == d[0];
      assert Through([], roots[i], d);
    }
    forall i | 0 <= i < |rest| ensures !Rooted(items, rest[i]) {
      assert rest[i] !in walk;
    }
  }

  // ---- the specification determines the order ----------------------------

  /** Two lists in strictly ascending order with the same elements are equal. */
  lemma {:induction false} SortedUnique(ks: seq<nat>, ls: seq<nat>, less: (nat, nat) -> bool)
    requires forall a, b :: !(less(a, b) && less(b, a))
    requires forall i, j :: 0 <= i < j < |ks| ==> less(ks[i], ks[j])
    requires forall i, j :: 0 <= i < j < |ls| ==> less(ls[i], ls[j])
    requires forall k :: k in ks <==> k in ls
    ensures ks == ls
  {
    if ks != [] && ls != [] {
      assert ks[0] in ls && ls[0] in ks;
      assert ks[0] == ls[0];
      forall k ensures k in ks[1..] <==> k in ls[1..] {
        TailMembers(ks, k, less);
        TailMembers(ls, k, less);
      }
      SortedUnique(ks[1..], ls[1..], less);
      assert ks == [ks[0]] + ks[1..] && ls == [ls[0]] + ls[1..];
    } else {
      EmptyMembers(ks, ls);
    }
  }

  lemma EmptyMembers(ks: seq<nat>, ls: seq<nat>)
    requires forall k :: k in ks <==> k in ls
    requires ks == [] || ls == []
    ensures ks == ls
  {
    SomeMember(ks);
    SomeMember(ls);
  }

  lemma SomeMember(ks: seq<nat>)
    ensures ks == [] || exists k :: k in ks
  {
    if ks != [] { assert ks[0] in ks; }
  }

  lemma TailMembers(ks: seq<nat>, k: nat, less: (nat, nat) -> bool)
    requires forall a, b :: !(less(a, b) && less(b, a))
    requires ks != [] && forall i, j :: 0 <= i < j < |ks| ==> less(ks[i], ks[j])
    ensures k in ks[1..] <==> k in ks && k != ks[0]
  {
    assert ks == [ks[0]] + ks[1..];
    forall i | 1 <= i < |ks| ensures ks[i] != ks[0] {
      assert less(ks[0], ks[i]);
    }
  }

  /** At most one list meets the specification. */
  lemma PreorderUnique(items: seq<Item>, walk: seq<nat>, rest: seq<nat>, walk': seq<nat>, rest': seq<nat>)
    requires PreorderThenRest(items, walk, rest) && PreorderThenRest(items, walk', rest')
    ensures walk == walk' && rest == rest'
  {
    SameMembers(items, walk, rest, walk', rest');
    SameMembers(items, walk', rest', walk, rest);
    var less := (a: nat, b: nat) => Before(items, a, b);
    forall a: nat, b: nat ensures !(less(a, b) && less(b, a)) {
      if Rooted(items, a) && Rooted(items, b) { ChainLessAsymmetric(ChainOf(items, a), ChainOf(items, b)); }
    }
    SortedUnique(walk, walk', less);
    SortedUnique(rest, rest', (a: nat, b: nat) => a < b);
  }

  ghost predicate Before(items: seq<Item>, a: nat, b: nat) {
    Rooted(items, a) && Rooted(items, b) && ChainLess(ChainOf(items, a), ChainOf(items, b))
  }

  lemma SameMembers(items: seq<Item>, walk: seq<nat>, rest: seq<nat>, walk': seq<nat>, rest': seq<nat>)
    requires PreorderThenRest(items, walk, rest) && PreorderThenRest(items, walk', rest')
    ensures forall k :: k in walk ==> k in walk'
    ensures forall k :: k in rest ==> k in rest'
  {
    forall k | k in walk ensures k in walk' { assert k in walk' + rest'; }
    forall k | k in rest ensures k in rest' { assert k in walk' + rest'; }
  }

  lemma PreorderIsPermutation(items: seq<Item>, walk: seq<nat>, rest: seq<nat>)
    requires PreorderThenRest(items, walk, rest)
    ensures Permutation(walk + rest, |items|)
  {
    var o := walk + rest;
    forall i, j | 0 <= i < j < |o| ensures o[i] != o[j] {
      if j < |walk| {
        ChainLessAsymmetric(ChainOf(items, walk[i]), ChainOf(items, walk[i]));
      }
    }
    DistinctCoverLength(o, |items|);
  }

  lemma {:induction false} DistinctCoverLength(ks: seq<nat>, n: nat)
    requires Within(ks, n) && Covers(ks, n) && forall i, j :: 0 <= i < j < |ks| ==> ks[i] != ks[j]
    ensures |ks| == n
  {
    assert Members(ks) == BelowN(n);
    DistinctSize(ks);
    BelowSize(n);
  }

  function Members(ks: seq<nat>): set<nat> { set k: nat | k in ks }

  lemma {:induction false} DistinctSize(ks: seq<nat>)
    requires forall i, j :: 0 <= i < j < |ks| ==> ks[i] != ks[j]
    ensures |Members(ks)| == |ks|
  {
    if ks != [] {
      DistinctSize(ks[1..]);
      assert ks[0] !in Members(ks[1..]);
      assert Members(ks) == Members(ks[1..]) + {ks[0]};
    }
  }

  function BelowN(n: nat): (s: set<nat>)
    ensures forall k: nat :: k in s <==> k < n
  {
    if n == 0 then {} else BelowN(n - 1) + {n - 1}
  }

  lemma {:induction false} BelowSize(n: nat)
    ensures |BelowN(n)| == n
  {
    if n > 0 { BelowSize(n - 1); }
  }

  /** The output is a permutation of the input, always. */
  lemma OrderIsPermutation(items: seq<Item>)
    requires WellFormed(items)
    ensures Permutation(Order(items), |items|)
  {
    if |items| <= 1 || ParentsFirst(items) {
      forall k: nat | k < |items| ensures k in Order(items) { assert Order(items)[k] == k; }
    } else {
      OrderIsPreorder(items);
      var walk := Walk(items, Children(items, None), {});
      PreorderIsPermutation(items, walk.1, RestBefore(items, walk.0, |items|));
    }
  }
}

/** Ordering items by their parent chain. */
module Dag {
  import opened Prelude

  datatype Item = Item(uuid: Option<string>, id: Option<string>, parentUuid: Option<string>)

  function DagId(item: Item): string {
    match item.uuid
    case Some(u) => u
    case None => if item.id.Some? then item.id.value else ""
  }

  /** A parent that is set and not empty. */
  predicate HasParent(item: Item) { item.parentUuid.Some? && item.parentUuid.value != "" }

  // ---- needsReorder ------------------------------------------------------

  /** Every parent occurs strictly earlier in the list. */
  predicate ParentsFirst(items: seq<Item>) {
    forall i :: 0 <= i < |items| && HasParent(items[i]) ==>
      exists j :: 0 <= j < i && DagId(items[j]) == items[i].parentUuid.value
  }

  method NeedsReorder(items: seq<Item>) returns (needed: bool)
    ensures needed <==> !ParentsFirst(items)
  {
    var seen: set<string> := {};
    for n := 0 to |items|
      invariant seen == set j | 0 <= j < n :: DagId(items[j])
      invariant forall i :: 0 <= i < n && HasParent(items[i]) ==>
        exists j :: 0 <= j < i && DagId(items[j]) == items[i].parentUuid.value
    {
      if HasParent(items[n]) && items[n].parentUuid.value !in seen { return true; }
      seen := seen + {DagId(items[n])};
    }
    return false;
  }

  // ---- the walk ----------------------------------------------------------

  predicate Within(ks: seq<nat>, n: nat) {
    forall i :: 0 <= i < |ks| ==> ks[i] < n
  }

  predicate Increasing(ks: seq<nat>) {
    forall i, j :: 0 <= i < j < |ks| ==> ks[i] < ks[j]
  }

  /** The positions below `n` of the items whose parent key is `key`, in input order. */
  function ChildrenBefore(items: seq<Item>, key: Option<string>, n: nat): (ks: seq<nat>)
    requires n <= |items|
    ensures Within(ks, n) && Increasing(ks)
  {
    if n == 0 then []
    else ChildrenBefore(items, key, n - 1) + (if items[n - 1].parentUuid == key then [n - 1] else [])
  }

  function Children(items: seq<Item>, key: Option<string>): (ks: seq<nat>)
    ensures Within(ks, |items|) && Increasing(ks)
  {
    ChildrenBefore(items, key, |items|)
  }

  function AllIds(items: seq<Item>): set<string> { set i | 0 <= i < |items| :: DagId(items[i]) }

  /** What `visit` does to `visited` and `result` for the siblings still to come: `result`
      is given by positions. Recursion ends because every step visits a new id. */
  function Walk(items: seq<Item>, siblings: seq<nat>, visited: set<string>): (r: (set<string>, seq<nat>))
    requires Within(siblings, |items|)
    ensures visited <= r.0 && Within(r.1, |items|)
    decreases AllIds(items) - visited, |siblings|
  {
    if siblings == [] then (visited, [])
    else
      var s := siblings[0];
      var id := DagId(items[s]);
      if id in visited then Walk(items, siblings[1..], visited)
      else
        assert id in AllIds(items);
        var below := Walk(items, Children(items, Some(id)), visited + {id});
        var after := Walk(items, siblings[1..], below.0);
        (after.0, [s] + below.1 + after.1)
  }

  function Pick(items: seq<Item>, ks: seq<nat>): (r: seq<Item>)
    requires Within(ks, |items|)
    ensures |r| == |ks|
    ensures forall i :: 0 <= i < |ks| ==> r[i] == items[ks[i]]
  {
    seq(|ks|, i requires 0 <= i < |ks| && ks[i] < |items| => items[ks[i]])
  }

  lemma PickAppend(items: seq<Item>, a: seq<nat>, b: seq<nat>)
    requires Within(a, |items|) && Within(b, |items|)
    ensures Within(a + b, |items|)
    ensures Pick(items, a + b) == Pick(items, a) + Pick(items, b)
  {
  }

  /** The positions left over: those below `n` whose id was not visited, in input order. */
  function RestBefore(items: seq<Item>, visited: set<string>, n: nat): (ks: seq<nat>)
    requires n <= |items|
    ensures Within(ks, n) && Increasing(ks)
  {
    if n == 0 then []
    else RestBefore(items, visited, n - 1) + (if DagId(items[n - 1]) !in visited then [n - 1] else [])
  }

  function Identity(n: nat): (ks: seq<nat>)
    ensures |ks| == n && forall i :: 0 <= i < n ==> ks[i] == i
  {
    seq(n, i => i)
  }

  /** The output order, as positions of the input. */
  function Order(items: seq<Item>): (ks: seq<nat>)
    ensures Within(ks, |items|)
  {
    if |items| <= 1 || ParentsFirst(items) then Identity(|items|)
    else
      var walk := Walk(items, Children(items, None), {});
      walk.1 + RestBefore(items, walk.0, |items|)
  }

  function Ordered(items: seq<Item>): (r: seq<Item>)
    ensures |r| == |Order(items)|
  {
    Pick(items, Order(items))
  }

  /** The local state of `orderByParentChain`: `visit` is a closure over it. */
  class Walker {
    const items: seq<Item>
    var children: map<Option<string>, seq<Item>>
    var result: seq<Item>
    var visited: set<string>
    ghost var positions: seq<nat>

    ghost predicate Valid()
      reads this
    {
      && children == ChildMap(items, |items|)
      && Within(positions, |items|)
      && result == Pick(items, positions)
    }

    /** Builds the parent to children map. */
    constructor (items: seq<Item>)
      ensures this.items == items && Valid() && result == [] && positions == [] && visited == {}
    {
      this.items := items;
      children, result, visited, positions := map[], [], {}, [];
      new;
      assert Pick(items, []) == [];
      for n := 0 to |items|
        invariant this.items == items && result == [] && visited == {} && positions == []
        invariant children == ChildMap(items, n)
      {
        var parentKey := items[n].parentUuid;
        var siblings := SiblingsIn(children, parentKey);
        siblings := siblings + [items[n]];
        children := children[parentKey := siblings];
      }
    }

    /** One sibling: skipped when its id was visited, otherwise pushed and walked below. */
    method VisitItem(item: Item, ghost place: nat)
      requires Valid() && place < |items| && item == items[place]
      modifies this`result, this`visited, this`positions
      ensures Valid()
      ensures visited == WalkOne(items, place, old(visited)).0
      ensures positions == old(positions) + WalkOne(items, place, old(visited)).1
      decreases AllIds(items) - visited, 0
    {
      var itemId := DagId(item);
      if itemId in visited { return; }
      assert itemId in AllIds(items);
      Push(item, place);
      ghost var below := Walk(items, Children(items, Some(itemId)), old(visited) + {itemId});
      Visit(Some(itemId));
      Regroup(old(positions), place, below.1);
    }

    method Push(item: Item, ghost place: nat)
      requires Valid() && place < |items| && item == items[place]
      modifies this`result, this`visited, this`positions
      ensures Valid()
      ensures visited == old(visited) + {DagId(item)} && positions == old(positions) + [place]
    {
      PickNext(items, positions, place);
      visited := visited + {DagId(item)};
      result := result + [item];
      positions := positions + [place];
    }

    method Visit(parentId: Option<string>)
      requires Valid()
      modifies this`result, this`visited, this`positions
      ensures Valid()
      ensures visited == Walk(items, Children(items, parentId), old(visited)).0
      ensures positions == old(positions) + Walk(items, Children(items, parentId), old(visited)).1
      decreases AllIds(items) - visited, 1
    {
      var siblings := SiblingsIn(children, parentId);
      ghost var places := Children(items, parentId);
      ChildMapExact(items, parentId, |items|);
      var n := 0;
      while n < |siblings|
        invariant n <= |siblings| && Valid() && old(visited) <= visited
        invariant siblings == Pick(items, places)
        invariant WalkFrom(items, places, n, old(visited), visited, old(positions), positions)
        decreases |siblings| - n
      {
        WalkFromNext(items, places, n, old(visited), visited, old(positions), positions);
        VisitItem(siblings[n], places[n]);
        n := n + 1;
      }
      assert places[n..] == [];
    }
  }

  lemma PickNext(items: seq<Item>, ks: seq<nat>, k: nat)
    requires Within(ks, |items|) && k < |items|
    ensures Within(ks + [k], |items|) && Pick(items, ks + [k]) == Pick(items, ks) + [items[k]]
  {
  }

  lemma Regroup(before: seq<nat>, place: nat, below: seq<nat>)
    ensures before + [place] + below == before + ([place] + below)
  {
  }

  /** The parent to children map after `n` items. */
  function ChildMap(items: seq<Item>, n: nat): map<Option<string>, seq<Item>>
    requires n <= |items|
  {
    if n == 0 then map[]
    else
      var m, key := ChildMap(items, n - 1), items[n - 1].parentUuid;
      m[key := SiblingsIn(m, key) + [items[n - 1]]]
  }

  function SiblingsIn(children: map<Option<string>, seq<Item>>, key: Option<string>): seq<Item> {
    if key in children then children[key] else []
  }

  /** The map lists the children of every parent in input order. */
  lemma {:induction false} ChildMapExact(items: seq<Item>, key: Option<string>, n: nat)
    requires n <= |items|
    ensures SiblingsIn(ChildMap(items, n), key) == Pick(items, ChildrenBefore(items, key, n))
  {
    if n > 0 {
      ChildMapExact(items, key, n - 1);
      if items[n - 1].parentUuid == key {
        PickNext(items, ChildrenBefore(items, key, n - 1), n - 1);
      } else {
        assert ChildrenBefore(items, key, n) == ChildrenBefore(items, key, n - 1);
      }
    }
  }

  function WalkOne(items: seq<Item>, place: nat, visited: set<string>): (r: (set<string>, seq<nat>))
    requires place < |items|
    ensures visited <= r.0 && Within(r.1, |items|)
  {
    var id := DagId(items[place]);
    if id in visited then (visited, [])
    else
      var below := Walk(items, Children(items, Some(id)), visited + {id});
      (below.0, [place] + below.1)
  }

  /** What is still to walk completes what was walked so far. */
  ghost predicate WalkFrom(items: seq<Item>, places: seq<nat>, n: nat, visited0: set<string>, visited: set<string>,
                           positions0: seq<nat>, positions: seq<nat>)
    requires Within(places, |items|)
  {
    && n <= |places|
    && Walk(items, places[n..], visited).0 == Walk(items, places, visited0).0
    && positions + Walk(items, places[n..], visited).1 == positions0 + Walk(items, places, visited0).1
  }

  lemma WalkFromNext(items: seq<Item>, places: seq<nat>, n: nat, visited0: set<string>, visited: set<string>,
                     positions0: seq<nat>, positions: seq<nat>)
    requires Within(places, |items|) && n < |places|
    requires WalkFrom(items, places, n, visited0, visited, positions0, positions)
    ensures var one := WalkOne(items, places[n], visited);
      WalkFrom(items, places, n + 1, visited0, one.0, positions0, positions + one.1)
  {
    var one := WalkOne(items, places[n], visited);
    assert places[n..][1..] == places[n + 1..];
    var rest := Walk(items, places[n + 1..], one.0);
    var whole := Walk(items, places[n..], visited);
    if DagId(items[places[n]]) in visited {
      assert one.1 == [] && whole == rest;
      assert positions + one.1 == positions;
    } else {
      assert whole.1 == one.1 + rest.1;
      assert positions + (one.1 + rest.1) == (positions + one.1) + rest.1;
    }
  }

  method OrderByParentChain(items: seq<Item>) returns (ordered: seq<Item>)
    ensures ordered == Ordered(items)
  {
    PickIdentity(items);
    if |items| <= 1 { return items; }
    var needed := NeedsReorder(items);
    if !needed { return items; }
    ordered := Reordered(items);
  }

  method Reordered(items: seq<Item>) returns (ordered: seq<Item>)
    requires |items| > 1 && !ParentsFirst(items)
    ensures ordered == Ordered(items)
  {
    var walker := new Walker(items);
    walker.Visit(None);
    assert walker.positions == Walk(items, Children(items, None), {}).1;
    ordered := AppendRest(items, walker.result, walker.visited, walker.positions);
  }

  lemma RestNext(items: seq<Item>, visited: set<string>, n: nat)
    requires n < |items|
    ensures Pick(items, RestBefore(items, visited, n + 1))
         == Pick(items, RestBefore(items, visited, n)) + (if DagId(items[n]) !in visited then [items[n]] else [])
  {
    if DagId(items[n]) !in visited {
      PickAppend(items, RestBefore(items, visited, n), [n]);
      assert Pick(items, [n]) == [items[n]];
    } else {
      assert RestBefore(items, visited, n + 1) == RestBefore(items, visited, n);
    }
  }

  lemma PickIdentity(items: seq<Item>)
    ensures Pick(items, Identity(|items|)) == items
  {
  }

  /** Appends the items that the walk did not visit. */
  method AppendRest(items: seq<Item>, walked: seq<Item>,
                    visited: set<string>, ghost positions: seq<nat>) returns (result: seq<Item>)
    requires Within(positions, |items|) && walked == Pick(items, positions)
    ensures Within(positions + RestBefore(items, visited, |items|), |items|)
    ensures result == Pick(items, positions + RestBefore(items, visited, |items|))
  {
    result := walked;
    for n := 0 to |items|
      invariant result == walked + Pick(items, RestBefore(items, visited, n))
    {
      if DagId(items[n]) !in visited {
        result := result + [items[n]];
      }
      RestNext(items, visited, n);
    }
    PickAppend(items, positions, RestBefore(items, visited, |items|));
  }
}

// Tearing down what a frame no longer shows: the destroy hooks of entries
// the frame did not visit, their removal from `domNodeRegistry`, and the
// detaching of their elements — at once, or when their exit animation ends.
module Lifecycle {
  import opened Wrappers
  import opened Text
  import opened Dom
  import opened Registry
  import opened Engine

  /** An item of `toRemove`: a registry key and the entry it had. */
  datatype Pending = Pending(nodeId: string, entry: Entry)

  // ---- callDestroyFncs ----

  /** The `hooksDestroyCallback` calls of `callDestroyFncs`, in registry order. */
  function DestroyCalls(r: Reg, active: set<string>): (cs: seq<Call>)
    ensures |cs| <= |r|
    ensures forall i :: 0 <= i < |cs| ==> cs[i].HooksDestroyCallback?
  {
    if r == [] then []
    else
      (if r[0].0 !in active && r[0].1.destroyId.Some? then [HooksDestroyCallback(r[0].1.destroyId.value)] else [])
      + DestroyCalls(r[1..], active)
  }

  /** A destroy hook is called exactly for the ids of inactive entries that have one. */
  lemma {:induction false} DestroyCallsExactly(r: Reg, active: set<string>, id: nat)
    ensures HooksDestroyCallback(id) in DestroyCalls(r, active) <==>
      exists i :: 0 <= i < |r| && r[i].0 !in active && r[i].1.destroyId == Some(id)
  {
    if r != [] {
      DestroyCallsExactly(r[1..], active, id);
      if HooksDestroyCallback(id) in DestroyCalls(r[1..], active) {
        var i :| 0 <= i < |r| - 1 && r[1..][i].0 !in active && r[1..][i].1.destroyId == Some(id);
        assert r[i + 1] == r[1..][i];
      }
      if exists i :: 0 <= i < |r| && r[i].0 !in active && r[i].1.destroyId == Some(id) {
        var i :| 0 <= i < |r| && r[i].0 !in active && r[i].1.destroyId == Some(id);
        if i > 0 {
          assert r[1..][i - 1] == r[i];
        }
      }
    }
  }

  /** The calls for two pieces of the registry follow each other. */
  lemma {:induction false} DestroyCallsAppend(a: Reg, b: Reg, active: set<string>)
    ensures DestroyCalls(a + b, active) == DestroyCalls(a, active) + DestroyCalls(b, active)
  {
    if a == [] {
      assert a + b == b;
    } else {
      assert (a + b)[0] == a[0] && (a + b)[1..] == a[1..] + b;
      DestroyCallsAppend(a[1..], b, active);
    }
  }

  /** An active entry, wherever it sits, contributes no call. */
  lemma ActiveEntryCallsNothing(a: Reg, e: (string, Entry), b: Reg, active: set<string>)
    requires e.0 in active
    ensures DestroyCalls(a + [e] + b, active) == DestroyCalls(a + b, active)
  {
    DestroyCallsAppend(a + [e], b, active);
    DestroyCallsAppend(a, [e], active);
    DestroyCallsAppend(a, b, active);
    var single: Reg := [e];
    assert single[1..] == [];
  }

  // ---- removeInactiveNodes, first pass ----

  /**
   * The first pass over the Map: every entry of `snapshot` whose key is not
   * kept is queued and deleted from the registry right away. Deleting the
   * entry being visited does not disturb a Map's iteration, so the pass sees
   * every entry the Map had when it started.
   */
  function Collect(r: Reg, snapshot: Reg, keep: set<string>): (p: (Reg, seq<Pending>))
    ensures |p.1| <= |snapshot|
    ensures forall i :: 0 <= i < |p.1| ==> p.1[i].nodeId !in keep
    decreases |snapshot|
  {
    if snapshot == [] then (r, [])
    else if snapshot[0].0 in keep then Collect(r, snapshot[1..], keep)
    else
      var rest := Collect(Delete(r, snapshot[0].0), snapshot[1..], keep);
      (rest.0, [Pending(snapshot[0].0, snapshot[0].1)] + rest.1)
  }

  /** One step of the pass over the snapshot, from position i. */
  lemma CollectStep(r: Reg, snapshot: Reg, i: nat, keep: set<string>)
    requires i < |snapshot|
    ensures snapshot[i].0 in keep ==> Collect(r, snapshot[i..], keep) == Collect(r, snapshot[i + 1..], keep)
    ensures snapshot[i].0 !in keep ==>
      var rest := Collect(Delete(r, snapshot[i].0), snapshot[i + 1..], keep);
      Collect(r, snapshot[i..], keep) == (rest.0, [Pending(snapshot[i].0, snapshot[i].1)] + rest.1)
  {
    assert snapshot[i..][1..] == snapshot[i + 1..];
  }

  /** After the pass a key is left iff it was there and is kept or was not visited; kept entries keep their value. */
  lemma {:induction false} CollectKeeps(r: Reg, snapshot: Reg, keep: set<string>, k: string)
    ensures Has(Collect(r, snapshot, keep).0, k) <==> Has(r, k) && (k in keep || k !in Keys(snapshot))
    ensures k in keep ==> Get(Collect(r, snapshot, keep).0, k) == Get(r, k)
    decreases |snapshot|
  {
    if snapshot != [] {
      assert Keys(snapshot) == [snapshot[0].0] + Keys(snapshot[1..]);
      if snapshot[0].0 in keep {
        CollectKeeps(r, snapshot[1..], keep, k);
      } else {
        var r1 := Delete(r, snapshot[0].0);
        CollectKeeps(r1, snapshot[1..], keep, k);
        DeleteHas(r, snapshot[0].0, k);
        DeleteThenGet(r, snapshot[0].0, k);
      }
    }
  }

  /** The queue holds exactly the visited pairs whose key is not kept. */
  lemma {:induction false} CollectQueues(r: Reg, snapshot: Reg, keep: set<string>, x: Pending)
    ensures x in Collect(r, snapshot, keep).1 <==>
      exists i :: 0 <= i < |snapshot| && snapshot[i].0 !in keep && x == Pending(snapshot[i].0, snapshot[i].1)
    decreases |snapshot|
  {
    if snapshot != [] {
      var r1 := if snapshot[0].0 in keep then r else Delete(r, snapshot[0].0);
      CollectQueues(r1, snapshot[1..], keep, x);
      if exists i :: 0 <= i < |snapshot| - 1 && snapshot[1..][i].0 !in keep
                     && x == Pending(snapshot[1..][i].0, snapshot[1..][i].1) {
        var i :| 0 <= i < |snapshot| - 1 && snapshot[1..][i].0 !in keep
                 && x == Pending(snapshot[1..][i].0, snapshot[1..][i].1);
        assert snapshot[i + 1] == snapshot[1..][i];
      }
      if exists i :: 0 <= i < |snapshot| && snapshot[i].0 !in keep && x == Pending(snapshot[i].0, snapshot[i].1) {
        var i :| 0 <= i < |snapshot| && snapshot[i].0 !in keep && x == Pending(snapshot[i].0, snapshot[i].1);
        if i > 0 {
          assert snapshot[1..][i - 1] == snapshot[i];
        }
      }
    }
  }

  /** A registry with distinct keys gives a queue with distinct ids. */
  lemma {:induction false} CollectDistinct(r: Reg, snapshot: Reg, keep: set<string>)
    requires Distinct(snapshot)
    ensures DistinctIds(Collect(r, snapshot, keep).1)
    decreases |snapshot|
  {
    if snapshot != [] {
      var r1 := if snapshot[0].0 in keep then r else Delete(r, snapshot[0].0);
      var tail := snapshot[1..];
      assert Distinct(tail) by {
        forall i, j | 0 <= i < j < |tail| ensures tail[i].0 != tail[j].0 {
          assert tail[i] == snapshot[i + 1] && tail[j] == snapshot[j + 1];
        }
      }
      CollectDistinct(r1, tail, keep);
      if snapshot[0].0 !in keep {
        var rest := Collect(r1, tail, keep).1;
        forall j | 0 <= j < |rest| ensures rest[j].nodeId != snapshot[0].0 {
          assert rest[j] in rest;
          CollectQueues(r1, tail, keep, rest[j]);
          var i :| 0 <= i < |tail| && tail[i].0 !in keep && rest[j] == Pending(tail[i].0, tail[i].1);
          assert tail[i] == snapshot[i + 1];
        }
        var q := [Pending(snapshot[0].0, snapshot[0].1)] + rest;
        forall a, b | 0 <= a < b < |q| ensures q[a].nodeId != q[b].nodeId {
          assert q[b] == rest[b - 1];
          if a > 0 {
            assert q[a] == rest[a - 1];
          }
        }
      }
    }
  }

  /** On the whole registry: only kept keys remain, each with its old value, and the others are queued. */
  lemma CollectAll(r: Reg, keep: set<string>, k: string)
    ensures var p := Collect(r, r, keep);
      (Has(p.0, k) <==> Has(r, k) && k in keep)
      && (k in keep ==> Get(p.0, k) == Get(r, k))
      && (Has(r, k) && k !in keep ==> Pending(k, Get(r, k).value) in p.1)
  {
    CollectKeeps(r, r, keep, k);
    if Has(r, k) && k !in keep {
      var i :| 0 <= i < |r| && r[i] == (k, Get(r, k).value);
      assert Keys(r)[i] == k;
      CollectQueues(r, r, keep, Pending(k, Get(r, k).value));
    }
    if Has(r, k) {
      var i :| 0 <= i < |r| && r[i].0 == k;
      assert Keys(r)[i] == k;
    }
  }

  // ---- removeByIdSwap ----

  /** `arr.findIndex(item => item.nodeId === x)`. */
  function FindIndex(arr: seq<Pending>, x: string): (i: int)
    ensures -1 <= i < |arr|
    ensures i >= 0 ==> arr[i].nodeId == x && forall j :: 0 <= j < i ==> arr[j].nodeId != x
    ensures i == -1 ==> forall j :: 0 <= j < |arr| ==> arr[j].nodeId != x
  {
    if arr == [] then -1
    else if arr[0].nodeId == x then 0
    else
      var i := FindIndex(arr[1..], x);
      if i == -1 then -1 else i + 1
  }

  /** `removeByIdSwap(arr, x)`: the first match is overwritten by the last item, then the last slot is popped. */
  function RemoveByIdSwap(arr: seq<Pending>, x: string): (r: seq<Pending>)
  {
    var idx := FindIndex(arr, x);
    if idx == -1 then arr else arr[idx := arr[|arr| - 1]][..|arr| - 1]
  }

  /**
   * Without a match nothing changes. With one, the array is one shorter, the
   * first match is gone from the multiset and nothing else is, the last item
   * fills the hole, and every other position keeps its item.
   */
  lemma RemoveByIdSwapSpec(arr: seq<Pending>, x: string)
    ensures var idx, r := FindIndex(arr, x), RemoveByIdSwap(arr, x);
      && (idx == -1 ==> r == arr)
      && (idx >= 0 ==>
            |r| == |arr| - 1
            && multiset(r) == multiset(arr) - multiset{arr[idx]}
            && (idx < |r| ==> r[idx] == arr[|arr| - 1])
            && forall j :: 0 <= j < |r| && j != idx ==> r[j] == arr[j])
  {
    var idx := FindIndex(arr, x);
    if idx >= 0 {
      SwapPop(arr, idx);
    }
  }

  /** Overwriting slot idx with the last item and popping removes exactly arr[idx]. */
  lemma SwapPop(arr: seq<Pending>, idx: nat)
    requires idx < |arr|
    ensures var r := arr[idx := arr[|arr| - 1]][..|arr| - 1];
      |r| == |arr| - 1
      && multiset(r) == multiset(arr) - multiset{arr[idx]}
      && (idx < |r| ==> r[idx] == arr[|arr| - 1])
      && forall j :: 0 <= j < |r| && j != idx ==> r[j] == arr[j]
  {
    var n := |arr|;
    var front := arr[..n - 1];
    var r := arr[idx := arr[n - 1]][..n - 1];
    assert arr == front + [arr[n - 1]];
    if idx == n - 1 {
      assert r == front;
    } else {
      assert r == front[idx := arr[n - 1]];
      assert multiset(r) == multiset(front) - multiset{front[idx]} + multiset{arr[n - 1]};
    }
  }

  // ---- removeAnimatedNodeTree ----

  /**
   * `removeAnimatedNodeTree(el)`: for each child of el in order, drop the
   * child's id from the queue, then do the same below the child. Element ids
   * are the document's keys. `fuel` bounds the depth; a document that is a
   * tree never has more levels than elements.
   */
  function StripTree(items: seq<Pending>, doc: Document, id: string, fuel: nat): seq<Pending>
    decreases fuel, 0, 0
  {
    if fuel == 0 || id !in doc then items
    else StripChildren(items, doc, doc[id].children, 0, fuel - 1)
  }

  function StripChildren(items: seq<Pending>, doc: Document, kids: seq<string>, i: nat, fuel: nat): seq<Pending>
    decreases fuel, 1, |kids| - i
  {
    if i >= |kids| then items
    else StripChildren(StripTree(RemoveByIdSwap(items, kids[i]), doc, kids[i], fuel), doc, kids, i + 1, fuel)
  }

  /** One child of StripChildren: it leaves the queue, then its subtree does. */
  lemma StripChildrenStep(items: seq<Pending>, doc: Document, kids: seq<string>, i: nat, fuel: nat)
    requires i < |kids|
    ensures StripChildren(items, doc, kids, i, fuel)
      == StripChildren(StripTree(RemoveByIdSwap(items, kids[i]), doc, kids[i], fuel), doc, kids, i + 1, fuel)
  {
  }

  /** Stripping a subtree only takes items out of the queue. */
  lemma {:induction false} StripTreeShrinks(items: seq<Pending>, doc: Document, id: string, fuel: nat)
    ensures multiset(StripTree(items, doc, id, fuel)) <= multiset(items)
    decreases fuel, 0, 0
  {
    if fuel > 0 && id in doc {
      StripChildrenShrinks(items, doc, doc[id].children, 0, fuel - 1);
    }
  }

  lemma {:induction false} StripChildrenShrinks(items: seq<Pending>, doc: Document, kids: seq<string>, i: nat, fuel: nat)
    ensures multiset(StripChildren(items, doc, kids, i, fuel)) <= multiset(items)
    decreases fuel, 1, |kids| - i
  {
    if i < |kids| {
      var once := RemoveByIdSwap(items, kids[i]);
      RemoveByIdSwapSpec(items, kids[i]);
      StripTreeShrinks(once, doc, kids[i], fuel);
      StripChildrenShrinks(StripTree(once, doc, kids[i], fuel), doc, kids, i + 1, fuel);
    }
  }

  /**
   * x lies strictly below id within fuel levels: it is a child of id, or
   * lies below one. With fuel |doc| this is the descendant relation of any
   * document whose parent chains are no longer than it has elements.
   */
  predicate Below(doc: Document, id: string, x: string, fuel: nat)
    decreases fuel
  {
    fuel > 0 && id in doc
    && exists j :: 0 <= j < |doc[id].children|
         && (doc[id].children[j] == x || Below(doc, doc[id].children[j], x, fuel - 1))
  }

  /** No queued item from position m on names x. */
  predicate AbsentFrom(items: seq<Pending>, m: nat, x: string)
  {
    forall j :: m <= j < |items| ==> items[j].nodeId != x
  }

  /** No queued item names x. */
  predicate Absent(items: seq<Pending>, x: string)
  {
    AbsentFrom(items, 0, x)
  }

  /** No two queued items name the same node, as the registry's keys guarantee for a fresh queue. */
  predicate DistinctIds(items: seq<Pending>)
  {
    forall a, b :: 0 <= a < b < |items| ==> items[a].nodeId != items[b].nodeId
  }

  /** With distinct ids the swap-remove leaves no item naming x, keeps the ids distinct and keeps every other item. */
  lemma RemoveByIdSwapClears(arr: seq<Pending>, x: string)
    requires DistinctIds(arr)
    ensures Absent(RemoveByIdSwap(arr, x), x) && DistinctIds(RemoveByIdSwap(arr, x))
  {
    var idx, r := FindIndex(arr, x), RemoveByIdSwap(arr, x);
    RemoveByIdSwapSpec(arr, x);
    if idx >= 0 {
      var n := |arr|;
      // position j of r holds the item of position At(j) of arr
      forall j | 0 <= j < |r| ensures r[j] == arr[if j == idx then n - 1 else j] {}
      forall a, b | 0 <= a < b < |r| ensures r[a].nodeId != r[b].nodeId {
        assert r[a] == arr[if a == idx then n - 1 else a];
        assert r[b] == arr[if b == idx then n - 1 else b];
      }
      forall j | 0 <= j < |r| ensures r[j].nodeId != x {
        assert r[j] == arr[if j == idx then n - 1 else j];
      }
    }
  }

  /** The swap-remove keeps an id absent from position m on: only the last item moves, and only to a hole. */
  lemma RemoveByIdSwapKeepsAbsent(arr: seq<Pending>, x: string, m: nat, y: string)
    requires AbsentFrom(arr, m, y)
    ensures AbsentFrom(RemoveByIdSwap(arr, x), m, y)
  {
    RemoveByIdSwapSpec(arr, x);
  }

  /** The swap-remove keeps every copy of an item not naming x. */
  lemma RemoveByIdSwapKeepsOthers(arr: seq<Pending>, x: string, p: Pending)
    requires p.nodeId != x
    ensures multiset(RemoveByIdSwap(arr, x))[p] == multiset(arr)[p]
  {
    RemoveByIdSwapSpec(arr, x);
  }

  /** Stripping keeps an id absent from position m on. */
  lemma {:induction false} StripTreeKeepsAbsent(items: seq<Pending>, doc: Document, id: string, fuel: nat, m: nat, y: string)
    requires AbsentFrom(items, m, y)
    ensures AbsentFrom(StripTree(items, doc, id, fuel), m, y)
    decreases fuel, 0, 0
  {
    if fuel > 0 && id in doc {
      StripChildrenKeepsAbsent(items, doc, doc[id].children, 0, fuel - 1, m, y);
    }
  }

  lemma {:induction false} StripChildrenKeepsAbsent(items: seq<Pending>, doc: Document, kids: seq<string>, i: nat, fuel: nat,
                                                   m: nat, y: string)
    requires AbsentFrom(items, m, y)
    ensures AbsentFrom(StripChildren(items, doc, kids, i, fuel), m, y)
    decreases fuel, 1, |kids| - i
  {
    if i < |kids| {
      var once := RemoveByIdSwap(items, kids[i]);
      RemoveByIdSwapKeepsAbsent(items, kids[i], m, y);
      StripTreeKeepsAbsent(once, doc, kids[i], fuel, m, y);
      StripChildrenKeepsAbsent(StripTree(once, doc, kids[i], fuel), doc, kids, i + 1, fuel, m, y);
    }
  }

  /** Stripping keeps the ids distinct. */
  lemma {:induction false} StripTreeDistinct(items: seq<Pending>, doc: Document, id: string, fuel: nat)
    requires DistinctIds(items)
    ensures DistinctIds(StripTree(items, doc, id, fuel))
    decreases fuel, 0, 0
  {
    if fuel > 0 && id in doc {
      StripChildrenDistinct(items, doc, doc[id].children, 0, fuel - 1);
    }
  }

  lemma {:induction false} StripChildrenDistinct(items: seq<Pending>, doc: Document, kids: seq<string>, i: nat, fuel: nat)
    requires DistinctIds(items)
    ensures DistinctIds(StripChildren(items, doc, kids, i, fuel))
    decreases fuel, 1, |kids| - i
  {
    if i < |kids| {
      var once := RemoveByIdSwap(items, kids[i]);
      RemoveByIdSwapClears(items, kids[i]);
      StripTreeDistinct(once, doc, kids[i], fuel);
      StripChildrenDistinct(StripTree(once, doc, kids[i], fuel), doc, kids, i + 1, fuel);
    }
  }

  /** With distinct ids, no item naming a node below id survives the strip. */
  lemma {:induction false} StripTreeRemoves(items: seq<Pending>, doc: Document, id: string, fuel: nat, y: string)
    requires DistinctIds(items) && Below(doc, id, y, fuel)
    ensures Absent(StripTree(items, doc, id, fuel), y)
    decreases fuel, 0, 0
  {
    var kids := doc[id].children;
    var j :| 0 <= j < |kids| && (kids[j] == y || Below(doc, kids[j], y, fuel - 1));
    StripChildrenRemoves(items, doc, kids, 0, fuel - 1, y, j);
  }

  lemma {:induction false} StripChildrenRemoves(items: seq<Pending>, doc: Document, kids: seq<string>, i: nat, fuel: nat,
                                               y: string, j: nat)
    requires DistinctIds(items)
    requires i <= j < |kids| && (kids[j] == y || Below(doc, kids[j], y, fuel))
    ensures Absent(StripChildren(items, doc, kids, i, fuel), y)
    decreases fuel, 1, |kids| - i
  {
    var once := RemoveByIdSwap(items, kids[i]);
    var next := StripTree(once, doc, kids[i], fuel);
    RemoveByIdSwapClears(items, kids[i]);
    if j == i {
      if kids[i] == y {
        StripTreeKeepsAbsent(once, doc, kids[i], fuel, 0, y);
      } else {
        StripTreeRemoves(once, doc, kids[i], fuel, y);
      }
      StripChildrenKeepsAbsent(next, doc, kids, i + 1, fuel, 0, y);
    } else {
      StripTreeDistinct(once, doc, kids[i], fuel);
      StripChildrenRemoves(next, doc, kids, i + 1, fuel, y, j);
    }
  }

  /** An item naming no node below id is kept, as many times as it was queued. */
  lemma {:induction false} StripTreeKeeps(items: seq<Pending>, doc: Document, id: string, fuel: nat, p: Pending)
    requires !Below(doc, id, p.nodeId, fuel)
    ensures multiset(StripTree(items, doc, id, fuel))[p] == multiset(items)[p]
    decreases fuel, 0, 0
  {
    if fuel > 0 && id in doc {
      StripChildrenKeeps(items, doc, doc[id].children, 0, fuel - 1, p);
    }
  }

  lemma {:induction false} StripChildrenKeeps(items: seq<Pending>, doc: Document, kids: seq<string>, i: nat, fuel: nat, p: Pending)
    requires forall j :: i <= j < |kids| ==> kids[j] != p.nodeId && !Below(doc, kids[j], p.nodeId, fuel)
    ensures multiset(StripChildren(items, doc, kids, i, fuel))[p] == multiset(items)[p]
    decreases fuel, 1, |kids| - i
  {
    if i < |kids| {
      var once := RemoveByIdSwap(items, kids[i]);
      RemoveByIdSwapKeepsOthers(items, kids[i], p);
      StripTreeKeeps(once, doc, kids[i], fuel, p);
      StripChildrenKeeps(StripTree(once, doc, kids[i], fuel), doc, kids, i + 1, fuel, p);
    }
  }

  /**
   * `removeAnimatedNodeTree(el)` on a queue with distinct ids: no item
   * naming a node below el remains, every other item remains, and nothing
   * is added.
   */
  lemma StripTreeEffect(items: seq<Pending>, doc: Document, id: string, fuel: nat)
    requires DistinctIds(items)
    ensures var r := StripTree(items, doc, id, fuel);
      && DistinctIds(r)
      && multiset(r) <= multiset(items)
      && (forall x :: Below(doc, id, x, fuel) ==> Absent(r, x))
      && (forall p: Pending :: !Below(doc, id, p.nodeId, fuel) ==> multiset(r)[p] == multiset(items)[p])
  {
    StripTreeDistinct(items, doc, id, fuel);
    StripTreeShrinks(items, doc, id, fuel);
    forall x | Below(doc, id, x, fuel) ensures Absent(StripTree(items, doc, id, fuel), x) {
      StripTreeRemoves(items, doc, id, fuel, x);
    }
    forall p: Pending | !Below(doc, id, p.nodeId, fuel) ensures multiset(StripTree(items, doc, id, fuel))[p] == multiset(items)[p] {
      StripTreeKeeps(items, doc, id, fuel, p);
    }
  }

  // ---- removeInactiveNodes, second pass ----

  /** The exit animation is armed: an `animationend` listener, then the exit class. */
  function ArmExit(doc: Document, id: string, cls: string): (d: Document)
    ensures d.Keys == doc.Keys
    ensures forall k :: k in doc ==> d[k].parent == doc[k].parent && d[k].children == doc[k].children
    ensures forall k :: k in doc && k != id ==> d[k] == doc[k]
  {
    if id in doc
    then doc[id := doc[id].(listeners := doc[id].listeners + [RemoveOnAnimationEnd(cls)],
                            className := AddClass(doc[id].className, cls))]
    else doc
  }

  /** Truthy exit class: present and not empty. */
  predicate Animated(p: Pending)
  {
    p.entry.exitAnimationId.Some? && |p.entry.exitAnimationId.value| > 0
  }

  /**
   * `toRemove.forEach(...)` from position k, with `len` the length forEach
   * read when it started: a position past the current end is skipped (the
   * queue shrinks while it is walked). An animated item has its descendants
   * taken out of the queue and its exit armed; any other item's element is
   * detached at once.
   */
  function Schedule(doc: Document, items: seq<Pending>, k: nat, len: nat): (r: (Document, seq<Pending>))
    ensures r.0.Keys == doc.Keys
    decreases len - k
  {
    if k >= len then (doc, items)
    else if k >= |items| then Schedule(doc, items, k + 1, len)
    else
      var v := Visit(doc, items, k);
      Schedule(v.0, v.1, k + 1, len)
  }

  /** forEach's callback on the item at position k. */
  function Visit(doc: Document, items: seq<Pending>, k: nat): (r: (Document, seq<Pending>))
    requires k < |items|
    ensures r.0.Keys == doc.Keys
  {
    var it := items[k];
    if Animated(it)
    then (ArmExit(doc, it.nodeId, it.entry.exitAnimationId.value), StripTree(items, doc, it.nodeId, |doc|))
    else (Detach(doc, it.nodeId), items)
  }

  /**
   * The walk from k up to m, then on from m, is the walk from k: forEach's
   * bound is the only place `len` enters.
   */
  lemma {:induction false} ScheduleSplit(doc: Document, items: seq<Pending>, k: nat, m: nat, len: nat)
    requires k <= m <= len
    ensures var r := Schedule(doc, items, k, m);
      Schedule(doc, items, k, len) == Schedule(r.0, r.1, m, len)
    decreases m - k
  {
    if k < m {
      if k >= |items| {
        assert Schedule(doc, items, k, len) == Schedule(doc, items, k + 1, len);
        assert Schedule(doc, items, k, m) == Schedule(doc, items, k + 1, m);
        ScheduleSplit(doc, items, k + 1, m, len);
      } else {
        var v := Visit(doc, items, k);
        assert Schedule(doc, items, k, len) == Schedule(v.0, v.1, k + 1, len);
        assert Schedule(doc, items, k, m) == Schedule(v.0, v.1, k + 1, m);
        ScheduleSplit(v.0, v.1, k + 1, m, len);
      }
    }
  }

  /**
   * An element that no item from position k on names keeps everything but
   * its children: the walk only arms or detaches the elements it visits,
   * and detaching one changes only its parent's children.
   */
  lemma {:induction false} ScheduleFrame(doc: Document, items: seq<Pending>, k: nat, len: nat, y: string)
    requires AbsentFrom(items, k, y) && y in doc
    ensures var f := Schedule(doc, items, k, len).0;
      f[y] == doc[y].(children := f[y].children)
    decreases len - k
  {
    if k < len {
      if k >= |items| {
        ScheduleFrame(doc, items, k + 1, len, y);
      } else {
        var it := items[k];
        if Animated(it) {
          var d := ArmExit(doc, it.nodeId, it.entry.exitAnimationId.value);
          StripTreeKeepsAbsent(items, doc, it.nodeId, |doc|, k + 1, y);
          ScheduleFrame(d, StripTree(items, doc, it.nodeId, |doc|), k + 1, len, y);
        } else {
          ScheduleFrame(Detach(doc, it.nodeId), items, k + 1, len, y);
        }
      }
    }
  }

  /** Up to m with no animated item on the way, the queue is untouched and an element none of them names keeps all but its children. */
  lemma {:induction false} PlainPrefix(doc: Document, items: seq<Pending>, k: nat, m: nat, y: string)
    requires k <= m <= |items|
    requires forall j :: k <= j < m ==> !Animated(items[j])
    requires y in doc && forall j :: k <= j < m ==> items[j].nodeId != y
    ensures var r := Schedule(doc, items, k, m);
      r.1 == items && r.0[y] == doc[y].(children := r.0[y].children)
    decreases m - k
  {
    if k < m {
      assert Visit(doc, items, k) == (Detach(doc, items[k].nodeId), items);
      PlainPrefix(Detach(doc, items[k].nodeId), items, k + 1, m, y);
    }
  }

  /**
   * In a queue of distinct ids, an item that no animated item precedes is
   * handled as its kind says: an animated one ends with its `animationend`
   * listener added, the exit class added and its parent kept; any other one
   * ends detached with its listeners and classes kept. Nothing else of the
   * element but its children changes.
   */
  lemma ScheduleItemEffect(doc: Document, items: seq<Pending>, len: nat, i: nat)
    requires DistinctIds(items) && i < len && i < |items| && items[i].nodeId in doc
    requires forall j :: 0 <= j < i ==> !Animated(items[j])
    ensures var id, f := items[i].nodeId, Schedule(doc, items, 0, len).0;
      && (Animated(items[i]) ==>
            var cls := items[i].entry.exitAnimationId.value;
            f[id] == doc[id].(listeners := doc[id].listeners + [RemoveOnAnimationEnd(cls)],
                              className := AddClass(doc[id].className, cls), children := f[id].children))
      && (!Animated(items[i]) ==> f[id] == doc[id].(parent := None, children := f[id].children))
  {
    var id := items[i].nodeId;
    ScheduleSplit(doc, items, 0, i, len);
    PlainPrefix(doc, items, 0, i, id);
    var d1 := Schedule(doc, items, 0, i).0;
    assert AbsentFrom(items, i + 1, id);
    if Animated(items[i]) {
      var cls := items[i].entry.exitAnimationId.value;
      StripTreeKeepsAbsent(items, d1, id, |d1|, i + 1, id);
      ScheduleFrame(ArmExit(d1, id, cls), StripTree(items, d1, id, |d1|), i + 1, len, id);
    } else {
      ScheduleFrame(Detach(d1, id), items, i + 1, len, id);
    }
  }

  /** The walk only takes items out of the queue, and keeps its ids distinct. */
  lemma {:induction false} ScheduleQueue(doc: Document, items: seq<Pending>, k: nat, len: nat)
    requires DistinctIds(items)
    ensures var q := Schedule(doc, items, k, len).1;
      DistinctIds(q) && multiset(q) <= multiset(items)
    decreases len - k
  {
    if k < len {
      if k >= |items| {
        ScheduleQueue(doc, items, k + 1, len);
      } else {
        var it := items[k];
        var v := Visit(doc, items, k);
        assert Schedule(doc, items, k, len) == Schedule(v.0, v.1, k + 1, len);
        if Animated(it) {
          assert v.1 == StripTree(items, doc, it.nodeId, |doc|);
          StripTreeDistinct(items, doc, it.nodeId, |doc|);
          StripTreeShrinks(items, doc, it.nodeId, |doc|);
        } else {
          assert v.1 == items;
        }
        ScheduleQueue(v.0, v.1, k + 1, len);
      }
    }
  }

  /**
   * Whatever came before: in a queue of distinct ids, the item forEach finds
   * at position i (in the queue as it then is) is handled as its kind says,
   * against the document as it then is, and later visits leave all of that
   * element but its children alone.
   */
  lemma ScheduleVisitEffect(doc: Document, items: seq<Pending>, len: nat, i: nat)
    requires DistinctIds(items) && i < len
    ensures var r := Schedule(doc, items, 0, i);
      i < |r.1| && r.1[i].nodeId in doc ==>
        var it, d, f := r.1[i], r.0, Schedule(doc, items, 0, len).0;
        && (Animated(it) ==>
              var cls := it.entry.exitAnimationId.value;
              f[it.nodeId] == d[it.nodeId].(listeners := d[it.nodeId].listeners + [RemoveOnAnimationEnd(cls)],
                                            className := AddClass(d[it.nodeId].className, cls),
                                            children := f[it.nodeId].children))
        && (!Animated(it) ==> f[it.nodeId] == d[it.nodeId].(parent := None, children := f[it.nodeId].children))
  {
    var r := Schedule(doc, items, 0, i);
    ScheduleSplit(doc, items, 0, i, len);
    ScheduleQueue(doc, items, 0, i);
    if i < |r.1| && r.1[i].nodeId in doc {
      var q, d1, id := r.1, r.0, r.1[i].nodeId;
      assert AbsentFrom(q, i + 1, id);
      if Animated(q[i]) {
        var cls := q[i].entry.exitAnimationId.value;
        StripTreeKeepsAbsent(q, d1, id, |d1|, i + 1, id);
        ScheduleFrame(ArmExit(d1, id, cls), StripTree(q, d1, id, |d1|), i + 1, len, id);
      } else {
        ScheduleFrame(Detach(d1, id), q, i + 1, len, id);
      }
    }
  }

  /** An element that no queued item names keeps everything but its children. */
  lemma ScheduleLeavesOthers(doc: Document, items: seq<Pending>, len: nat, y: string)
    requires Absent(items, y) && y in doc
    ensures var f := Schedule(doc, items, 0, len).0;
      f[y] == doc[y].(children := f[y].children)
  {
    ScheduleFrame(doc, items, 0, len, y);
  }

  /** Without exit animations the queue never shrinks, and every queued element is detached. */
  lemma {:induction false} NoAnimationDetachesAll(doc: Document, items: seq<Pending>, k: nat, len: nat, i: nat)
    requires len <= |items|
    requires forall j :: 0 <= j < |items| ==> !Animated(items[j])
    requires k <= i < len && items[i].nodeId in doc
    ensures Schedule(doc, items, k, len).0[items[i].nodeId].parent == None
    decreases len - k
  {
    var d := Detach(doc, items[k].nodeId);
    assert Visit(doc, items, k) == (d, items);
    if k < i {
      NoAnimationDetachesAll(d, items, k + 1, len, i);
    } else {
      DetachedStaysDetached(d, items, k + 1, len, items[i].nodeId);
    }
  }

  /** Detaching other elements keeps a detached element detached. */
  lemma {:induction false} DetachedStaysDetached(doc: Document, items: seq<Pending>, k: nat, len: nat, id: string)
    requires len <= |items|
    requires forall j :: 0 <= j < |items| ==> !Animated(items[j])
    requires id in doc && doc[id].parent == None
    ensures Schedule(doc, items, k, len).0[id].parent == None
    decreases len - k
  {
    if k < len {
      assert Visit(doc, items, k) == (Detach(doc, items[k].nodeId), items);
      DetachedStaysDetached(Detach(doc, items[k].nodeId), items, k + 1, len, id);
    }
  }

  /**
   * As written, the swap can move an item that forEach has not reached into
   * a slot it has passed: with A (animated) a child of B (animated) queued
   * before C (not animated), B's pass moves C into A's old slot and pops the
   * end, so C's element is never detached although its registry entry is gone.
   */
  lemma SwapSkipsQueuedItem(doc: Document)
    requires doc == map["A" := CreateElement(Div).(parent := Some("B")),
                        "B" := CreateElement(Div).(parent := Some("root"), children := ["A"]),
                        "C" := CreateElement(Div).(parent := Some("root"))]
    ensures Schedule(doc, SkipExample(), 0, 3).0["C"].parent == Some("root")
  {
    assert "A" in doc && "B" in doc && "C" in doc;
    SkipSteps(doc);
  }

  /** The walk of that example, for any document where B's only child is A and A has none. */
  lemma SkipSteps(doc: Document)
    requires "A" in doc && "B" in doc && "C" in doc
    requires doc["A"].children == [] && doc["B"].children == ["A"]
    ensures Schedule(doc, SkipExample(), 0, 3).0["C"] == doc["C"]
  {
    var items := SkipExample();
    var left := [items[2], items[1]];
    var n := |doc|;
    var d1 := ArmExit(doc, "A", "fade");
    assert StripTree(items, doc, "A", n) == items;
    assert Schedule(doc, items, 0, 3) == Schedule(d1, items, 1, 3);
    SkipStripB(d1, items, left, n);
    assert Schedule(d1, items, 1, 3) == Schedule(ArmExit(d1, "B", "fade"), left, 2, 3);
  }

  lemma SkipStripB(d1: Document, items: seq<Pending>, left: seq<Pending>, n: nat)
    requires items == SkipExample() && left == [items[2], items[1]]
    requires "A" in d1 && d1["A"].children == [] && "B" in d1 && d1["B"].children == ["A"] && n >= 1
    ensures StripTree(items, d1, "B", n) == left
  {
    assert RemoveByIdSwap(items, "A") == left by {
      assert FindIndex(items, "A") == 0;
    }
    assert StripTree(left, d1, "A", n - 1) == left;
    assert StripChildren(left, d1, ["A"], 1, n - 1) == left;
  }

  /** The queue of that example: A and B animated, C not. */
  function SkipExample(): (items: seq<Pending>)
    ensures |items| == 3 && Animated(items[0]) && Animated(items[1]) && !Animated(items[2])
  {
    [Pending("A", Entry(Some("fade"), None)), Pending("B", Entry(Some("fade"), None)), Pending("C", Entry(None, None))]
  }

  /**
   * `animationend` with `animationName` equal to name on element id: every
   * matching exit listener removes itself and detaches the element; a
   * different name changes nothing.
   */
  function AnimationEnd(doc: Document, id: string, name: string): (d: Document)
    ensures d.Keys == doc.Keys
  {
    if id in doc && RemoveOnAnimationEnd(name) in doc[id].listeners
    then Detach(doc[id := doc[id].(listeners := Drop(doc[id].listeners, RemoveOnAnimationEnd(name)))], id)
    else doc
  }

  function Drop(ls: seq<Listener>, l: Listener): (r: seq<Listener>)
    ensures l !in r
    ensures forall x :: x in ls && x != l ==> x in r
    ensures forall x :: x in r ==> x in ls
  {
    if ls == [] then [] else if ls[0] == l then Drop(ls[1..], l) else [ls[0]] + Drop(ls[1..], l)
  }

  /** The element leaves the page iff it was armed for that animation name, and the listener goes with it. */
  lemma AnimationEndDetaches(doc: Document, id: string, name: string)
    requires id in doc
    ensures var d := AnimationEnd(doc, id, name);
      (RemoveOnAnimationEnd(name) in doc[id].listeners ==>
         d[id].parent == None && RemoveOnAnimationEnd(name) !in d[id].listeners)
      && (RemoveOnAnimationEnd(name) !in doc[id].listeners ==> d == doc)
  {
  }

  /** An armed element has the exit class and the listener, and stays where it is. */
  lemma ArmExitArms(doc: Document, id: string, cls: string)
    requires id in doc && cls != "" && Plain(cls)
    ensures var d := ArmExit(doc, id, cls);
      d[id].parent == doc[id].parent && d[id].children == doc[id].children
      && RemoveOnAnimationEnd(cls) in d[id].listeners
      && cls in Tokens(d[id].className)
  {
    AddClassHasToken(doc[id].className, cls);
  }

  // ---- removeRouteSpecificNodes ----

  /** `layout-${parentPath}`, where parentPath is "/" and the non-empty segments of path but the last, joined by "/". */
  function LayoutId(path: string): string
  {
    var segments := NonEmpty(Split(path, '/'));
    var parent := if |segments| == 0 then [] else segments[..|segments| - 1];
    "layout-/" + Join(parent, '/')
  }

  /** For a path "/s1/.../sn" the kept layout is the one of "/s1/.../s(n-1)". */
  lemma LayoutIdOfSegments(segments: seq<string>)
    requires |segments| >= 1
    requires forall i :: 0 <= i < |segments| ==> segments[i] != "" && '/' !in segments[i]
    ensures LayoutId("/" + Join(segments, '/')) == "layout-/" + Join(segments[..|segments| - 1], '/')
  {
    var joined := Join(segments, '/');
    SplitJoin(segments, '/');
    SplitSep(joined, '/');
    assert Split("/" + joined, '/') == [""] + segments;
    NonEmptyConcat([""], segments);
    NonEmptyKeepsNonEmpty(segments);
    assert NonEmpty([""]) == [];
    assert NonEmpty(Split("/" + joined, '/')) == segments;
  }
}

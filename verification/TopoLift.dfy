/**
 The lift-up pass: every NIC list moves to the closest node with a group count, or stays where it is
 and counts its own NICs as groups. No NIC is lost or copied on the way.
 */
module TopoLift {
  import opened TopoTree
  import opened TopoData
  import opened TopoGroups

  /** All NICs of all lists, with multiplicity. */
  ghost function Pool(data: seq<Data>): multiset<int>
  {
    if data == [] then multiset{} else multiset(data[0].list) + Pool(data[1..])
  }

  lemma {:induction false} Cancel(a: multiset<int>, b: multiset<int>, c: multiset<int>)
    requires a + c == b + c
    ensures a == b
  {
    forall x ensures a[x] == b[x] {
      assert (a + c)[x] == a[x] + c[x] && (b + c)[x] == b[x] + c[x];
    }
  }

  lemma {:induction false} PoolUpdate(data: seq<Data>, i: nat, x: Data)
    requires i < |data|
    ensures Pool(data[i := x]) + multiset(data[i].list) == Pool(data) + multiset(x.list)
  {
    if i == 0 {
      assert data[i := x][1..] == data[1..];
    } else {
      assert data[i := x][1..] == data[1..][i - 1 := x];
      PoolUpdate(data[1..], i - 1, x);
      var head := multiset(data[0].list);
      assert Pool(data[i := x]) + multiset(data[i].list) == head + (Pool(data[1..][i - 1 := x]) + multiset(data[i].list));
      assert Pool(data) + multiset(x.list) == head + (Pool(data[1..]) + multiset(x.list));
    }
  }

  /** A NIC in the pool is in one of the lists. */
  lemma {:induction false} PoolFind(data: seq<Data>, x: int) returns (d: nat)
    requires x in Pool(data)
    ensures d < |data| && x in data[d].list
  {
    if x in data[0].list {
      d := 0;
    } else {
      d := PoolFind(data[1..], x);
      d := d + 1;
    }
  }

  lemma {:induction false} PoolAtLeast(data: seq<Data>, d: nat, x: int)
    requires d < |data|
    ensures Pool(data)[x] >= multiset(data[d].list)[x]
  {
    if d > 0 {
      assert data[1..][d - 1] == data[d];
      PoolAtLeast(data[1..], d - 1, x);
    }
  }

  /** A NIC in two lists is in the pool twice. */
  lemma {:induction false} PoolTwice(data: seq<Data>, d: nat, e: nat, x: int)
    requires d < e < |data|
    ensures Pool(data)[x] >= multiset(data[d].list)[x] + multiset(data[e].list)[x]
  {
    assert data[1..][e - 1] == data[e];
    if d == 0 {
      PoolAtLeast(data[1..], e - 1, x);
    } else {
      assert data[1..][d - 1] == data[d];
      PoolTwice(data[1..], d - 1, e - 1, x);
    }
  }

  /** What the pass keeps for one object, and what it has done to those below i. */
  ghost predicate LiftedOne(d: Data, nics: set<int>, grouped: set<int>, visited: bool)
  {
    && d.len == |d.list|
    && (if d.node in nics
        then (d.list == [] || d.list == [d.node])
             && (d.groups > 0 ==> d.list == [d.node])
             && (!visited ==> d.groups == 0)
             && (visited && d.list != [] ==> d.groups > 0)
        else (d.groups > 0 <==> d.node in grouped) && (d.list != [] ==> d.groups > 0))
  }

  /** Every NIC is still at its own node or at the closest node with a group count. */
  ghost predicate AtClosest(t: Tree, nics: set<int>, grouped: set<int>, d: Data)
    requires WellFormed(t)
  {
    forall x :: x in d.list ==> x in nics && IsNode(t, x) && (d.node == x || d.node == Closest(t, grouped, x))
  }

  ghost predicate Lifting(t: Tree, nics: set<int>, grouped: set<int>, data: seq<Data>, i: nat)
    requires WellFormed(t)
  {
    && grouped !! nics
    && (forall d :: 0 <= d < |data| ==> LiftedOne(data[d], nics, grouped, d < i) && AtClosest(t, nics, grouped, data[d]))
    && (forall d :: 0 <= d < i && d < |data| && data[d].node in nics && data[d].list != [] ==> Closest(t, grouped, data[d].node) == ROOT)
    && Pool(data) == multiset(nics)
  }

  /** The closest node with a group count on the way from a NIC to the root. */
  method FindGrouped(topo: Topology, obj: int, ghost grouped: set<int>) returns (node: int)
    requires Tied(topo) && obj in topo.Wanted(|topo.pci|) && IsNode(topo.tree, obj)
    requires forall d :: 0 <= d < |topo.data| && topo.data[d].node in Up(topo.tree, obj) ==>
               (topo.data[d].groups > 0 <==> topo.data[d].node in grouped)
    ensures node == Closest(topo.tree, grouped, obj)
    ensures node != ROOT ==> node in topo.Wanted(|topo.pci|) && node in grouped
  {
    hide Reach, Up;
    node := obj;
    UpStep(topo.tree, obj, {});
    while node != ROOT
      invariant node == ROOT || (node in topo.Wanted(|topo.pci|) && IsNode(topo.tree, node) && node in Up(topo.tree, obj))
      invariant Closest(topo.tree, grouped, node) == Closest(topo.tree, grouped, obj)
      decreases node + 1
    {
      ObjectOf(topo, node);
      if topo.data[topo.userdata[node].i].groups > 0 {
        return;
      }
      UpStep(topo.tree, node, {});
      UpMerges(topo.tree, obj, node);
      node := topo.tree.parent[node];
    }
  }

  /** The path of a NIC passes no other NIC. */
  lemma {:induction false} NicPath(topo: Topology, x: int, m: int)
    requires topo.Shape() && Leaves(topo) && x in topo.nics && IsNode(topo.tree, x) && m in Up(topo.tree, x) && m in topo.nics
    ensures m == x
  {
    hide Up;
    var i :| 0 <= i < |topo.pci| && topo.pci[i] == x;
    assert topo.pci[i] in topo.accels + topo.nics;
  }

  /** Moving a list from s to e: the NICs of both are at e afterwards. */
  ghost function Moved(data: seq<Data>, s: nat, e: nat): seq<Data>
    requires s < |data| && e < |data|
  {
    var merged := data[e].(list := data[s].list + data[e].list, len := data[e].len + data[s].len);
    data[e := merged][s := data[s].(list := [], len := 0)]
  }

  lemma {:induction false} MovedPool(data: seq<Data>, s: nat, e: nat)
    requires s < |data| && e < |data| && s != e
    ensures Pool(Moved(data, s, e)) == Pool(data)
  {
    hide Pool;
    var merged := data[e].(list := data[s].list + data[e].list, len := data[e].len + data[s].len);
    PoolUpdate(data, e, merged);
    PoolUpdate(data[e := merged], s, data[s].(list := [], len := 0));
    var moved, kept := multiset(data[s].list), multiset(data[e].list);
    assert multiset(merged.list) == moved + kept;
    Cancel(Pool(data[e := merged]), Pool(data) + moved, kept);
    Cancel(Pool(Moved(data, s, e)), Pool(data), moved);
  }

  lemma {:induction false} MoveLifts(t: Tree, nics: set<int>, grouped: set<int>, data: seq<Data>, s: nat, e: nat)
    requires WellFormed(t) && Lifting(t, nics, grouped, data, s) && s < |data| && e < |data|
    requires data[s].list != [] && data[s].groups == 0
    requires IsNode(t, data[s].node) && data[e].node == Closest(t, grouped, data[s].node) && data[e].node in grouped
    ensures Lifting(t, nics, grouped, Moved(data, s, e), s + 1)
  {
    hide Pool, Closest;
    MovedPool(data, s, e);
    assert data[s].list == [data[s].node];
    assert LiftedOne(data[e], nics, grouped, e < s);
    assert AtClosest(t, nics, grouped, data[e]) && AtClosest(t, nics, grouped, data[s]);
  }

  lemma {:induction false} StayLifts(t: Tree, nics: set<int>, grouped: set<int>, data: seq<Data>, s: nat)
    requires WellFormed(t) && Lifting(t, nics, grouped, data, s) && s < |data|
    requires data[s].list != [] && data[s].groups == 0
    requires IsNode(t, data[s].node) && Closest(t, grouped, data[s].node) == ROOT
    ensures Lifting(t, nics, grouped, data[s := data[s].(groups := data[s].len)], s + 1)
  {
    hide Pool, Closest;
    PoolUpdate(data, s, data[s].(groups := data[s].len));
    Cancel(Pool(data[s := data[s].(groups := data[s].len)]), Pool(data), multiset(data[s].list));
  }

  lemma {:induction false} SkipLifts(t: Tree, nics: set<int>, grouped: set<int>, data: seq<Data>, s: nat)
    requires WellFormed(t) && Lifting(t, nics, grouped, data, s) && s < |data|
    requires data[s].list == [] || data[s].groups > 0
    ensures Lifting(t, nics, grouped, data, s + 1)
  {
    hide Pool, Closest;
    assert LiftedOne(data[s], nics, grouped, false);
  }

  /** The whole pass. */
  method LiftUp(topo: Topology, ghost grouped: set<int>)
    requires Tied(topo) && Leaves(topo) && Lifting(topo.tree, topo.nics, grouped, topo.data, 0)
    modifies topo`data
    ensures Tied(topo) && SameNodes(old(topo.data), topo.data)
    ensures Lifting(topo.tree, topo.nics, grouped, topo.data, |topo.data|)
  {
    hide Reach, Up, Closest, Pool;
    var i := 0;
    while i < |topo.data|
      invariant 0 <= i <= |topo.data| && Tied(topo) && SameNodes(old(topo.data), topo.data)
      invariant Lifting(topo.tree, topo.nics, grouped, topo.data, i)
    {
      if topo.data[i].list == [] || topo.data[i].groups > 0 {
        SkipLifts(topo.tree, topo.nics, grouped, topo.data, i);
      } else {
        LiftOne(topo, i, grouped);
      }
      i := i + 1;
    }
  }

  /** One list without a group count of its own. */
  method LiftOne(topo: Topology, i: nat, ghost grouped: set<int>)
    requires Tied(topo) && Leaves(topo) && Lifting(topo.tree, topo.nics, grouped, topo.data, i) && i < |topo.data|
    requires topo.data[i].list != [] && topo.data[i].groups == 0
    modifies topo`data
    ensures Tied(topo) && SameNodes(old(topo.data), topo.data)
    ensures Lifting(topo.tree, topo.nics, grouped, topo.data, i + 1)
  {
    hide Reach, Up, Closest, Pool;
    var x := topo.data[i].node;
    assert LiftedOne(topo.data[i], topo.nics, grouped, false);
    NodeOf(topo, i);
    ObjectOf(topo, x);
    forall d | 0 <= d < |topo.data| && topo.data[d].node in Up(topo.tree, x)
      ensures topo.data[d].groups > 0 <==> topo.data[d].node in grouped
    {
      assert LiftedOne(topo.data[d], topo.nics, grouped, d < i);
      if topo.data[d].node in topo.nics {
        NicPath(topo, x, topo.data[d].node);
        NodeOf(topo, d);
      }
    }
    var target := FindGrouped(topo, x, grouped);
    if target == ROOT {
      StayLifts(topo.tree, topo.nics, grouped, topo.data, i);
      topo.data := topo.data[i := topo.data[i].(groups := topo.data[i].len)];
    } else {
      ObjectOf(topo, target);
      var e := topo.userdata[target].i;
      MoveLifts(topo.tree, topo.nics, grouped, topo.data, i, e);
      var merged := topo.data[e].(list := topo.data[i].list + topo.data[e].list, len := topo.data[e].len + topo.data[i].len);
      topo.data := topo.data[e := merged];
      topo.data := topo.data[i := topo.data[i].(list := [], len := 0)];
    }
  }
}

/**
 The splitting pass: a list of n NICs with g requested groups becomes min(n, g) groups whose sizes differ
 by at most one, each stored at the node of its first NIC.

 Storing a group overwrites the list at its leader's node. No NIC is lost by that, because the leader is
 out of its own node's list whenever it is in the list being split.
 */
module TopoSplit {
  import opened Arithmetic
  import opened TopoTree
  import opened TopoData
  import opened TopoGroups
  import opened TopoLift

  // Sizes

  /** The j-th of g groups of n NICs. */
  ghost function SizeOf(n: nat, g: nat, j: nat): nat
    requires g > 0
  {
    n / g + if j < n % g then 1 else 0
  }

  /** The NICs in the first j groups. */
  ghost function Taken(n: nat, g: nat, j: nat): int
    requires g > 0
  {
    j * (n / g) + if j < n % g then j else n % g
  }

  lemma {:induction false} TakenNext(n: nat, g: nat, j: nat)
    requires 0 < g <= n && j < g
    ensures Taken(n, g, j + 1) == Taken(n, g, j) + SizeOf(n, g, j)
    ensures Taken(n, g, 0) == 0 && Taken(n, g, g) == n && SizeOf(n, g, j) >= 1
    ensures 0 <= Taken(n, g, j) && Taken(n, g, j) + SizeOf(n, g, j) <= n
  {
    var q, r := n / g, n % g;
    assert n == g * q + r;
    assert (j + 1) * q == j * q + q;
    assert 0 * q == 0;
    MulNonNegative(j, q);
    assert g * q == (j + 1) * q + (g - j - 1) * q;
    MulNonNegative(g - j - 1, q);
    DivAtLeastOne(n, g);
  }

  // The pass

  ghost predicate GroupedOne(d: Data, nics: set<int>)
  {
    && d.len == |d.list|
    && (d.node in nics ==> d.list == [] || d.list[0] == d.node)
    && (d.node in nics && d.groups > 0 ==> d.list == [d.node])
    && (d.list != [] && d.groups == 0 ==> d.node in nics)
  }

  /** Between the objects and the NICs in hand every NIC is there once; objects below i are done. */
  ghost predicate Grouping(nics: set<int>, data: seq<Data>, i: nat, hand: multiset<int>)
  {
    && (forall d :: 0 <= d < |data| ==> GroupedOne(data[d], nics))
    && (forall d :: 0 <= d < |data| && d < i && data[d].list != [] ==> data[d].groups == 0)
    && Pool(data) + hand == multiset(nics)
  }

  lemma {:induction false} LiftedGroups(t: Tree, nics: set<int>, grouped: set<int>, data: seq<Data>)
    requires WellFormed(t) && Lifting(t, nics, grouped, data, |data|)
    ensures Grouping(nics, data, 0, multiset{})
  {
    hide Pool, AtClosest;
    forall d | 0 <= d < |data| ensures GroupedOne(data[d], nics) {
      assert LiftedOne(data[d], nics, grouped, true);
    }
  }

  lemma {:induction false} PoolLacks(data: seq<Data>, d: nat, x: int)
    requires d < |data| && x !in Pool(data)
    ensures x !in data[d].list
  {
    if d > 0 {
      assert data[1..][d - 1] == data[d];
      PoolLacks(data[1..], d - 1, x);
    }
  }

  /** The node of a NIC in hand holds no list and no group count. */
  lemma {:induction false} LeaderFree(nics: set<int>, data: seq<Data>, i: nat, hand: multiset<int>, e: nat)
    requires Grouping(nics, data, i, hand) && e < |data| && data[e].node in hand
    ensures data[e].node in nics && data[e].list == [] && data[e].groups == 0
  {
    hide Pool;
    var x := data[e].node;
    assert x in Pool(data) + hand;
    assert GroupedOne(data[e], nics);
    assert (Pool(data) + hand)[x] == Pool(data)[x] + hand[x];
    assert multiset(nics)[x] == 1;
    PoolLacks(data, e, x);
  }

  lemma {:induction false} StoreGroups(nics: set<int>, data: seq<Data>, i: nat, rest: seq<int>, e: nat, size: nat)
    requires Grouping(nics, data, i, multiset(rest)) && e < |data| && 0 < size <= |rest| && data[e].node == rest[0]
    ensures Grouping(nics, data[e := data[e].(list := rest[..size], len := size)], i, multiset(rest[size..]))
  {
    hide Pool;
    LeaderFree(nics, data, i, multiset(rest), e);
    var stored := data[e].(list := rest[..size], len := size);
    PoolUpdate(data, e, stored);
    assert rest == rest[..size] + rest[size..];
    assert multiset(rest) == multiset(rest[..size]) + multiset(rest[size..]);
    assert Pool(data[e := stored]) == Pool(data) + multiset(rest[..size]);
    assert Pool(data[e := stored]) + multiset(rest[size..]) == Pool(data) + multiset(rest);
  }

  lemma {:induction false} TakeGroups(nics: set<int>, data: seq<Data>, i: nat)
    requires Grouping(nics, data, i, multiset{}) && i < |data|
    ensures Grouping(nics, data[i := data[i].(list := [], len := 0, groups := 0)], i + 1, multiset(data[i].list))
  {
    hide Pool;
    PoolUpdate(data, i, data[i].(list := [], len := 0, groups := 0));
  }

  ghost function Flat(groups: seq<seq<int>>): seq<int>
  {
    if groups == [] then [] else Flat(groups[..|groups| - 1]) + groups[|groups| - 1]
  }

  /** The groups made so far, with what is left of the list. */
  ghost predicate Split(groups: seq<seq<int>>, list: seq<int>, rest: seq<int>, g: nat)
    requires g > 0
  {
    && (forall j :: 0 <= j < |groups| ==> |groups[j]| == SizeOf(|list|, g, j))
    && Flat(groups) + rest == list
  }

  lemma {:induction false} FlatNext(groups: seq<seq<int>>, group: seq<int>)
    ensures Flat(groups + [group]) == Flat(groups) + group
  {
    assert (groups + [group])[..|groups|] == groups;
  }

  lemma {:induction false} SplitNext(groups: seq<seq<int>>, list: seq<int>, rest: seq<int>, g: nat)
    requires g > 0 && Split(groups, list, rest, g) && SizeOf(|list|, g, |groups|) <= |rest|
    ensures var size := SizeOf(|list|, g, |groups|); Split(groups + [rest[..size]], list, rest[size..], g)
  {
    hide SizeOf, Flat;
    var size := SizeOf(|list|, g, |groups|);
    var group, left := rest[..size], rest[size..];
    FlatNext(groups, group);
    Regroup(Flat(groups), group, left);
    assert rest == group + left;
  }

  lemma {:induction false} Regroup(a: seq<int>, b: seq<int>, c: seq<int>)
    ensures (a + b) + c == a + (b + c)
  {
  }

  /** The group is the list at its leader's node. */
  ghost predicate PlacedOne(userdata: seq<Ptr>, data: seq<Data>, group: seq<int>)
  {
    && group != [] && 0 <= group[0] < |userdata| && userdata[group[0]].Item?
    && userdata[group[0]].i < |data| && data[userdata[group[0]].i].list == group
  }

  ghost predicate Placed(userdata: seq<Ptr>, data: seq<Data>, groups: seq<seq<int>>)
  {
    forall j :: 0 <= j < |groups| ==> PlacedOne(userdata, data, groups[j])
  }

  /** Storing a group where there was no list keeps the groups stored before. */
  lemma {:induction false} PlacedNext(userdata: seq<Ptr>, data: seq<Data>, groups: seq<seq<int>>, group: seq<int>, e: nat, d: Data)
    requires Placed(userdata, data, groups) && e < |data| && data[e].list == [] && d.list == group
    requires group != [] && 0 <= group[0] < |userdata| && userdata[group[0]] == Item(e)
    ensures Placed(userdata, data[e := d], groups + [group])
  {
    forall j | 0 <= j < |groups| ensures PlacedOne(userdata, data[e := d], groups[j]) {
      assert PlacedOne(userdata, data, groups[j]);
    }
  }

  /** The first NIC of a list, or the null pointer's stand-in. */
  function Head(list: seq<int>): int
  {
    if list == [] then ROOT else list[0]
  }

  /** Stores the first `size` NICs of the rest at the leader's node; the checks of the source never fail. */
  method StoreGroup(topo: Topology, rest: seq<int>, size: nat, last: bool, ghost i: nat)
    returns (ret: int, stop: bool, ghost e: nat)
    requires Tied(topo) && Grouping(topo.nics, topo.data, i, multiset(rest)) && 0 < size <= |rest|
    modifies topo`data
    ensures ret == 0 && !stop
    ensures Tied(topo) && SameNodes(old(topo.data), topo.data)
    ensures Grouping(topo.nics, topo.data, i, multiset(rest[size..]))
    ensures 0 <= rest[0] < |topo.userdata| && topo.userdata[rest[0]] == Item(e)
    ensures e < |topo.data| && old(topo.data)[e].list == []
    ensures topo.data == old(topo.data)[e := old(topo.data)[e].(list := rest[..size], len := size)]
  {
    hide Reach, Up, Pool;
    var x := rest[0];
    InHand(topo.nics, topo.data, i, rest);
    NicMarks(topo, x);
    ObjectOf(topo, x);
    var at := topo.userdata[x].i;
    e := at;
    LeaderFree(topo.nics, topo.data, i, multiset(rest), at);
    if Head(topo.data[at].list) == x {
      if last {
        return 0, true, at;
      }
      return -EINVAL, false, at;
    }
    StoreGroups(topo.nics, topo.data, i, rest, at, size);
    topo.data := topo.data[at := topo.data[at].(list := rest[..size], len := size)];
    return 0, false, at;
  }

  lemma {:induction false} InHand(nics: set<int>, data: seq<Data>, i: nat, rest: seq<int>)
    requires Grouping(nics, data, i, multiset(rest)) && rest != []
    ensures rest[0] in nics
  {
    hide Pool;
    assert rest[0] in Pool(data) + multiset(rest);
  }

  /** What the loop over the groups keeps. */
  ghost predicate Splitting(topo: Topology, groups: seq<seq<int>>, list: seq<int>, rest: seq<int>, g: nat, i: nat)
    requires g > 0
    reads topo
  {
    && Tied(topo) && Split(groups, list, rest, g) && |rest| == |list| - Taken(|list|, g, |groups|)
    && Grouping(topo.nics, topo.data, i, multiset(rest)) && Placed(topo.userdata, topo.data, groups)
  }

  method Turn(topo: Topology, list: seq<int>, rest: seq<int>, size: nat, g: nat, idx: nat,
              ghost groups: seq<seq<int>>, ghost i: nat)
    returns (ret: int, stop: bool)
    requires 0 < g <= |list| && idx == |groups| < g && size == SizeOf(|list|, g, |groups|) && Splitting(topo, groups, list, rest, g, i)
    modifies topo`data
    ensures ret == 0 && !stop && size <= |rest| && SameNodes(old(topo.data), topo.data)
    ensures Splitting(topo, groups + [rest[..size]], list, rest[size..], g, i)
  {
    hide Grouping, Taken, SizeOf, Tied, Flat;
    TakenNext(|list|, g, |groups|);
    ghost var e;
    ghost var before := topo.data;
    ret, stop, e := StoreGroup(topo, rest, size, idx + 1 == g, i);
    SplitNext(groups, list, rest, g);
    PlacedNext(topo.userdata, before, groups, rest[..size], e, before[e].(list := rest[..size], len := size));
  }

  /** Splits one list; `sort` is the platform's rail order, any permutation. */
  method CreateGroups(topo: Topology, list: seq<int>, numGroups: nat, sort: seq<int> -> seq<int>, ghost i: nat)
    returns (ret: int, ghost groups: seq<seq<int>>)
    requires multiset(sort(list)) == multiset(list)
    requires Tied(topo) && list != [] && numGroups > 0 && Grouping(topo.nics, topo.data, i, multiset(list))
    modifies topo`data
    ensures ret == 0 && Tied(topo) && SameNodes(old(topo.data), topo.data)
    ensures Grouping(topo.nics, topo.data, i, multiset{})
    ensures |groups| == Min(numGroups, |list|) && Flat(groups) == sort(list)
    ensures forall j :: 0 <= j < |groups| ==> |groups[j]| == SizeOf(|list|, Min(numGroups, |list|), j)
    ensures Placed(topo.userdata, topo.data, groups)
  {
    hide Grouping, Taken, SizeOf, Tied, Flat, Placed;
    var n := |list|;
    var g := Min(numGroups, n);
    var large := n % g;
    var size := n / g + 1;
    var rest := sort(list);
    var sorted := rest;
    SameLength(list, rest);
    groups := [];
    var idx := 0;
    TakenNext(n, g, 0);
    FlatEmpty();
    PlacedNone(topo.userdata, topo.data);
    while idx < g
      invariant 0 <= idx <= g && |groups| == idx && SameNodes(old(topo.data), topo.data)
      invariant size == if idx <= large then n / g + 1 else n / g
      invariant Splitting(topo, groups, sorted, rest, g, i)
    {
      if idx == large {
        size := size - 1;
      }
      SizesAt(n, g, idx);
      DivAtLeastOne(n, g);
      if size == 0 {
        break;
      }
      var stop;
      ret, stop := Turn(topo, sorted, rest, size, g, idx, groups, i);
      if ret != 0 {
        return;
      }
      if stop {
        break;
      }
      groups := groups + [rest[..size]];
      rest := rest[size..];
      idx := idx + 1;
    }
    TakenNext(n, g, g - 1);
    ret := 0;
  }

  lemma {:induction false} PlacedNone(userdata: seq<Ptr>, data: seq<Data>)
    ensures Placed(userdata, data, [])
  {
  }

  lemma {:induction false} FlatEmpty()
    ensures Flat([]) == []
  {
  }

  lemma {:induction false} DivAtLeastOne(n: nat, g: nat)
    requires 0 < g <= n
    ensures n / g >= 1
  {
    var q, r := n / g, n % g;
    assert n == g * q + r && r < g;
    assert g * q > 0;
  }

  lemma {:induction false} SizesAt(n: nat, g: nat, j: nat)
    requires g > 0
    ensures SizeOf(n, g, j) == n / g + if j < n % g then 1 else 0
  {
  }

  lemma {:induction false} SameLength(a: seq<int>, b: seq<int>)
    requires multiset(a) == multiset(b)
    ensures |a| == |b|
  {
    assert |multiset(a)| == |a| && |multiset(b)| == |b|;
  }

  /** The result: every NIC is in exactly one list, once, and every list is at the node of its leader. */
  ghost predicate Finished(nics: set<int>, data: seq<Data>)
  {
    && Pool(data) == multiset(nics)
    && forall d :: 0 <= d < |data| && data[d].list != [] ==>
         data[d].node in nics && data[d].list[0] == data[d].node && data[d].len == |data[d].list|
  }

  /** In the result every NIC is in exactly one list, and there exactly once. */
  lemma {:induction false} InExactlyOneList(nics: set<int>, data: seq<Data>, x: int) returns (d: nat)
    requires Finished(nics, data) && x in nics
    ensures d < |data| && multiset(data[d].list)[x] == 1
    ensures forall e :: 0 <= e < |data| && e != d ==> x !in data[e].list
  {
    hide Pool;
    assert multiset(nics)[x] == 1;
    d := PoolFind(data, x);
    PoolAtLeast(data, d, x);
    forall e | 0 <= e < |data| && e != d ensures x !in data[e].list {
      if e < d {
        PoolTwice(data, e, d, x);
      } else {
        PoolTwice(data, d, e, x);
      }
    }
  }

  /** Splits the lists of all nodes with a group count. */
  method CreateAllGroups(topo: Topology, sort: seq<int> -> seq<int>) returns (ret: int)
    requires forall l :: multiset(sort(l)) == multiset(l)
    requires Tied(topo) && Grouping(topo.nics, topo.data, 0, multiset{})
    modifies topo`data
    ensures ret == 0 && Tied(topo) && SameNodes(old(topo.data), topo.data) && Finished(topo.nics, topo.data)
  {
    hide Tied, Pool, Placed, SizeOf, Flat;
    var i := 0;
    while i < |topo.data|
      invariant 0 <= i <= |topo.data| && Tied(topo) && SameNodes(old(topo.data), topo.data)
      invariant Grouping(topo.nics, topo.data, i, multiset{})
    {
      if topo.data[i].list != [] && topo.data[i].groups != 0 {
        ret := SplitAt(topo, i, sort);
        if ret != 0 {
          return;
        }
      }
      i := i + 1;
    }
    ret := 0;
    forall d | 0 <= d < |topo.data| && topo.data[d].list != []
      ensures topo.data[d].node in topo.nics && topo.data[d].list[0] == topo.data[d].node && topo.data[d].len == |topo.data[d].list|
    {
      assert GroupedOne(topo.data[d], topo.nics);
    }
  }

  method SplitAt(topo: Topology, i: nat, sort: seq<int> -> seq<int>) returns (ret: int)
    requires forall l :: multiset(sort(l)) == multiset(l)
    requires Tied(topo) && Grouping(topo.nics, topo.data, i, multiset{}) && i < |topo.data|
    requires topo.data[i].list != [] && topo.data[i].groups != 0
    modifies topo`data
    ensures ret == 0 && Tied(topo) && SameNodes(old(topo.data), topo.data)
    ensures Grouping(topo.nics, topo.data, i + 1, multiset{})
  {
    hide Grouping, Reach, Placed, SizeOf, Flat;
    var list, g := topo.data[i].list, topo.data[i].groups;
    TakeGroups(topo.nics, topo.data, i);
    topo.data := topo.data[i := topo.data[i].(list := [], len := 0, groups := 0)];
    ghost var groups;
    ret, groups := CreateGroups(topo, list, g, sort, i + 1);
  }

  lemma {:induction false} SamePool(a: seq<Data>, b: seq<Data>)
    requires |a| == |b| && forall d :: 0 <= d < |a| ==> a[d].list == b[d].list
    ensures Pool(a) == Pool(b)
  {
    if a != [] {
      SamePool(a[1..], b[1..]);
    }
  }

  ghost predicate DistinctNodes(data: seq<Data>)
  {
    forall i, j :: 0 <= i < j < |data| ==> data[i].node != data[j].node
  }

  ghost predicate HasNode(data: seq<Data>, x: int)
  {
    exists d :: 0 <= d < |data| && data[d].node == x
  }

  lemma {:induction false} HasNodeTail(data: seq<Data>, x: int)
    requires data != []
    ensures HasNode(data, x) <==> data[0].node == x || HasNode(data[1..], x)
    ensures DistinctNodes(data) ==> DistinctNodes(data[1..]) && (data[0].node == x ==> !HasNode(data[1..], x))
  {
    var tail := data[1..];
    assert forall j :: 0 <= j < |tail| ==> tail[j] == data[j + 1];
    if HasNode(data, x) && data[0].node != x {
      var d :| 0 <= d < |data| && data[d].node == x;
      assert tail[d - 1].node == x;
    }
  }

  lemma {:induction false} OwnPool(nics: set<int>, data: seq<Data>, x: int)
    requires AllOwn(nics, data) && DistinctNodes(data)
    ensures Pool(data)[x] == if x in nics && HasNode(data, x) then 1 else 0
  {
    hide DistinctNodes, HasNode;
    if data == [] {
      NoNode(x);
    } else {
      HasNodeTail(data, x);
      OwnPool(nics, data[1..], x);
    }
  }

  lemma {:induction false} NoNode(x: int)
    ensures !HasNode([], x)
  {
  }

  /** In the decorated topology every NIC is in one list. */
  lemma {:induction false} StartPool(topo: Topology)
    requires Tied(topo) && AllOwn(topo.nics, topo.data)
    ensures DistinctNodes(topo.data) && Pool(topo.data) == multiset(topo.nics)
  {
    hide Reach, Up, Pool, AllOwn;
    forall i, j | 0 <= i < j < |topo.data| ensures topo.data[i].node != topo.data[j].node {
      NodeOf(topo, i);
      NodeOf(topo, j);
    }
    forall x ensures Pool(topo.data)[x] == multiset(topo.nics)[x] {
      OwnPool(topo.nics, topo.data, x);
      if x in topo.nics {
        NicMarks(topo, x);
        ObjectOf(topo, x);
      }
    }
  }

  /** No accelerator is counted at a NIC's node. */
  lemma {:induction false} NotAtNic(topo: Topology, marked: set<int>, x: int)
    requires topo.Shape() && Leaves(topo) && x in topo.nics
    ensures Nearest(topo.tree, marked, Accels(topo), x) == {}
  {
    hide Reach, Up, Closest;
    forall a | a in Accels(topo) ensures Closest(topo.tree, marked, a) != x {
      ClosestIs(topo.tree, marked, a);
      var i :| 0 <= i < |topo.pci| && topo.pci[i] == a;
      assert topo.pci[i] in topo.accels + topo.nics;
    }
  }

  ghost function Grouped(data: seq<Data>): set<int>
  {
    set d | 0 <= d < |data| && data[d].groups > 0 :: data[d].node
  }

  /** The state that marking and counting leave is ready for lifting. */
  lemma {:induction false} ReadyToLift(t: Tree, nics: set<int>, own: seq<Data>, data: seq<Data>)
    requires WellFormed(t) && (forall x :: x in nics ==> IsNode(t, x)) && AllOwn(nics, own) && DistinctNodes(own)
    requires SameNodes(own, data) && forall d :: 0 <= d < |data| ==> data[d].list == own[d].list && data[d].len == own[d].len
    requires forall d :: 0 <= d < |data| && data[d].node in nics ==> data[d].groups == 0
    requires Pool(own) == multiset(nics)
    ensures Lifting(t, nics, Grouped(data), data, 0)
  {
    hide Closest, Pool;
    SamePool(own, data);
  }

  /** The four passes: they never fail, and every NIC ends in one group, at its leader's node. */
  method Group(topo: Topology, sort: seq<int> -> seq<int>) returns (ret: int)
    requires forall l :: multiset(sort(l)) == multiset(l)
    requires topo.Decorated() && Leaves(topo)
    modifies topo`data
    ensures ret == 0 && Finished(topo.nics, topo.data) && SameNodes(old(topo.data), topo.data)
  {
    hide Reach, Closest, Up, Pool, Finished, Lifting, Grouping, Nearest;
    ghost var own := topo.data;
    DecoratedOwn(topo);
    StartPool(topo);
    MarkNicSubtrees(topo);
    ghost var marked := NicNodes(topo);
    PropagateCounts(topo, marked);
    forall d | 0 <= d < |topo.data| && topo.data[d].node in topo.nics ensures topo.data[d].groups == 0 {
      NotAtNic(topo, marked, topo.data[d].node);
    }
    ReadyToLift(topo.tree, topo.nics, own, topo.data);
    ghost var grouped := Grouped(topo.data);
    LiftUp(topo, grouped);
    LiftedGroups(topo.tree, topo.nics, grouped, topo.data);
    ret := CreateAllGroups(topo, sort);
  }
}

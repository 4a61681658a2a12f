/**
 Grouping the NICs of a decorated topology in four passes: mark the nodes above NICs, count the
 accelerators at the closest marked node, lift NIC lists up to nodes with a count, and split each list
 into groups stored at the nodes of their leaders.

 NIC nodes are leaves of the tree and no accelerators, as PCI devices are.
 */
module TopoGroups {
  import opened TopoTree
  import opened TopoData

  /** The decoration itself does not change while NICs are grouped. */
  ghost predicate Tied(topo: Topology)
    reads topo
  {
    topo.Shape() && topo.Assigned(|topo.data|, topo.Wanted(|topo.pci|))
  }

  /** No NIC lies on the path of another device. */
  ghost predicate Leaves(topo: Topology)
    requires WellFormed(topo.tree) && forall i :: 0 <= i < |topo.pci| ==> IsNode(topo.tree, topo.pci[i])
  {
    forall x, i :: x in topo.nics && 0 <= i < |topo.pci| && topo.pci[i] in topo.accels + topo.nics && x in Up(topo.tree, topo.pci[i]) ==>
      topo.pci[i] == x && x !in topo.accels
  }

  ghost predicate SameNodes(a: seq<Data>, b: seq<Data>)
  {
    |a| == |b| && forall d :: 0 <= d < |a| ==> a[d].node == b[d].node
  }

  /** The object of a wanted node. */
  lemma {:induction false} ObjectOf(topo: Topology, n: int)
    requires Tied(topo) && n in topo.Wanted(|topo.pci|)
    ensures IsNode(topo.tree, n) && topo.userdata[n].Item? && topo.userdata[n].i < |topo.data| && topo.data[topo.userdata[n].i].node == n
    ensures forall m :: m in Up(topo.tree, n) ==> m in topo.Wanted(|topo.pci|)
  {
    hide Reach, Up;
    ReachClosed(topo.tree, topo.pci[..|topo.pci|], topo.accels + topo.nics);
    assert topo.userdata[n] != Null && topo.userdata[n] != Counter;
  }

  /** Objects and nodes correspond. */
  lemma {:induction false} NodeOf(topo: Topology, d: nat)
    requires Tied(topo) && d < |topo.data|
    ensures topo.data[d].node in topo.Wanted(|topo.pci|) && topo.userdata[topo.data[d].node] == Item(d)
  {
    hide Reach;
  }

  // Marking

  ghost predicate MarkedBy(before: seq<Data>, after: seq<Data>, marked: set<int>)
  {
    |after| == |before| && forall d :: 0 <= d < |after| ==> after[d] == before[d].(nicSubtree := before[d].node in marked)
  }

  method MarkPath(topo: Topology, obj: int, ghost before: seq<Data>, ghost marked: set<int>)
    requires Tied(topo) && obj in topo.Wanted(|topo.pci|) && MarkedBy(before, topo.data, marked)
    modifies topo`data
    ensures Tied(topo) && MarkedBy(before, topo.data, marked + Up(topo.tree, obj))
  {
    hide Reach, Up;
    ObjectOf(topo, obj);
    var node := obj;
    ghost var now := marked;
    while node != ROOT
      invariant node == ROOT || node in topo.Wanted(|topo.pci|)
      invariant Tied(topo) && MarkedBy(before, topo.data, now)
      invariant now + Up(topo.tree, node) == marked + Up(topo.tree, obj)
      decreases node + 1
    {
      ObjectOf(topo, node);
      UpStep(topo.tree, node, now);
      var d := topo.userdata[node].i;
      topo.data := topo.data[d := topo.data[d].(nicSubtree := true)];
      now := now + {node};
      node := topo.tree.parent[node];
    }
    UpRoot(topo.tree);
    assert now == marked + Up(topo.tree, obj);
  }

  /** The nodes above NICs. */
  ghost function NicNodes(topo: Topology): set<int>
    requires topo.Shape()
    reads topo
  {
    Reach(topo.tree, topo.pci, topo.nics)
  }

  lemma {:induction false} NicNodesIff(topo: Topology, m: int)
    requires topo.Shape()
    ensures m in NicNodes(topo) <==> exists x :: x in topo.nics && IsNode(topo.tree, x) && m in Up(topo.tree, x)
  {
    hide Reach, Up;
    ReachIff(topo.tree, topo.pci, topo.nics, m);
    if exists x :: x in topo.nics && IsNode(topo.tree, x) && m in Up(topo.tree, x) {
      var x :| x in topo.nics && IsNode(topo.tree, x) && m in Up(topo.tree, x);
      var i :| 0 <= i < |topo.pci| && topo.pci[i] == x;
      assert topo.pci[i] in topo.nics;
    }
  }

  /** Every NIC and every accelerator has an object, and a NIC's path leads only to nodes above NICs. */
  lemma {:induction false} DeviceWanted(topo: Topology, i: nat)
    requires topo.Shape() && i < |topo.pci| && topo.pci[i] in topo.accels + topo.nics
    ensures topo.pci[i] in topo.Wanted(|topo.pci|)
    ensures topo.pci[i] in topo.nics ==> Up(topo.tree, topo.pci[i]) <= NicNodes(topo)
  {
    hide Reach;
    var x := topo.pci[i];
    assert topo.pci[..|topo.pci|] == topo.pci;
    assert x in Up(topo.tree, topo.pci[i]);
    ReachIff(topo.tree, topo.pci, topo.accels + topo.nics, x);
    if x in topo.nics {
      forall m | m in Up(topo.tree, x) ensures m in NicNodes(topo) {
        ReachIff(topo.tree, topo.pci, topo.nics, m);
      }
    }
  }

  /** Every NIC is alone in the list of its own node, and nothing has been counted yet. */
  ghost predicate AllOwn(nics: set<int>, data: seq<Data>)
  {
    forall d :: 0 <= d < |data| ==>
      var own := if data[d].node in nics then [data[d].node] else [];
      data[d] == Data(data[d].node, own, |own|, 0, false, false)
  }

  lemma {:induction false} DecoratedOwn(topo: Topology)
    requires topo.Decorated()
    ensures Tied(topo) && AllOwn(topo.nics, topo.data)
  {
    hide Reach;
    assert topo.pci[..|topo.pci|] == topo.pci;
  }

  lemma {:induction false} NicMarks(topo: Topology, x: int)
    requires topo.Shape() && x in topo.nics
    ensures IsNode(topo.tree, x) && x in topo.Wanted(|topo.pci|) && Up(topo.tree, x) <= NicNodes(topo)
  {
    hide Reach, Up;
    var i :| 0 <= i < |topo.pci| && topo.pci[i] == x;
    DeviceWanted(topo, i);
  }

  lemma {:induction false} AllMarked(topo: Topology, before: seq<Data>, marked: set<int>, m: int)
    requires Tied(topo) && AllOwn(topo.nics, before) && SameNodes(before, topo.data) && m in NicNodes(topo)
    requires forall d :: 0 <= d < |before| && before[d].list != [] ==> IsNode(topo.tree, before[d].node) && Up(topo.tree, before[d].node) <= marked
    ensures m in marked
  {
    hide Reach, Up;
    NicNodesIff(topo, m);
    var x :| x in topo.nics && IsNode(topo.tree, x) && m in Up(topo.tree, x);
    NicMarks(topo, x);
    ObjectOf(topo, x);
    assert before[topo.userdata[x].i].list == [x];
  }

  /** The marking pass marks exactly the nodes above NICs. */
  method MarkNicSubtrees(topo: Topology)
    requires Tied(topo) && AllOwn(topo.nics, topo.data)
    modifies topo`data
    ensures Tied(topo) && MarkedBy(old(topo.data), topo.data, NicNodes(topo))
  {
    hide Reach, Up;
    ghost var before := topo.data;
    ghost var marked: set<int> := {};
    var i := 0;
    while i < |topo.data|
      invariant 0 <= i <= |topo.data| && Tied(topo) && MarkedBy(before, topo.data, marked)
      invariant marked <= NicNodes(topo)
      invariant forall d :: 0 <= d < i && before[d].list != [] ==> IsNode(topo.tree, before[d].node) && Up(topo.tree, before[d].node) <= marked
    {
      if topo.data[i].list != [] {
        NicMarks(topo, topo.data[i].node);
        MarkPath(topo, topo.data[i].node, before, marked);
        marked := marked + Up(topo.tree, before[i].node);
      }
      i := i + 1;
    }
    forall m | m in NicNodes(topo) ensures m in marked {
      AllMarked(topo, before, marked, m);
    }
    assert marked == NicNodes(topo);
  }

  // Counting accelerators

  /** The accelerators among `done` whose closest marked ancestor is n. */
  ghost function Nearest(t: Tree, marked: set<int>, done: set<int>, n: int): set<int>
    requires WellFormed(t) && forall a :: a in done ==> IsNode(t, a)
  {
    set a | a in done && Closest(t, marked, a) == n
  }

  lemma {:induction false} NearestNext(t: Tree, marked: set<int>, done: set<int>, a: int, n: int)
    requires WellFormed(t) && (forall b :: b in done ==> IsNode(t, b)) && IsNode(t, a) && a !in done
    ensures |Nearest(t, marked, done + {a}, n)| == |Nearest(t, marked, done, n)| + if Closest(t, marked, a) == n then 1 else 0
  {
    assert Nearest(t, marked, done + {a}, n) == Nearest(t, marked, done, n) + if Closest(t, marked, a) == n then {a} else {};
  }

  /** Each accelerator of `done` has been counted, once, at the closest marked node. */
  ghost predicate CountedBy(t: Tree, before: seq<Data>, after: seq<Data>, marked: set<int>, done: set<int>)
    requires WellFormed(t) && forall a :: a in done ==> IsNode(t, a)
  {
    && |after| == |before|
    && forall d :: 0 <= d < |after| ==>
         after[d] == before[d].(groups := |Nearest(t, marked, done, before[d].node)|, contributed := before[d].node in done)
  }

  ghost predicate MarksShown(data: seq<Data>, marked: set<int>)
  {
    forall d :: 0 <= d < |data| ==> (data[d].nicSubtree <==> data[d].node in marked)
  }

  /** The object at which an accelerator is counted, if there is one. */
  method FindMarked(topo: Topology, gpu: int, ghost marked: set<int>) returns (node: int)
    requires Tied(topo) && gpu in topo.Wanted(|topo.pci|) && MarksShown(topo.data, marked) && IsNode(topo.tree, gpu)
    ensures node == Closest(topo.tree, marked, gpu)
    ensures node != ROOT ==> node in topo.Wanted(|topo.pci|)
  {
    hide Reach, Up;
    node := gpu;
    while node != ROOT
      invariant node == ROOT || (node in topo.Wanted(|topo.pci|) && IsNode(topo.tree, node))
      invariant Closest(topo.tree, marked, node) == Closest(topo.tree, marked, gpu)
      decreases node + 1
    {
      ObjectOf(topo, node);
      if topo.data[topo.userdata[node].i].nicSubtree {
        return;
      }
      UpStep(topo.tree, node, {});
      node := topo.tree.parent[node];
    }
  }

  method PropagateCount(topo: Topology, gpu: int, ghost before: seq<Data>, ghost marked: set<int>, ghost done: set<int>)
    requires Tied(topo) && gpu in topo.Wanted(|topo.pci|) && IsNode(topo.tree, gpu)
    requires SameNodes(before, topo.data) && MarksShown(topo.data, marked)
    requires (forall a :: a in done ==> IsNode(topo.tree, a)) && CountedBy(topo.tree, before, topo.data, marked, done)
    modifies topo`data
    ensures Tied(topo) && SameNodes(before, topo.data) && MarksShown(topo.data, marked)
    ensures CountedBy(topo.tree, before, topo.data, marked, done + {gpu})
  {
    hide Reach, Up, Closest, Nearest;
    ObjectOf(topo, gpu);
    var d := topo.userdata[gpu].i;
    if topo.data[d].contributed {
      assert done + {gpu} == done;
      return;
    }
    topo.data := topo.data[d := topo.data[d].(contributed := true)];
    var node := FindMarked(topo, gpu, marked);
    if node != ROOT {
      ObjectOf(topo, node);
      var e := topo.userdata[node].i;
      topo.data := topo.data[e := topo.data[e].(groups := topo.data[e].groups + 1)];
    }
    forall j | 0 <= j < |topo.data|
      ensures topo.data[j] ==
              before[j].(groups := |Nearest(topo.tree, marked, done + {gpu}, before[j].node)|, contributed := before[j].node in done + {gpu})
    {
      NodeOf(topo, j);
      NearestNext(topo.tree, marked, done, gpu, before[j].node);
    }
  }

  /** The accelerators that the topology shows as PCI devices. */
  ghost function Accels(topo: Topology): (s: set<int>)
    requires topo.Shape()
    reads topo
    ensures forall a :: a in s ==> IsNode(topo.tree, a)
  {
    set a | a in topo.accels && a in topo.pci
  }

  /** The counting pass: every node's count is the number of accelerators closest to it among the nodes above NICs. */
  method PropagateCounts(topo: Topology, ghost marked: set<int>)
    requires Tied(topo) && MarksShown(topo.data, marked)
    requires forall d :: 0 <= d < |topo.data| ==> topo.data[d].groups == 0 && !topo.data[d].contributed
    modifies topo`data
    ensures Tied(topo) && MarksShown(topo.data, marked)
    ensures CountedBy(topo.tree, old(topo.data), topo.data, marked, Accels(topo))
  {
    hide Reach, Closest, Up;
    ghost var before := topo.data;
    ghost var done: set<int> := {};
    var k := 0;
    while k < |topo.pci|
      invariant 0 <= k <= |topo.pci| && Tied(topo) && SameNodes(before, topo.data) && MarksShown(topo.data, marked)
      invariant forall a :: a in done <==> a in topo.accels && a in topo.pci[..k]
      invariant forall a :: a in done ==> IsNode(topo.tree, a)
      invariant CountedBy(topo.tree, before, topo.data, marked, done)
    {
      assert topo.pci[..k + 1] == topo.pci[..k] + [topo.pci[k]];
      if topo.pci[k] in topo.accels {
        DeviceWanted(topo, k);
        PropagateCount(topo, topo.pci[k], before, marked, done);
        done := done + {topo.pci[k]};
      }
      k := k + 1;
    }
    assert topo.pci[..k] == topo.pci;
    forall a ensures a in done <==> a in Accels(topo) {
      assert a in topo.pci <==> a in topo.pci[..k];
    }
    assert done == Accels(topo);
  }
}

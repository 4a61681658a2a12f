/**
 Decorating the topology: a counting pass over the tree, and an assignment pass that hands one
 user-data object to every node with a NIC or an accelerator in its subtree.

 The two passes stop their walks to the root differently. They agree on the number of nodes, so the
 assignment pass consumes exactly the objects that were counted and never runs out.
 */
module TopoData {
  import opened TopoTree

  const EINVAL := 22

  datatype Ptr = Null | Counter | Item(i: nat)

  /**
   User data of a node. NICs are named by their topology nodes, which their bus ids determine, so a
   NIC list is a sequence of nodes.
   */
  datatype Data = Data(node: int, list: seq<int>, len: nat, groups: nat, nicSubtree: bool, contributed: bool)

  const BLANK := Data(ROOT, [], 0, 0, false, false)

  /** Exactly the nodes in s have their user-data pointer set. */
  ghost predicate Marks(userdata: seq<Ptr>, s: set<int>)
  {
    && (forall n :: 0 <= n < |userdata| ==> (userdata[n] != Null <==> n in s))
    && (forall n :: n in s ==> 0 <= n < |userdata|)
  }

  /** The i-th object belongs to the node that points to it, for the first `used` objects; the others are unused. */
  ghost predicate Linked(userdata: seq<Ptr>, data: seq<Data>, used: nat)
  {
    && used <= |data|
    && (forall n :: 0 <= n < |userdata| && userdata[n].Item? ==> userdata[n].i < used && data[userdata[n].i].node == n)
    && (forall d :: 0 <= d < used ==> 0 <= data[d].node < |userdata| && userdata[data[d].node] == Item(d))
    && (forall d :: used <= d < |data| ==> data[d].node == ROOT)
  }

  class Topology {
    const tree: Tree
    const pci: seq<int>
    const accels: set<int>
    const nics: set<int>
    var userdata: seq<Ptr>
    var data: seq<Data>

    ghost predicate Shape()
      reads this
    {
      && WellFormed(tree) && |userdata| == |tree.parent|
      && (forall i :: 0 <= i < |pci| ==> IsNode(tree, pci[i]))
      && (forall x :: x in nics ==> x in pci)
    }

    constructor (tree: Tree, pci: seq<int>, accels: set<int>, nics: set<int>)
      requires WellFormed(tree) && (forall i :: 0 <= i < |pci| ==> IsNode(tree, pci[i])) && forall x :: x in nics ==> x in pci
      ensures Shape() && Marks(userdata, {}) && this.tree == tree && this.pci == pci
      ensures this.accels == accels && this.nics == nics
    {
      this.tree, this.pci, this.accels, this.nics := tree, pci, accels, nics;
      userdata, data := seq(|tree.parent|, _ => Null), [];
    }

    /** The nodes that get user data. */
    ghost function Wanted(k: nat): set<int>
      requires Shape() && k <= |pci|
      reads this
    {
      Reach(tree, pci[..k], accels + nics)
    }

    lemma {:induction false} WantedNext(k: nat)
      requires Shape() && k < |pci|
      ensures Wanted(k + 1) == Wanted(k) + if pci[k] in accels || pci[k] in nics then Up(tree, pci[k]) else {}
      ensures Closed(tree, Wanted(k)) && Wanted(0) == {}
    {
      assert pci[..k + 1][..k] == pci[..k];
      ReachClosed(tree, pci[..k], accels + nics);
    }

    /** Walks to the root from a device and counts the nodes not seen before. */
    method CountPath(obj: int, start: nat, ghost seen: set<int>) returns (count: nat)
      requires Shape() && IsNode(tree, obj) && Marks(userdata, seen) && Closed(tree, seen) && start == |seen|
      modifies this`userdata
      ensures Shape() && Marks(userdata, seen + Up(tree, obj)) && count == |seen + Up(tree, obj)|
    {
      hide Closed;
      count := start;
      var node := obj;
      ghost var now := seen;
      while node != ROOT && userdata[node] == Null
        invariant node == ROOT || IsNode(tree, node)
        invariant Shape() && Marks(userdata, now) && count == |now|
        invariant now + Up(tree, node) == seen + Up(tree, obj)
        invariant seen <= now && forall m :: m in now ==> m in seen || m > node
        decreases node + 1
      {
        userdata := userdata[node := Counter];
        count := count + 1;
        now := now + {node};
        node := tree.parent[node];
      }
      assert now == seen + Up(tree, obj) by {
        if node != ROOT {
          ClosedAt(tree, seen, node);
        }
      }
    }

    /** Clears the pointers on the path of a device. */
    method ClearPath(obj: int, ghost seen: set<int>)
      requires Shape() && IsNode(tree, obj) && Marks(userdata, seen)
      modifies this`userdata
      ensures Shape() && Marks(userdata, seen - Up(tree, obj))
    {
      var node := obj;
      ghost var now := seen;
      while node != ROOT
        invariant node == ROOT || IsNode(tree, node)
        invariant Shape() && Marks(userdata, now)
        invariant now - Up(tree, node) == seen - Up(tree, obj)
        decreases node + 1
      {
        userdata := userdata[node := Null];
        now := now - {node};
        node := tree.parent[node];
      }
    }

    /** The counting pass: it leaves no trace and returns the number of wanted nodes. */
    method CountNodes() returns (count: nat)
      requires Shape() && Marks(userdata, {})
      modifies this`userdata
      ensures Shape() && Marks(userdata, {}) && count == |Wanted(|pci|)|
    {
      hide Marks, Closed, Reach;
      count := 0;
      var k := 0;
      NoneWanted();
      while k < |pci|
        invariant 0 <= k <= |pci| && Shape() && Marks(userdata, Wanted(k)) && count == |Wanted(k)|
      {
        WantedNext(k);
        if pci[k] in accels || pci[k] in nics {
          count := CountPath(pci[k], count, Wanted(k));
        }
        k := k + 1;
      }
      ghost var left := Wanted(|pci|);
      k := 0;
      while k < |pci|
        invariant 0 <= k <= |pci| && Shape() && left == Wanted(|pci|) - Wanted(k) && Marks(userdata, left)
      {
        WantedNext(k);
        if pci[k] in accels || pci[k] in nics {
          ClearPath(pci[k], left);
          left := left - Up(tree, pci[k]);
        }
        k := k + 1;
      }
      assert left == {};
    }

    lemma {:induction false} NoneWanted()
      requires Shape()
      ensures Wanted(0) == {}
    {
    }

    /** What the assignment pass keeps: the objects used so far belong to the nodes in `seen`. */
    ghost predicate Assigned(used: nat, seen: set<int>)
      reads this
    {
      && Shape() && Marks(userdata, seen) && used == |seen| && Linked(userdata, data, used)
      && (forall n :: 0 <= n < |userdata| ==> userdata[n] != Counter)
    }

    /** Gives the next object to a node without one. */
    method Give(node: int, used: nat, ghost seen: set<int>)
      requires Assigned(used, seen) && IsNode(tree, node) && node !in seen && used < |data|
      modifies this`userdata, this`data
      ensures Assigned(used + 1, seen + {node}) && data == old(data)[used := old(data)[used].(node := node)]
    {
      userdata := userdata[node := Item(used)];
      data := data[used := data[used].(node := node)];
    }

    /** Walks to the root and gives an object to every node that has none; fails if the objects run out. */
    method SetUserdataToRoot(obj: int, start: nat, ghost seen: set<int>) returns (ret: int, used: nat)
      requires Assigned(start, seen) && IsNode(tree, obj)
      modifies this`userdata, this`data
      ensures |data| == old(|data|)
      ensures ret == 0 <==> |seen + Up(tree, obj)| <= |data|
      ensures ret == 0 ==> Assigned(used, seen + Up(tree, obj))
      ensures forall d :: 0 <= d < |data| ==> data[d] == old(data[d]).(node := data[d].node)
      ensures forall d :: 0 <= d < |data| ==> data[d].node == old(data[d]).node || (data[d].node !in seen && old(data[d]).node == ROOT)
    {
      hide Marks, Linked, Up;
      used := start;
      var node := obj;
      ghost var now := seen;
      ghost var all := seen + Up(tree, obj);
      while node != ROOT
        invariant node == ROOT || IsNode(tree, node)
        invariant Assigned(used, now) && |data| == old(|data|)
        invariant now + Up(tree, node) == all && seen <= now
        invariant forall d :: 0 <= d < |data| ==> data[d] == old(data[d]).(node := data[d].node)
        invariant forall d :: 0 <= d < |data| ==> data[d].node == old(data[d]).node || (data[d].node !in seen && old(data[d]).node == ROOT)
        decreases node + 1
      {
        MarkedIff(userdata, now, node);
        UpStep(tree, node, now);
        if userdata[node] == Null {
          if used == |data| {
            Grows(now, all, node);
            return -EINVAL, used;
          }
          LinkedUsed(userdata, data, used);
          assert data[used].node == ROOT;
          Give(node, used, now);
          now := now + {node};
          used := used + 1;
        }
        node := tree.parent[node];
      }
      UpRoot(tree);
      assert now == all;
      LinkedUsed(userdata, data, used);
      return 0, used;
    }

    /** The object as the first k devices leave it: NIC nodes among them hold their own NIC. */
    ghost function Initial(d: Data, k: nat): Data
      requires k <= |pci|
    {
      var own := if d.node in nics && d.node in pci[..k] then [d.node] else [];
      Data(d.node, own, |own|, 0, false, false)
    }

    ghost predicate Filled(k: nat)
      requires k <= |pci|
      reads this
    {
      forall d :: 0 <= d < |data| ==> data[d] == Initial(data[d], k)
    }

    lemma {:induction false} NicWanted(k: nat, x: int)
      requires Shape() && k <= |pci| && x in nics && x in pci[..k]
      ensures x in Wanted(k)
    {
      var i :| 0 <= i < k && pci[..k][i] == x;
      assert x in Up(tree, pci[..k][i]);
      ReachIff(tree, pci[..k], accels + nics, x);
    }

    lemma {:induction false} WantedGrows(k: nat)
      requires Shape() && k <= |pci|
      ensures Wanted(k) <= Wanted(|pci|)
      decreases |pci| - k
    {
      hide Reach, Up;
      if k < |pci| {
        WantedNext(k);
        WantedGrows(k + 1);
      }
    }

    /** Stores a NIC at its own node. */
    method StoreNic(k: nat, used: nat)
      requires Shape() && k < |pci| && pci[k] in nics
      requires Assigned(used, Wanted(k + 1)) && Filled(k) && pci[k] in Wanted(k + 1)
      modifies this`data
      ensures Assigned(used, Wanted(k + 1)) && Filled(k + 1) && |data| == old(|data|)
    {
      hide Reach;
      var d := userdata[pci[k]].i;
      data := data[d := data[d].(list := [pci[k]], len := 1)];
      assert pci[..k + 1] == pci[..k] + [pci[k]];
      forall j | 0 <= j < |data| ensures data[j] == Initial(data[j], k + 1) {
        assert j != d ==> data[j].node != pci[k];
      }
    }

    /** The decorated topology: one object for every wanted node, none left over, every NIC at its own node. */
    ghost predicate Decorated()
      reads this
    {
      Shape() && Assigned(|data|, Wanted(|pci|)) && Filled(|pci|)
    }

    method SetUserData() returns (ret: int)
      requires Shape() && Marks(userdata, {})
      modifies this
      ensures ret == 0 && Decorated()
    {
      hide Marks, Linked, Reach, Up, Initial;
      var n := CountNodes();
      data := seq(n, _ => BLANK);
      BlankStart();
      var used, k := 0, 0;
      while k < |pci|
        invariant 0 <= k <= |pci| && Shape() && Assigned(used, Wanted(k)) && Filled(k) && |data| == |Wanted(|pci|)|
      {
        WantedNext(k);
        WantedGrows(k + 1);
        Smaller(Wanted(k + 1), Wanted(|pci|));
        if pci[k] in accels || pci[k] in nics {
          ghost var before := data;
          ret, used := SetUserdataToRoot(pci[k], used, Wanted(k));
          if ret != 0 {
            return;
          }
          StillFilled(k, before);
        }
        if pci[k] in nics {
          UpStep(tree, pci[k], {});
          StoreNic(k, used);
        } else {
          NotNicFilled(k);
        }
        k := k + 1;
      }
      ret := 0;
    }

    lemma {:induction false} BlankStart()
      requires Shape() && Marks(userdata, {}) && data == seq(|data|, _ => BLANK)
      ensures Assigned(0, Wanted(0)) && Filled(0)
    {
    }

    /** Objects given out on the way to the root hold no NIC yet. */
    lemma {:induction false} StillFilled(k: nat, before: seq<Data>)
      requires Shape() && k <= |pci| && |before| == |data|
      requires forall d :: 0 <= d < |before| ==> before[d] == Initial(before[d], k)
      requires forall d :: 0 <= d < |data| ==> data[d] == before[d].(node := data[d].node)
      requires forall d :: 0 <= d < |data| ==>
                 data[d].node == before[d].node || (data[d].node !in Wanted(k) && before[d].node == ROOT)
      ensures Filled(k)
    {
      hide Reach;
      forall d | 0 <= d < |data| ensures data[d] == Initial(data[d], k) {
        if data[d].node in nics && data[d].node in pci[..k] {
          NicWanted(k, data[d].node);
        }
      }
    }

    lemma {:induction false} NotNicFilled(k: nat)
      requires k < |pci| && Filled(k) && pci[k] !in nics
      ensures Filled(k + 1)
    {
      assert pci[..k + 1] == pci[..k] + [pci[k]];
    }
  }

  lemma {:induction false} UpRoot(t: Tree)
    requires WellFormed(t)
    ensures Up(t, ROOT) == {}
  {
  }

  /** One step of a walk moves the node from the path ahead to the nodes behind. */
  lemma {:induction false} UpStep(t: Tree, n: int, s: set<int>)
    requires WellFormed(t) && IsNode(t, n)
    ensures n in Up(t, n) && (s + {n}) + Up(t, t.parent[n]) == s + Up(t, n)
    ensures n in s ==> s + Up(t, t.parent[n]) == s + Up(t, n)
    ensures t.parent[n] == ROOT || t.parent[n] in Up(t, n)
  {
  }

  lemma {:induction false} MarkedIff(userdata: seq<Ptr>, s: set<int>, n: int)
    requires Marks(userdata, s) && 0 <= n < |userdata|
    ensures userdata[n] != Null <==> n in s
  {
  }

  lemma {:induction false} LinkedUsed(userdata: seq<Ptr>, data: seq<Data>, used: nat)
    requires Linked(userdata, data, used)
    ensures used <= |data| && (used < |data| ==> data[used].node == ROOT)
  {
  }

  lemma {:induction false} ClosedAt(t: Tree, s: set<int>, m: int)
    requires WellFormed(t) && Closed(t, s) && m in s
    ensures IsNode(t, m) && Up(t, m) <= s
  {
  }

  lemma {:induction false} Grows(a: set<int>, b: set<int>, x: int)
    requires a <= b && x in b && x !in a
    ensures |a| < |b|
  {
    Smaller(a + {x}, b);
  }

  lemma {:induction false} Smaller(a: set<int>, b: set<int>)
    requires a <= b
    ensures |a| <= |b|
  {
    if exists x :: x in a {
      var x :| x in a;
      Smaller(a - {x}, b - {x});
    } else {
      assert a == {};
    }
  }
}

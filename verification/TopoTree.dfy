/**
 The hardware topology as a tree of numbered nodes.

 Parents are numbered below their children, so a walk to the root counts down. `Up` is the path that
 such a walk visits.
 */
module TopoTree {

  const ROOT := -1

  datatype Tree = Tree(parent: seq<int>)

  ghost predicate WellFormed(t: Tree)
  {
    forall i :: 0 <= i < |t.parent| ==> ROOT <= t.parent[i] < i
  }

  ghost predicate IsNode(t: Tree, n: int)
  {
    0 <= n < |t.parent|
  }

  /** The node and its ancestors. */
  ghost function Up(t: Tree, n: int): (s: set<int>)
    requires WellFormed(t) && (n == ROOT || IsNode(t, n))
    decreases n + 1
  {
    if n == ROOT then {} else {n} + Up(t, t.parent[n])
  }

  lemma {:induction false} UpBelow(t: Tree, n: int, m: int)
    requires WellFormed(t) && (n == ROOT || IsNode(t, n)) && m in Up(t, n)
    ensures 0 <= m <= n
    decreases n + 1
  {
    if m != n {
      UpBelow(t, t.parent[n], m);
    }
  }

  /** Paths to the root merge: an ancestor's path is part of the node's path. */
  lemma {:induction false} UpMerges(t: Tree, n: int, m: int)
    requires WellFormed(t) && (n == ROOT || IsNode(t, n)) && m in Up(t, n)
    ensures IsNode(t, m) && Up(t, m) <= Up(t, n)
    decreases n + 1
  {
    if m != n {
      UpMerges(t, t.parent[n], m);
    }
  }

  /** All nodes with one of the chosen devices in their subtree. */
  ghost function Reach(t: Tree, devices: seq<int>, chosen: set<int>): set<int>
    requires WellFormed(t) && forall i :: 0 <= i < |devices| ==> IsNode(t, devices[i])
  {
    if devices == [] then {}
    else
      var last := devices[|devices| - 1];
      Reach(t, devices[..|devices| - 1], chosen) + if last in chosen then Up(t, last) else {}
  }

  /** A set of nodes that holds with each node the path to the root. */
  ghost predicate Closed(t: Tree, s: set<int>)
    requires WellFormed(t)
  {
    forall m :: m in s ==> IsNode(t, m) && Up(t, m) <= s
  }

  lemma {:induction false} UpClosed(t: Tree, n: int)
    requires WellFormed(t) && (n == ROOT || IsNode(t, n))
    ensures Closed(t, Up(t, n))
  {
    forall m | m in Up(t, n) ensures IsNode(t, m) && Up(t, m) <= Up(t, n) {
      UpMerges(t, n, m);
    }
  }

  lemma {:induction false} ReachClosed(t: Tree, devices: seq<int>, chosen: set<int>)
    requires WellFormed(t) && forall i :: 0 <= i < |devices| ==> IsNode(t, devices[i])
    ensures Closed(t, Reach(t, devices, chosen))
  {
    if devices != [] {
      ReachClosed(t, devices[..|devices| - 1], chosen);
      UpClosed(t, devices[|devices| - 1]);
    }
  }

  /** A node is reached exactly if it lies on the path of a chosen device. */
  lemma {:induction false} ReachIff(t: Tree, devices: seq<int>, chosen: set<int>, m: int)
    requires WellFormed(t) && forall i :: 0 <= i < |devices| ==> IsNode(t, devices[i])
    ensures m in Reach(t, devices, chosen) <==>
            exists i :: 0 <= i < |devices| && devices[i] in chosen && m in Up(t, devices[i])
  {
    if devices != [] {
      var n := |devices| - 1;
      ReachIff(t, devices[..n], chosen, m);
      if m in Reach(t, devices[..n], chosen) {
        var i :| 0 <= i < n && devices[..n][i] in chosen && m in Up(t, devices[..n][i]);
        assert devices[i] in chosen && m in Up(t, devices[i]);
      }
      if exists i :: 0 <= i < |devices| && devices[i] in chosen && m in Up(t, devices[i]) {
        var i :| 0 <= i < |devices| && devices[i] in chosen && m in Up(t, devices[i]);
        if i < n {
          assert devices[..n][i] in chosen && m in Up(t, devices[..n][i]);
        }
      }
    }
  }

  /** The first node of `marked` on the way from n to the root, or ROOT. */
  ghost function Closest(t: Tree, marked: set<int>, n: int): int
    requires WellFormed(t) && (n == ROOT || IsNode(t, n))
    decreases n + 1
  {
    if n == ROOT || n in marked then n else Closest(t, marked, t.parent[n])
  }

  lemma {:induction false} ClosestIs(t: Tree, marked: set<int>, n: int)
    requires WellFormed(t) && (n == ROOT || IsNode(t, n))
    ensures var c := Closest(t, marked, n);
            && (c == ROOT <==> Up(t, n) !! marked)
            && (c != ROOT ==> c in marked && c in Up(t, n) && forall m :: m in Up(t, n) && m in marked ==> m <= c)
    decreases n + 1
  {
    if n != ROOT {
      if n in marked {
        forall m | m in Up(t, n) ensures m <= n {
          UpBelow(t, n, m);
        }
      } else {
        ClosestIs(t, marked, t.parent[n]);
      }
    }
  }
}

/**
 The intrusive deque: caller-owned elements linked in a circle through a head element.

 `contents` is the sequence the links stand for; `Linked` says how. Insertion and removal at either
 end and removal of any element act on that sequence, and the iteration macro, whose body may remove
 the element it is visiting, visits every element once and in order.
 */
module Deque {
  import opened Collections

  class Elem {
    var prev: Elem?
    var next: Elem?

    constructor ()
    {
      prev := null;
      next := null;
    }
  }

  /** The elements of s that are not in `drop`, in order. */
  ghost function Without(s: seq<Elem>, drop: set<Elem>): seq<Elem>
  {
    if s == [] then []
    else Without(s[..|s| - 1], drop) + if s[|s| - 1] in drop then [] else [s[|s| - 1]]
  }

  /** Exactly the elements of s outside `drop` survive. */
  lemma {:induction false} WithoutKeeps(s: seq<Elem>, drop: set<Elem>, e: Elem)
    ensures e in Without(s, drop) <==> e in s && e !in drop
  {
    if s != [] {
      WithoutKeeps(s[..|s| - 1], drop, e);
      assert s == s[..|s| - 1] + [s[|s| - 1]];
    }
  }

  /** What an iteration over s has made of the list once it has reached position i. */
  ghost function Partly(s: seq<Elem>, drop: set<Elem>, i: nat): seq<Elem>
    requires i <= |s|
  {
    Without(s[..i], drop) + s[i..]
  }

  lemma {:induction false} PartlyEnds(s: seq<Elem>, drop: set<Elem>)
    ensures Partly(s, drop, 0) == s && Partly(s, drop, |s|) == Without(s, drop)
  {
    assert s[..|s|] == s && s[0..] == s && s[..0] == [];
  }

  lemma {:induction false} PartlyWithin(s: seq<Elem>, drop: set<Elem>, i: nat, e: Elem)
    requires i <= |s| && e in Partly(s, drop, i)
    ensures e in s
  {
    WithoutKeeps(s[..i], drop, e);
  }

  /** One turn of an iteration over s that has reached position i. */
  lemma {:induction false} PartlyTurn(s: seq<Elem>, drop: set<Elem>, i: nat) returns (k: nat)
    requires i < |s|
    ensures var now := Partly(s, drop, i);
            && k < |now| && now[k] == s[i]
            && (k + 1 < |now| <==> i + 1 < |s|) && (i + 1 < |s| ==> now[k + 1] == s[i + 1])
            && (if s[i] in drop then now[..k] + now[k + 1..] else now) == Partly(s, drop, i + 1)
  {
    k := |Without(s[..i], drop)|;
    assert s[..i + 1][..i] == s[..i];
    assert s[i..] == [s[i]] + s[i + 1..];
  }

  class List {
    const head: Elem
    ghost var contents: seq<Elem>

    /** The i-th element of the circle, with the head at 0 and again behind the last element. */
    ghost function At(i: int): Elem
      reads this
    {
      if 1 <= i <= |contents| then contents[i - 1] else head
    }

    ghost predicate Linked()
      reads this, head, contents
    {
      && (forall i {:trigger At(i).next} :: 0 <= i <= |contents| ==> At(i).next == At(i + 1))
      && (forall i {:trigger At(i).prev} :: 1 <= i <= |contents| + 1 ==> At(i).prev == At(i - 1))
    }

    ghost predicate Valid()
      reads this, head, contents
    {
      head !in contents && NoDup(contents) && Linked()
    }

    constructor ()
      ensures Valid() && contents == [] && fresh(head)
    {
      head := new Elem();
      contents := [];
      new;
      head.next := head;
      head.prev := head;
    }

    predicate IsEmpty()
      reads this, head
    {
      head.next == head
    }

    lemma {:induction false} EmptyIff()
      requires Valid()
      ensures IsEmpty() <==> contents == []
    {
      assert At(0).next == At(1);
    }

    method InsertBack(e: Elem)
      requires Valid() && e !in contents && e != head
      modifies this, head, contents, e
      ensures Valid() && contents == old(contents) + [e]
    {
      ghost var n := |contents|;
      assert At(n + 1).prev == At(n) && At(n).next == At(n + 1);
      e.next := head;
      e.prev := head.prev;
      head.prev.next := e;
      head.prev := e;
      contents := contents + [e];
      assert forall i :: 0 <= i <= n ==> At(i) == old(At(i));
      forall i | 0 <= i <= |contents| ensures At(i).next == At(i + 1) && At(i + 1).prev == At(i) {
        assert i < n ==> old(At(i).next) == At(i + 1) && old(At(i + 1).prev) == At(i);
      }
    }

    method InsertFront(e: Elem)
      requires Valid() && e !in contents && e != head
      modifies this, head, contents, e
      ensures Valid() && contents == [e] + old(contents)
    {
      assert At(0).next == At(1) && At(1).prev == At(0);
      e.next := head.next;
      e.prev := head;
      head.next.prev := e;
      head.next := e;
      contents := [e] + contents;
      assert forall i :: 2 <= i <= |contents| + 1 ==> At(i) == old(At(i - 1));
      forall i | 0 <= i <= |contents| ensures At(i).next == At(i + 1) && At(i + 1).prev == At(i) {
        assert i >= 2 ==> old(At(i - 1).next) == At(i + 1) && old(At(i).prev) == At(i);
      }
    }

    method RemoveFront() returns (e: Elem?)
      requires Valid()
      modifies this, head, contents
      ensures Valid()
      ensures old(contents) == [] ==> e == null && contents == []
      ensures old(contents) != [] ==> e == old(contents)[0] && contents == old(contents)[1..]
    {
      EmptyIff();
      if IsEmpty() {
        return null;
      }
      assert At(0).next == At(1) && At(1).next == At(2);
      e := head.next;
      head.next := e.next;
      e.next.prev := head;
      contents := contents[1..];
      assert forall i :: 1 <= i <= |contents| + 1 ==> At(i) == old(At(i + 1));
      forall i | 0 <= i <= |contents| ensures At(i).next == At(i + 1) && At(i + 1).prev == At(i) {
        assert i >= 1 ==> old(At(i + 1).next) == At(i + 1) && old(At(i + 2).prev) == At(i);
      }
    }

    /** Any element of the deque can be taken out; it is left unlinked. */
    method Remove(e: Elem, ghost k: nat)
      requires Valid() && k < |contents| && contents[k] == e
      modifies this, head, contents
      ensures Valid() && contents == old(contents)[..k] + old(contents)[k + 1..]
      ensures e.prev == null && e.next == null
    {
      assert At(k + 1) == e && At(k).next == e && At(k + 2).prev == e;
      assert e.next == At(k + 2) && e.prev == At(k);
      e.prev.next := e.next;
      e.next.prev := e.prev;
      e.prev := null;
      e.next := null;
      contents := contents[..k] + contents[k + 1..];
      assert forall i :: 0 <= i <= k ==> At(i) == old(At(i));
      assert forall i :: k < i <= |contents| + 1 ==> At(i) == old(At(i + 1));
      forall i | 0 <= i <= |contents| ensures At(i).next == At(i + 1) && At(i + 1).prev == At(i) {
        if i < k {
          assert old(At(i).next) == At(i + 1) && old(At(i + 1).prev) == At(i);
        } else if i > k {
          assert old(At(i + 1).next) == At(i + 1) && old(At(i + 2).prev) == At(i);
        }
      }
    }

    method GetFront() returns (e: Elem?)
      requires Valid()
      ensures contents == [] ==> e == null
      ensures contents != [] ==> e == contents[0]
    {
      EmptyIff();
      if IsEmpty() {
        e := null;
      } else {
        assert At(0).next == At(1);
        e := head.next;
      }
    }

    method GetNext(e: Elem, ghost k: nat) returns (next: Elem?)
      requires Valid() && k < |contents| && contents[k] == e
      ensures k + 1 == |contents| ==> next == null
      ensures k + 1 < |contents| ==> next == contents[k + 1]
    {
      assert At(k + 1).next == At(k + 2);
      next := e.next;
      if next == head {
        next := null;
      }
    }

    /**
     One turn of the iteration over s at its i-th element: the successor is fetched before the body may
     remove the element.
     */
    method Visit(elem: Elem, remove: bool, ghost s: seq<Elem>, ghost drop: set<Elem>, ghost i: nat) returns (next: Elem?)
      requires Valid() && i < |s| && contents == Partly(s, drop, i) && elem == s[i] && remove == (elem in drop)
      modifies this, head, contents
      ensures Valid() && contents == Partly(s, drop, i + 1)
      ensures next == if i + 1 < |s| then s[i + 1] else null
    {
      hide Without, Partly, Valid;
      ghost var k := PartlyTurn(s, drop, i);
      next := GetNext(elem, k);
      if remove {
        Remove(elem, k);
      }
    }

    /** The iteration macro, with a body that removes those of the elements it visits that are in `drop`. */
    method ForEach(drop: set<Elem>) returns (ghost visited: seq<Elem>)
      requires Valid()
      modifies this, head, contents
      ensures Valid()
      ensures visited == old(contents)
      ensures contents == Without(old(contents), drop)
    {
      hide Without, Partly, Valid;
      ghost var s := contents;
      ghost var i := 0;
      visited := [];
      PartlyEnds(s, drop);
      var elem := GetFront();
      while elem != null
        invariant Valid() && 0 <= i <= |s| && contents == Partly(s, drop, i)
        invariant visited == s[..i]
        invariant elem == if i < |s| then s[i] else null
        decreases |s| - i
      {
        forall j | 0 <= j < |contents| ensures contents[j] in s {
          PartlyWithin(s, drop, i, contents[j]);
        }
        visited := visited + [elem];
        elem := Visit(elem, elem in drop, s, drop, i);
        i := i + 1;
      }
    }
  }
}

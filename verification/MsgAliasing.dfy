/**
 When N does not divide F the message buffer is not a map any more.

 `init` checks only that 2 * N < F. Slots are chosen by reducing the wrapped index modulo N, so at the
 wrap the numbering of slots jumps unless N divides F, and two live messages can meet in one slot.
 The agreement of `MsgLedger.RunAgrees` therefore holds if and only if N divides F.
 */
module MsgAliasing {
  import opened Arithmetic
  import opened Collections
  import opened MsgBuff
  import opened MsgLedger

  type Ops = seq<(Op<bool>, nat)>

  /** Use up the numbers before the last one, then start the last one and one just behind the wrap. */
  function Confuse(i: nat, n: nat, f: nat): (ops: Ops)
    requires 0 < n && i < f
    decreases f - i
  {
    if i == f - 1 then
      [(DoInsert(true, Req), f - 1), (DoInsert(false, Req), f - 1 + f % n), (DoRetrieve, f - 1)]
    else
      [(DoInsert(true, Req), i), (DoComplete, i)] + Confuse(i + 1, n, f)
  }

  lemma {:induction false} OneMessageRing(r: Ring<bool>, i: nat)
    requires Sized(r) && r.last == i && r.next == i && i + 1 < r.fieldSize
    ensures var r1 := RingStep(r, DoInsert(true, Req), i).0;
            var r2 := RingStep(r1, DoComplete, i).0;
            && r1 == SetSlot(r, i, Slot(InProgress, Req, Some(true))).(next := i + 1)
            && r2.last == i + 1 && r2.next == i + 1
            && Sized(r2) && |r2.slots| == |r.slots| && r2.fieldSize == r.fieldSize
  {
    NextIndex(i, r.fieldSize);
    var s := SetSlot(r, i, Slot(InProgress, Req, Some(true)));
    var r1 := s.(next := i + 1);
    assert CatchUp(r1, i) == r1;
    assert CatchUp(s, i) == CatchUp(r1, i);
    assert IdxStatus(r1, i) == InProgress;
    var c := SetSlot(r1, i, SlotAt(r1, i).(stat := Completed, elem := None));
    assert Retire(c) == Retire(c.(last := i + 1));
    assert Retire(c.(last := i + 1)) == c.(last := i + 1);
  }

  lemma {:induction false} OneMessageLedger(i: nat, n: nat)
    requires n > 0
    ensures var a := Ledger(i, map[]);
            var a1 := LedgerStep(a, DoInsert(true, Req), i, n).0;
            a1 == Ledger(i, map[i := Live(Req, true)])
            && LedgerStep(a1, DoComplete, i, n).0 == Ledger(i + 1, map[])
  {
    var done: Ledger<bool> := Ledger(i, map[i := Done]);
    assert done.entries - {i} == map[];
    assert Trim(done) == Trim(Ledger(i + 1, map[]));
    assert map[i := Live(Req, true)][i := Done] == done.entries;
  }

  /** Catching up inside the first N indices, where an index is its own slot. */
  lemma {:induction false} CatchUpLow(r: Ring<bool>, idx: nat)
    requires Sized(r) && r.next <= idx < |r.slots|
    ensures var r' := CatchUp(r, idx);
            r'.next == idx + 1 && r'.slots[idx] == r.slots[idx]
    decreases idx - r.next
  {
    NextIndex(r.next, r.fieldSize);
    ModSmall(r.next, |r.slots|);
    var s := if r.next != idx then SetSlot(r, r.next, Cleared(SlotAt(r, r.next))) else r;
    var s' := s.(next := r.next + 1);
    assert CatchUp(r, idx) == CatchUp(s', idx);
    if r.next < idx {
      CatchUpLow(s', idx);
    } else {
      assert CatchUp(s', idx) == s';
    }
  }

  lemma {:induction false} LastIndexSlot(n: nat, f: nat)
    requires 0 < n && f % n != 0
    ensures (f - 1) % n == f % n - 1
  {
    DivModUnique(f - 1, f / n, f % n - 1, n);
  }

  /** The message f - 1 and the message f % n after it share a slot, and the later one wins. */
  lemma {:induction false} LastMessageLost(r: Ring<bool>, op0: Op<bool>, x0: nat, op1: Op<bool>, x1: nat)
    returns (r1: Ring<bool>, r2: Ring<bool>)
    requires Sized(r) && r.last == r.fieldSize - 1 && r.next == r.fieldSize - 1
    requires r.fieldSize % |r.slots| != 0
    requires op0 == DoInsert(true, Req) && x0 == r.fieldSize - 1
    requires op1 == DoInsert(false, Req) && x1 == r.fieldSize % |r.slots| - 1
    ensures r1 == RingStep(r, op0, x0).0
    ensures Sized(r1) && r1.fieldSize == r.fieldSize
    ensures r2 == RingStep(r1, op1, x1).0
    ensures Sized(r2) && r2.fieldSize == r.fieldSize
    ensures Retrieve(r2, x0) == (Success, InProgress, Some((Req, Some(false))))
  {
    var f, n := r.fieldSize, |r.slots|;
    var k := f % n;
    NextIndex(f - 1, f);
    LastIndexSlot(n, f);
    ModSmall(k - 1, n);
    var s := SetSlot(r, f - 1, Slot(InProgress, Req, Some(true)));
    r1 := s.(next := 0);
    assert CatchUp(r1, f - 1) == r1;
    assert CatchUp(s, f - 1) == CatchUp(r1, f - 1);
    assert IdxStatus(r1, k - 1) == NotStarted;
    var s2 := SetSlot(r1, k - 1, Slot(InProgress, Req, Some(false)));
    CatchUpLow(s2, k - 1);
    r2 := CatchUp(s2, k - 1);
  }

  lemma {:induction false} OneStep(r: Ring<bool>, ops: Ops)
    requires Sized(r) && ops != []
    ensures var r1 := RingStep(r, ops[0].0, ops[0].1 % r.fieldSize).0;
            && Sized(r1) && r1.fieldSize == r.fieldSize
            && |RingRun(r, ops).1| >= 1
            && RingRun(r, ops).1[1..] == RingRun(r1, ops[1..]).1
  {
    RingStepSized(r, ops[0].0, ops[0].1 % r.fieldSize);
  }

  lemma {:induction false} TwoSteps(r: Ring<bool>, r1: Ring<bool>, r2: Ring<bool>, ops: Ops)
    requires Sized(r) && |ops| >= 2
    requires r1 == RingStep(r, ops[0].0, ops[0].1 % r.fieldSize).0
    requires Sized(r1) && r1.fieldSize == r.fieldSize
    requires r2 == RingStep(r1, ops[1].0, ops[1].1 % r.fieldSize).0
    ensures Sized(r2)
    ensures |RingRun(r, ops).1| >= 2
    ensures RingRun(r, ops).1[2..] == RingRun(r2, ops[1..][1..]).1
  {
    OneStep(r, ops);
    OneStep(r1, ops[1..]);
    var replies := RingRun(r, ops).1;
    assert replies[1..][1..] == replies[2..];
  }

  lemma {:induction false} TwoLedgerSteps(a: Ledger<bool>, ops: Ops, room: nat)
    requires |ops| >= 2
    ensures var a1 := LedgerStep(a, ops[0].0, ops[0].1, room).0;
            var a2 := LedgerStep(a1, ops[1].0, ops[1].1, room).0;
            && |LedgerRun(a, ops, room).1| >= 2
            && LedgerRun(a, ops, room).1[2..] == LedgerRun(a2, ops[1..][1..], room).1
  {
    assert ops[1..][0] == ops[1];
  }

  /** One message started and completed: the two runs go on with what follows. */
  lemma {:induction false} OneMessageRuns(r: Ring<bool>, i: nat, ops: Ops) returns (r2: Ring<bool>)
    requires Sized(r) && r.last == i && r.next == i && i + 1 < r.fieldSize
    requires |ops| >= 2 && ops[0] == (DoInsert(true, Req), i) && ops[1] == (DoComplete, i)
    ensures Sized(r2) && |r2.slots| == |r.slots| && r2.fieldSize == r.fieldSize && r2.last == r2.next == i + 1
    ensures |RingRun(r, ops).1| >= 2 && RingRun(r, ops).1[2..] == RingRun(r2, ops[1..][1..]).1
  {
    hide RingRun, Insert, Complete;
    ModSmall(i, r.fieldSize);
    OneMessageRing(r, i);
    var r1 := RingStep(r, DoInsert(true, Req), i).0;
    r2 := RingStep(r1, DoComplete, i).0;
    TwoSteps(r, r1, r2, ops);
  }

  lemma {:induction false} OneMessageLedgerRuns(i: nat, n: nat, ops: Ops)
    requires n > 0
    requires |ops| >= 2 && ops[0] == (DoInsert(true, Req), i) && ops[1] == (DoComplete, i)
    ensures var a, a2, rest := Ledger(i, map[]), Ledger(i + 1, map[]), ops[1..][1..];
            && |LedgerRun(a, ops, n).1| >= 2
            && LedgerRun(a, ops, n).1[2..] == LedgerRun(a2, rest, n).1
            && (RunInWindow(a2, rest, n) ==> RunInWindow(a, ops, n))
  {
    hide LedgerRun;
    OneMessageLedger(i, n);
    TwoLedgerSteps(Ledger(i, map[]), ops, n);
    assert ops[1..][0] == ops[1];
  }

  lemma {:induction false} ConfuseDiverges(r: Ring<bool>, i: nat)
    requires Sized(r) && r.last == i && r.next == i
    requires r.fieldSize % |r.slots| != 0
    ensures var n := |r.slots|;
            var ops := Confuse(i, n, r.fieldSize);
            && RunInWindow(Ledger(i, map[]), ops, n)
            && RingRun(r, ops).1 != LedgerRun(Ledger(i, map[]), ops, n).1
    decreases r.fieldSize - i
  {
    hide RingRun, LedgerRun, RunInWindow;
    var f, n := r.fieldSize, |r.slots|;
    var ops := Confuse(i, n, f);
    if i < f - 1 {
      assert ops[1..][1..] == Confuse(i + 1, n, f);
      var r2 := OneMessageRuns(r, i, ops);
      OneMessageLedgerRuns(i, n, ops);
      ConfuseDiverges(r2, i + 1);
    } else {
      RingAtWrap(r, ops);
      LedgerAtWrap(f, n);
    }
  }

  lemma {:induction false} LedgerAtWrap(f: nat, n: nat)
    requires 0 < n && 2 * n < f && f % n != 0
    ensures var i := f - 1;
            var ops := Confuse(i, n, f);
            && RunInWindow(Ledger(i, map[]), ops, n)
            && |LedgerRun(Ledger(i, map[]), ops, n).1| == 3
            && LedgerRun(Ledger(i, map[]), ops, n).1[2].found == Some((Req, Some(true)))
  {
    var i, k := f - 1, f % n;
    var ops := Confuse(i, n, f);
    var last: Ops := [(DoRetrieve, i)];
    assert ops[1..][1..] == last;
    TwoLedgerSteps(Ledger(i, map[]), ops, n);
    var a1: Ledger<bool> := Ledger(i, map[i := Live(Req, true)]);
    var a2: Ledger<bool> := Ledger(i, map[i := Live(Req, true), i + k := Live(Req, false)]);
    assert LedgerStep(Ledger(i, map[]), DoInsert(true, Req), i, n).0 == a1;
    assert LedgerStep(a1, DoInsert(false, Req), i + k, n).0 == a2;
    assert RunInWindow(a2, last, n);
    assert LedgerRun(a2, last, n).1[0].found == Some((Req, Some(true)));
  }

  lemma {:induction false} RingAtWrap(r: Ring<bool>, ops: Ops)
    requires Sized(r) && r.last == r.fieldSize - 1 && r.next == r.fieldSize - 1
    requires r.fieldSize % |r.slots| != 0
    requires |ops| == 3
    requires ops[0] == (DoInsert(true, Req), r.last)
    requires ops[1] == (DoInsert(false, Req), r.last + r.fieldSize % |r.slots|)
    requires ops[2] == (DoRetrieve, r.last)
    ensures |RingRun(r, ops).1| == 3
    ensures RingRun(r, ops).1[2].found == Some((Req, Some(false)))
  {
    WrappedNeighbour(|r.slots|, r.fieldSize);
    ModSmall(r.last, r.fieldSize);
    var f := r.fieldSize;
    var r1, r2 := LastMessageLost(r, ops[0].0, ops[0].1 % f, ops[1].0, ops[1].1 % f);
    ThreeSteps(r, r1, r2, ops);
  }

  lemma {:induction false} WrappedNeighbour(n: nat, f: nat)
    requires 0 < n && 2 * n < f && f % n != 0
    ensures (f - 1 + f % n) % f == f % n - 1
  {
    ModAddMultiple(f % n - 1, 1, f);
    ModSmall(f % n - 1, f);
  }

  lemma {:induction false} ThreeSteps(r: Ring<bool>, r1: Ring<bool>, r2: Ring<bool>, ops: Ops)
    requires Sized(r) && |ops| == 3 && ops[2].0.DoRetrieve?
    requires r1 == RingStep(r, ops[0].0, ops[0].1 % r.fieldSize).0
    requires Sized(r1) && r1.fieldSize == r.fieldSize
    requires r2 == RingStep(r1, ops[1].0, ops[1].1 % r.fieldSize).0
    ensures Sized(r2)
    ensures |RingRun(r, ops).1| == 3
    ensures RingRun(r, ops).1[2].found == Retrieve(r2, ops[2].1 % r2.fieldSize).2
  {
    TwoSteps(r, r1, r2, ops);
    RetrieveRun(r2, ops[1..][1..]);
    assert RingRun(r, ops).1[2] == RingRun(r, ops).1[2..][0];
  }

  lemma {:induction false} RetrieveRun(r: Ring<bool>, ops: Ops)
    requires Sized(r) && |ops| == 1 && ops[0].0.DoRetrieve?
    ensures |RingRun(r, ops).1| == 1
    ensures RingRun(r, ops).1[0].found == Retrieve(r, ops[0].1 % r.fieldSize).2
  {
    assert RingRun(r, ops[1..]).1 == [];
  }

  /** A fresh buffer answers every run inside the window as the map does. */
  ghost predicate AlwaysAgrees(n: nat, f: nat)
    requires 0 < n && 2 * n < f
  {
    forall garbage: seq<Slot<bool>>, ops: Ops ::
      |garbage| == n && RunInWindow(Ledger(0, map[]), ops, n) ==>
        RingRun(Ring(garbage, f, 0, 0), ops).1 == LedgerRun(Ledger(0, map[]), ops, n).1
  }

  /** The buffer that `init` builds is a map on sequence numbers if and only if N divides F. */
  lemma {:induction false} AgreesIffDivisible(n: nat, f: nat)
    requires 0 < n && 2 * n < f
    ensures AlwaysAgrees(n, f) <==> f % n == 0
  {
    var empty: Slot<bool> := Slot(NotStarted, Req, None);
    var garbage := seq(n, _ => empty);
    if f % n == 0 {
      forall garbage: seq<Slot<bool>>, ops: Ops | |garbage| == n && RunInWindow(Ledger(0, map[]), ops, n)
        ensures RingRun(Ring(garbage, f, 0, 0), ops).1 == LedgerRun(Ledger(0, map[]), ops, n).1
      {
        FreshTracks(garbage, f);
        RunAgrees(Ring(garbage, f, 0, 0), 0, ops);
      }
    } else {
      ConfuseDiverges(Ring(garbage, f, 0, 0), 0);
    }
  }
}

/**
 A message buffer on wrapped indices behaves like a map on unbounded sequence numbers.

 The ledger below is that map. `Abs` reads a ring as a ledger once the unbounded number `low` of its
 oldest incomplete message is known. With N slots and F sequence numbers, every operation on a
 wrapped index n % F agrees with the operation of the ledger on n, for every n in [low - N, low + N),
 provided N divides F; when it does not, `MsgAliasing.ConfuseDiverges` exhibits the run that goes wrong.
 */
module MsgLedger {
  import opened Arithmetic
  import opened Collections
  import opened MsgBuff

  /** An entry of the ledger: live, or completed ahead of an older message. */
  datatype Entry<+E> = Live(kind: Kind, elem: E) | Done

  datatype Ledger<E> = Ledger(low: nat, entries: map<nat, Entry<E>>)

  // ---------------------------------------------------------------------------------------------
  // The ledger's operations

  function LStatus<E>(a: Ledger<E>, n: int, room: nat): Status
  {
    if n < a.low then Completed
    else if n in a.entries then (if a.entries[n].Live? then InProgress else Completed)
    else if n < a.low + room then NotStarted
    else Unavailable
  }

  function LInsert<E>(a: Ledger<E>, n: nat, elem: E, kind: Kind, room: nat): (out: (Ledger<E>, Result, Status))
  {
    var st := LStatus(a, n, room);
    if st == NotStarted then (a.(entries := a.entries[n := Live(kind, elem)]), Success, st)
    else (a, InvalidIdx, st)
  }

  function LReplace<E>(a: Ledger<E>, n: nat, elem: E, kind: Kind, room: nat): (out: (Ledger<E>, Result, Status))
  {
    var st := LStatus(a, n, room);
    if st == InProgress then (a.(entries := a.entries[n := Live(kind, elem)]), Success, st)
    else (a, InvalidIdx, st)
  }

  function LRetrieve<E>(a: Ledger<E>, n: nat, room: nat): (out: (Result, Status, Option<(Kind, Option<E>)>))
  {
    var st := LStatus(a, n, room);
    if st == InProgress then (Success, st, Some((a.entries[n].kind, Some(a.entries[n].elem))))
    else (InvalidIdx, Visible(st), None)
  }

  /** Drop the completed entries at the low end. */
  function Trim<E>(a: Ledger<E>): (a': Ledger<E>)
    decreases |a.entries|
  {
    if a.low in a.entries && a.entries[a.low].Done? then Trim(Ledger(a.low + 1, a.entries - {a.low})) else a
  }

  function LComplete<E>(a: Ledger<E>, n: nat, room: nat): (out: (Ledger<E>, Result, Status))
  {
    var st := LStatus(a, n, room);
    if st == InProgress then (Trim(a.(entries := a.entries[n := Done])), Success, st)
    else (a, InvalidIdx, Visible(st))
  }

  // ---------------------------------------------------------------------------------------------
  // Reading a ring as a ledger

  function High<E>(r: Ring<E>, low: nat): int
  {
    low + NumInflight(r)
  }

  function At<E>(r: Ring<E>, n: nat): Slot<E>
    requires Sized(r)
  {
    SlotAt(r, n % r.fieldSize)
  }

  /** The slot of a message inside the window: something the operations may have left there. */
  predicate SlotOk<E>(s: Slot<E>)
  {
    s.stat != Unavailable && (s.stat == InProgress ==> s.elem.Some?)
  }

  /**
   What every operation keeps: at most N indices between the two pointers, meaningful slots between
   them, and an oldest message that is not completed (or an empty window).
   */
  ghost predicate Tracks<E>(r: Ring<E>, low: nat)
  {
    && Sized(r)
    && r.last == low % r.fieldSize
    && NumInflight(r) <= |r.slots|
    && (forall n {:trigger At(r, n)} :: low <= n < High(r, low) ==> SlotOk(At(r, n)))
  }

  ghost predicate Settled<E>(r: Ring<E>, low: nat)
    requires Sized(r)
  {
    low < High(r, low) ==> At(r, low).stat != Completed
  }

  function EntryOf<E>(s: Slot<E>): Entry<E>
    requires SlotOk(s)
  {
    if s.stat == InProgress then Live(s.kind, s.elem.value) else Done
  }

  ghost function Abs<E>(r: Ring<E>, low: nat): Ledger<E>
    requires Tracks(r, low)
  {
    Ledger(low, map n | low <= n < High(r, low) && At(r, n).stat != NotStarted :: EntryOf(At(r, n)))
  }

  /** The window of sequence numbers on which ring and ledger agree. */
  predicate InWindow<E>(r: Ring<E>, low: nat, n: int)
  {
    low - |r.slots| <= n < low + |r.slots|
  }

  // ---------------------------------------------------------------------------------------------
  // Positions

  predicate Divisible<E>(r: Ring<E>)
  {
    |r.slots| > 0 && r.fieldSize % |r.slots| == 0
  }

  function Pos<E>(r: Ring<E>, n: nat): nat
    requires Sized(r)
  {
    (n % r.fieldSize) % |r.slots|
  }

  /** Two messages less than N apart never share a slot, also across the wrap. */
  lemma {:induction false} PosDistinct<E>(r: Ring<E>, n: nat, m: nat)
    requires Sized(r) && Divisible(r)
    requires n != m && -|r.slots| < n - m < |r.slots|
    ensures Pos(r, n) != Pos(r, m)
  {
    ModOfMod(n, r.fieldSize, |r.slots|);
    ModOfMod(m, r.fieldSize, |r.slots|);
    ModEqual(n, m, |r.slots|);
  }

  /** Distances between wrapped indices are distances between the messages. */
  lemma {:induction false} DistanceIs(f: nat, front: int, back: int)
    requires back <= front < back + f
    ensures Distance(f, front % f, back % f) == front - back
  {
    var d := front - back;
    var b := back % f;
    ModAddLeft(back, d, f);
    if b + d < f {
      ModSmall(b + d, f);
    } else {
      ModAddMultiple(b + d - f, 1, f);
      ModSmall(b + d - f, f);
    }
  }

  lemma {:induction false} NextIs<E>(r: Ring<E>, low: nat)
    requires Sized(r) && r.last == low % r.fieldSize && 0 <= NumInflight(r) <= |r.slots|
    ensures r.next == High(r, low) % r.fieldSize
  {
    var d := NumInflight(r);
    ModAddLeft(low, d, r.fieldSize);
    if r.last + d < r.fieldSize {
      ModSmall(r.last + d, r.fieldSize);
    } else {
      ModAddMultiple(r.last + d - r.fieldSize, 1, r.fieldSize);
      ModSmall(r.last + d - r.fieldSize, r.fieldSize);
    }
  }

  // ---------------------------------------------------------------------------------------------
  // Classification

  /** The three distances `get_idx_status` compares, for a message of the window. */
  lemma {:induction false} WindowDistances<E>(r: Ring<E>, low: nat, n: int)
    requires Tracks(r, low) && InWindow(r, low, n)
    ensures var f := r.fieldSize;
            && (n >= low ==> Distance(f, n % f, r.last) == n - low)
            && (n < low ==> Distance(f, n % f, r.last) == n - low + f)
            && (n < low ==> Distance(f, r.last, n % f) == low - n && n % f != r.last)
            && (n > low ==> Distance(f, r.last, n % f) == f - (n - low))
            && (n >= High(r, low) ==> Distance(f, n % f, r.next) == n - High(r, low))
  {
    var f := r.fieldSize;
    NextIs(r, low);
    if n >= low {
      DistanceIs(f, n, low);
      if n >= High(r, low) {
        DistanceIs(f, n, High(r, low));
      }
    } else {
      DistanceIs(f, low, n);
      ModEqual(low, n, f);
    }
  }

  /**
   Status agreement inside the window. The numbers just below 0 count as completed, as the code has it.
   */
  lemma {:induction false} StatusAgrees<E>(r: Ring<E>, low: nat, n: int)
    requires Tracks(r, low) && InWindow(r, low, n)
    ensures IdxStatus(r, n % r.fieldSize) == LStatus(Abs(r, low), n, |r.slots|)
  {
    WindowDistances(r, low, n);
    if low <= n < High(r, low) {
      assert SlotOk(At(r, n));
    }
  }

  /** Every residue that no number of the window has is reported as having no room. */
  lemma {:induction false} OutsideUnavailable<E>(r: Ring<E>, low: nat, idx: nat)
    requires Tracks(r, low) && idx < r.fieldSize
    requires forall n {:trigger InWindow(r, low, n)} :: InWindow(r, low, n) ==> n % r.fieldSize != idx
    ensures IdxStatus(r, idx) == Unavailable
  {
    var f := r.fieldSize;
    var up := Distance(f, idx, r.last);
    // The first number at or after `low` with this residue is `low + up`, the last one before it is f lower.
    assert (low + up) % f == idx by {
      ModAddLeft(low, up, f);
      ModSmall(idx, f);
      if r.last + up != idx {
        ModAddMultiple(idx, 1, f);
      }
    }
    assert !InWindow(r, low, low + up);
    assert (low + up - f) % f == idx by {
      ModAddMultiple(low + up, -1, f);
    }
    assert !InWindow(r, low, low + up - f);
  }

  // ---------------------------------------------------------------------------------------------
  // Insert

  lemma {:induction false} SetSlotAt<E>(r: Ring<E>, n: nat, s: Slot<E>, m: nat)
    requires Sized(r) && Divisible(r) && -|r.slots| < n - m < |r.slots|
    ensures var r' := SetSlot(r, n % r.fieldSize, s);
            Sized(r') && At(r', m) == if m == n then s else At(r, m)
  {
    if m != n {
      PosDistinct(r, n, m);
    }
  }

  function Cleared<E>(s: Slot<E>): Slot<E>
  {
    s.(stat := NotStarted, elem := None)
  }

  /** Catching up to a message ahead of `next` clears exactly the messages stepped over. */
  lemma {:induction false} CatchUpAhead<E>(r: Ring<E>, low: nat, n: nat)
    requires Sized(r) && Divisible(r) && r.last == low % r.fieldSize && NumInflight(r) <= |r.slots|
    requires High(r, low) <= n < low + |r.slots|
    ensures var r' := CatchUp(r, n % r.fieldSize);
            && High(r', low) == n + 1
            && (forall m {:trigger At(r', m)} :: low <= m <= n ==>
                  At(r', m) == if High(r, low) <= m < n then Cleared(At(r, m)) else At(r, m))
    decreases n - High(r, low)
  {
    var f, h := r.fieldSize, High(r, low);
    NextIs(r, low);
    DistanceIs(f, n, h);
    ModEqual(h, n, f);
    var s := if h < n then SetSlot(r, h % f, Cleared(At(r, h))) else r;
    var s' := s.(next := (r.next + 1) % f);
    NextIndex(r.next, f);
    DistanceIs(f, h + 1, low);
    ModAddLeft(h, 1, f);
    assert High(s', low) == h + 1;
    var r' := CatchUp(s', n % f);
    assert r' == CatchUp(r, n % f);
    if h < n {
      CatchUpAhead(s', low, n);
    } else {
      CatchUpBehind(s', low, n);
    }
    forall m | low <= m <= n
      ensures At(r', m) == if h <= m < n then Cleared(At(r, m)) else At(r, m)
    {
      if h < n {
        SetSlotAt(r, h, Cleared(At(r, h)), m);
      }
    }
  }

  /** Nothing moves when the message lies below `next`. */
  lemma {:induction false} CatchUpBehind<E>(r: Ring<E>, low: nat, n: nat)
    requires Sized(r) && r.last == low % r.fieldSize
    requires NumInflight(r) <= |r.slots| && low <= n < High(r, low)
    ensures CatchUp(r, n % r.fieldSize) == r
  {
    NextIs(r, low);
    DistanceIs(r.fieldSize, High(r, low), n);
    ModEqual(High(r, low), n, r.fieldSize);
  }

  /** Pointwise effect of a successful insert on the window. */
  lemma {:induction false} InsertShape<E>(r: Ring<E>, low: nat, n: nat, slot: Slot<E>)
    requires Tracks(r, low) && Divisible(r)
    requires low <= n < low + |r.slots|
    ensures var r' := CatchUp(SetSlot(r, n % r.fieldSize, slot), n % r.fieldSize);
            && High(r', low) == Max(High(r, low), n + 1)
            && (forall m {:trigger At(r', m)} :: low <= m < High(r', low) ==>
                  At(r', m) == if m == n then slot else if m < High(r, low) then At(r, m) else Cleared(At(r, m)))
  {
    var s := SetSlot(r, n % r.fieldSize, slot);
    if n < High(r, low) {
      CatchUpBehind(s, low, n);
    } else {
      CatchUpAhead(s, low, n);
    }
    var r' := CatchUp(s, n % r.fieldSize);
    forall m | low <= m < High(r', low)
      ensures At(r', m) == if m == n then slot else if m < High(r, low) then At(r, m) else Cleared(At(r, m))
    {
      SetSlotAt(r, n, slot, m);
    }
  }

  /** A window that differs from another in one entry and possibly in fresh entries at its end. */
  lemma {:induction false} AbsWith<E>(r: Ring<E>, r': Ring<E>, low: nat, n: nat, slot: Slot<E>)
    requires Tracks(r, low)
    requires Sized(r') && r'.last == low % r'.fieldSize && NumInflight(r') <= |r'.slots|
    requires low <= n < High(r', low) && High(r, low) <= High(r', low)
    requires SlotOk(slot) && slot.stat != NotStarted
    requires forall m {:trigger At(r', m)} :: low <= m < High(r', low) ==>
               if m == n then At(r', m) == slot
               else if m < High(r, low) then At(r', m) == At(r, m)
               else At(r', m).stat == NotStarted
    ensures Tracks(r', low)
    ensures Abs(r', low) == Ledger(low, Abs(r, low).entries[n := EntryOf(slot)])
  {
    forall m | low <= m < High(r', low) ensures SlotOk(At(r', m)) {
      if m < High(r, low) {
        assert SlotOk(At(r, m));
      }
    }
  }

  lemma {:induction false} InsertAbs<E>(r: Ring<E>, low: nat, n: nat, slot: Slot<E>)
    requires Tracks(r, low) && Divisible(r)
    requires low <= n < low + |r.slots|
    requires slot.stat == InProgress && slot.elem.Some?
    ensures var r' := CatchUp(SetSlot(r, n % r.fieldSize, slot), n % r.fieldSize);
            && Tracks(r', low)
            && Abs(r', low) == Ledger(low, Abs(r, low).entries[n := EntryOf(slot)])
  {
    InsertShape(r, low, n, slot);
    AbsWith(r, CatchUp(SetSlot(r, n % r.fieldSize, slot), n % r.fieldSize), low, n, slot);
  }

  lemma {:induction false} InsertSettled<E>(r: Ring<E>, low: nat, n: nat, slot: Slot<E>)
    requires Tracks(r, low) && Settled(r, low) && Divisible(r)
    requires low <= n < low + |r.slots|
    requires slot.stat == InProgress
    ensures Settled(CatchUp(SetSlot(r, n % r.fieldSize, slot), n % r.fieldSize), low)
  {
    InsertShape(r, low, n, slot);
  }

  lemma {:induction false} InsertAgrees<E>(r: Ring<E>, low: nat, n: nat, elem: E, kind: Kind)
    requires Tracks(r, low) && Divisible(r) && InWindow(r, low, n)
    ensures var (r', res, st) := Insert(r, n % r.fieldSize, elem, kind);
            var (a', lres, lst) := LInsert(Abs(r, low), n, elem, kind, |r.slots|);
            && res == lres && st == lst
            && Tracks(r', low) && Divisible(r') && |r'.slots| == |r.slots|
            && Abs(r', low) == a'
            && (Settled(r, low) ==> Settled(r', low))
  {
    StatusAgrees(r, low, n);
    if LStatus(Abs(r, low), n, |r.slots|) == NotStarted {
      var slot := Slot(InProgress, kind, Some(elem));
      InsertAbs(r, low, n, slot);
      if Settled(r, low) {
        InsertSettled(r, low, n, slot);
      }
    }
  }

  // ---------------------------------------------------------------------------------------------
  // Replace, retrieve, complete

  lemma {:induction false} ReplaceAgrees<E>(r: Ring<E>, low: nat, n: nat, elem: E, kind: Kind)
    requires Tracks(r, low) && Divisible(r) && InWindow(r, low, n)
    ensures var (r', res, st) := Replace(r, n % r.fieldSize, elem, kind);
            var (a', lres, lst) := LReplace(Abs(r, low), n, elem, kind, |r.slots|);
            && res == lres && st == lst
            && Tracks(r', low) && Divisible(r') && |r'.slots| == |r.slots|
            && Abs(r', low) == a'
            && (Settled(r, low) ==> Settled(r', low))
  {
    StatusAgrees(r, low, n);
    if IdxStatus(r, n % r.fieldSize) == InProgress {
      var slot := Slot(InProgress, kind, Some(elem));
      SetSlotAbs(r, low, n, slot);
      SetSlotAt(r, n, slot, low);
    }
  }

  /** Overwriting the slot of a message of the window. */
  lemma {:induction false} SetSlotAbs<E>(r: Ring<E>, low: nat, n: nat, slot: Slot<E>)
    requires Tracks(r, low) && Divisible(r) && low <= n < High(r, low)
    requires SlotOk(slot) && slot.stat != NotStarted
    ensures var r' := SetSlot(r, n % r.fieldSize, slot);
            Tracks(r', low) && Abs(r', low) == Ledger(low, Abs(r, low).entries[n := EntryOf(slot)])
  {
    var r' := SetSlot(r, n % r.fieldSize, slot);
    forall m | low <= m < High(r', low) ensures At(r', m) == if m == n then slot else At(r, m) {
      SetSlotAt(r, n, slot, m);
    }
    AbsWith(r, r', low, n, slot);
  }

  lemma {:induction false} RetrieveAgrees<E>(r: Ring<E>, low: nat, n: nat)
    requires Tracks(r, low) && InWindow(r, low, n)
    ensures Retrieve(r, n % r.fieldSize) == LRetrieve(Abs(r, low), n, |r.slots|)
  {
    StatusAgrees(r, low, n);
    if low <= n < High(r, low) {
      assert SlotOk(At(r, n));
    }
  }

  /** One step of the tail pointer drops the lowest entry. */
  lemma {:induction false} RetireOne<E>(r: Ring<E>, low: nat)
    requires Tracks(r, low) && low < High(r, low)
    ensures var r1 := r.(last := (r.last + 1) % r.fieldSize);
            && NumInflight(r1) == NumInflight(r) - 1
            && Tracks(r1, low + 1)
            && Abs(r1, low + 1) == Ledger(low + 1, Abs(r, low).entries - {low})
  {
    var r1 := r.(last := (r.last + 1) % r.fieldSize);
    NextIndex(r.last, r.fieldSize);
    ModAddLeft(low, 1, r.fieldSize);
    assert High(r1, low + 1) == High(r, low);
    assert forall m {:trigger At(r1, m)} :: m >= 0 ==> At(r1, m) == At(r, m);
  }

  lemma {:induction false} TrimOne<E>(r: Ring<E>, low: nat)
    requires Tracks(r, low) && low < High(r, low) && At(r, low).stat == Completed
    ensures Trim(Abs(r, low)) == Trim(Ledger(low + 1, Abs(r, low).entries - {low}))
  {
  }

  lemma {:induction false} TrimNone<E>(r: Ring<E>, low: nat)
    requires Tracks(r, low) && (low < High(r, low) ==> At(r, low).stat != Completed)
    ensures Trim(Abs(r, low)) == Abs(r, low)
  {
  }

  /** Moving the tail pointer over completed messages is trimming the ledger. */
  lemma {:induction false} RetireTrims<E>(r: Ring<E>, low: nat)
    requires Tracks(r, low)
    ensures var r' := Retire(r);
            var a' := Trim(Abs(r, low));
            Tracks(r', a'.low) && Abs(r', a'.low) == a' && Settled(r', a'.low)
    decreases NumInflight(r)
  {
    if low < High(r, low) && At(r, low).stat == Completed {
      RetireOne(r, low);
      var r1 := r.(last := (r.last + 1) % r.fieldSize);
      RetireTrims(r1, low + 1);
      assert Retire(r) == Retire(r1);
      TrimOne(r, low);
    } else {
      assert Retire(r) == r;
      TrimNone(r, low);
    }
  }

  lemma {:induction false} CompleteAgrees<E>(r: Ring<E>, low: nat, n: nat)
    requires Tracks(r, low) && Divisible(r) && InWindow(r, low, n)
    ensures var (r', res, st) := Complete(r, n % r.fieldSize);
            var (a', lres, lst) := LComplete(Abs(r, low), n, |r.slots|);
            && res == lres && st == lst
            && Tracks(r', a'.low) && Divisible(r') && |r'.slots| == |r.slots|
            && Abs(r', a'.low) == a'
            && (Settled(r, low) ==> Settled(r', a'.low))
  {
    StatusAgrees(r, low, n);
    if IdxStatus(r, n % r.fieldSize) == InProgress {
      var slot := At(r, n).(stat := Completed, elem := None);
      SetSlotAbs(r, low, n, slot);
      RetireTrims(SetSlot(r, n % r.fieldSize, slot), low);
    }
  }

  // ---------------------------------------------------------------------------------------------
  // Runs

  datatype Op<+E> =
    | DoInsert(elem: E, kind: Kind)
    | DoReplace(elem: E, kind: Kind)
    | DoRetrieve
    | DoComplete

  datatype Reply<+E> = Reply(res: Result, st: Status, found: Option<(Kind, Option<E>)>)

  function RingStep<E>(r: Ring<E>, op: Op<E>, idx: nat): (out: (Ring<E>, Reply<E>))
    requires Sized(r) && idx < r.fieldSize
  {
    match op
    case DoInsert(e, k) => var (r', res, st) := Insert(r, idx, e, k); (r', Reply(res, st, None))
    case DoReplace(e, k) => var (r', res, st) := Replace(r, idx, e, k); (r', Reply(res, st, None))
    case DoRetrieve => var (res, st, found) := Retrieve(r, idx); (r, Reply(res, st, found))
    case DoComplete => var (r', res, st) := Complete(r, idx); (r', Reply(res, st, None))
  }

  function LedgerStep<E>(a: Ledger<E>, op: Op<E>, n: nat, room: nat): (out: (Ledger<E>, Reply<E>))
  {
    match op
    case DoInsert(e, k) => var (a', res, st) := LInsert(a, n, e, k, room); (a', Reply(res, st, None))
    case DoReplace(e, k) => var (a', res, st) := LReplace(a, n, e, k, room); (a', Reply(res, st, None))
    case DoRetrieve => var (res, st, found) := LRetrieve(a, n, room); (a, Reply(res, st, found))
    case DoComplete => var (a', res, st) := LComplete(a, n, room); (a', Reply(res, st, None))
  }

  lemma {:induction false} StepAgrees<E>(r: Ring<E>, low: nat, op: Op<E>, n: nat)
    requires Tracks(r, low) && Settled(r, low) && Divisible(r) && InWindow(r, low, n)
    ensures var (r', reply) := RingStep(r, op, n % r.fieldSize);
            var (a', lreply) := LedgerStep(Abs(r, low), op, n, |r.slots|);
            && reply == lreply
            && Tracks(r', a'.low) && Settled(r', a'.low) && Divisible(r')
            && |r'.slots| == |r.slots| && r'.fieldSize == r.fieldSize
            && Abs(r', a'.low) == a'
  {
    match op
    case DoInsert(e, k) => InsertAgrees(r, low, n, e, k);
    case DoReplace(e, k) => ReplaceAgrees(r, low, n, e, k);
    case DoRetrieve => RetrieveAgrees(r, low, n);
    case DoComplete => CompleteAgrees(r, low, n);
  }

  /** The ledger after a run, and what every operation of the run answered. */
  function LedgerRun<E>(a: Ledger<E>, ops: seq<(Op<E>, nat)>, room: nat): (out: (Ledger<E>, seq<Reply<E>>))
    decreases |ops|
  {
    if ops == [] then (a, [])
    else
      var (a1, reply) := LedgerStep(a, ops[0].0, ops[0].1, room);
      var (a2, replies) := LedgerRun(a1, ops[1..], room);
      (a2, [reply] + replies)
  }

  function RingRun<E>(r: Ring<E>, ops: seq<(Op<E>, nat)>): (out: (Ring<E>, seq<Reply<E>>))
    requires Sized(r)
    decreases |ops|
  {
    if ops == [] then (r, [])
    else
      RingStepSized(r, ops[0].0, ops[0].1 % r.fieldSize);
      var (r1, reply) := RingStep(r, ops[0].0, ops[0].1 % r.fieldSize);
      var (r2, replies) := RingRun(r1, ops[1..]);
      (r2, [reply] + replies)
  }

  lemma {:induction false} RingStepSized<E>(r: Ring<E>, op: Op<E>, idx: nat)
    requires Sized(r) && idx < r.fieldSize
    ensures var r' := RingStep(r, op, idx).0;
            Sized(r') && |r'.slots| == |r.slots| && r'.fieldSize == r.fieldSize
  {
  }

  /** Every operation of the run concerns a message within N of the then oldest incomplete one. */
  ghost predicate RunInWindow<E>(a: Ledger<E>, ops: seq<(Op<E>, nat)>, room: nat)
    decreases |ops|
  {
    ops == [] ||
    (a.low - room <= ops[0].1 < a.low + room
     && RunInWindow(LedgerStep(a, ops[0].0, ops[0].1, room).0, ops[1..], room))
  }

  /**
   Message buffer refinement: over any run of inserts, replacements, lookups and completions on
   wrapped indices, every answer is the one a map on unbounded sequence numbers gives.
   */
  lemma {:induction false} RunAgrees<E>(r: Ring<E>, low: nat, ops: seq<(Op<E>, nat)>)
    requires Tracks(r, low) && Settled(r, low) && Divisible(r)
    requires RunInWindow(Abs(r, low), ops, |r.slots|)
    ensures var (r', replies) := RingRun(r, ops);
            var (a', lreplies) := LedgerRun(Abs(r, low), ops, |r.slots|);
            && replies == lreplies
            && Tracks(r', a'.low) && Settled(r', a'.low) && Abs(r', a'.low) == a'
    decreases |ops|
  {
    if ops != [] {
      StepAgrees(r, low, ops[0].0, ops[0].1);
      var a1 := LedgerStep(Abs(r, low), ops[0].0, ops[0].1, |r.slots|).0;
      RunAgrees(RingStep(r, ops[0].0, ops[0].1 % r.fieldSize).0, a1.low, ops[1..]);
    }
  }

  /** A fresh buffer, whatever its slots hold, is the empty ledger. */
  lemma {:induction false} FreshTracks<E>(garbage: seq<Slot<E>>, fieldSize: nat)
    requires |garbage| > 0 && 2 * |garbage| < fieldSize
    ensures var r := Ring(garbage, fieldSize, 0, 0);
            Tracks(r, 0) && Settled(r, 0) && Abs(r, 0) == Ledger(0, map[])
  {
    ModSmall(0, fieldSize);
  }

  // ---------------------------------------------------------------------------------------------
  // The life of a message

  /** Unavailable, then not started, then in progress, then completed. */
  function Stage(st: Status): nat
  {
    match st
    case Unavailable => 0
    case NotStarted => 1
    case InProgress => 2
    case Completed => 3
  }

  lemma {:induction false} TrimKeepsStatus<E>(a: Ledger<E>, n: nat, room: nat)
    requires room > 0
    ensures a.low <= Trim(a).low
    ensures Stage(LStatus(a, n, room)) <= Stage(LStatus(Trim(a), n, room))
    ensures n in a.entries && a.entries[n].Done? ==> LStatus(Trim(a), n, room) == Completed
    ensures n in a.entries && a.entries[n].Live? && n >= a.low ==> LStatus(Trim(a), n, room) == InProgress
    decreases |a.entries|
  {
    if a.low in a.entries && a.entries[a.low].Done? {
      TrimKeepsStatus(Ledger(a.low + 1, a.entries - {a.low}), n, room);
    }
  }

  /**
   No operation takes a message back to an earlier stage, an insert is the only way into progress and
   a completion the only way out of it; so each message is started once and completed once at most.
   */
  lemma {:induction false} LifeIsOneWay<E>(a: Ledger<E>, op: Op<E>, m: nat, n: nat, room: nat)
    requires room > 0
    ensures var (a', reply) := LedgerStep(a, op, m, room);
            var before, after := LStatus(a, n, room), LStatus(a', n, room);
            && Stage(before) <= Stage(after)
            && (before != InProgress && after == InProgress ==> op.DoInsert? && m == n && reply.res == Success && before == NotStarted)
            && (before != Completed && after == Completed ==> op.DoComplete? && m == n && reply.res == Success && before == InProgress)
  {
    if op.DoComplete? && LStatus(a, m, room) == InProgress {
      var a1 := a.(entries := a.entries[m := Done]);
      TrimKeepsStatus(a1, n, room);
      TrimUndone(a1, n, room);
    }
  }

  /** Trimming completes nothing. */
  lemma {:induction false} TrimUndone<E>(a: Ledger<E>, n: nat, room: nat)
    ensures LStatus(a, n, room) != Completed ==>
              LStatus(Trim(a), n, room) != Completed
              && (n in Trim(a).entries <==> n in a.entries)
    decreases |a.entries|
  {
    if a.low in a.entries && a.entries[a.low].Done? {
      TrimUndone(Ledger(a.low + 1, a.entries - {a.low}), n, room);
    }
  }

  /** How often an operation of the given kind succeeded on message n. */
  function Successes<E>(ops: seq<(Op<E>, nat)>, replies: seq<Reply<E>>, n: nat, insert: bool): nat
    requires |replies| == |ops|
    decreases |ops|
  {
    if ops == [] then 0
    else
      (if ops[0].1 == n && replies[0].res == Success && (if insert then ops[0].0.DoInsert? else ops[0].0.DoComplete?) then 1 else 0)
      + Successes(ops[1..], replies[1..], n, insert)
  }

  lemma {:induction false} RunLengths<E>(a: Ledger<E>, ops: seq<(Op<E>, nat)>, room: nat)
    ensures |LedgerRun(a, ops, room).1| == |ops|
    decreases |ops|
  {
    if ops != [] {
      RunLengths(LedgerStep(a, ops[0].0, ops[0].1, room).0, ops[1..], room);
    }
  }

  /** A success is a step of the message's life. */
  lemma {:induction false} SuccessIsStep<E>(a: Ledger<E>, op: Op<E>, n: nat, room: nat)
    requires room > 0
    ensures var (a', reply) := LedgerStep(a, op, n, room);
            var before, after := Stage(LStatus(a, n, room)), Stage(LStatus(a', n, room));
            && (op.DoInsert? && reply.res == Success ==> before == 1 && after == 2)
            && (op.DoComplete? && reply.res == Success ==> before == 2 && after == 3)
  {
    if op.DoComplete? && LStatus(a, n, room) == InProgress {
      TrimKeepsStatus(a.(entries := a.entries[n := Done]), n, room);
    }
  }

  lemma {:induction false} LedgerOnce<E>(a: Ledger<E>, ops: seq<(Op<E>, nat)>, n: nat, room: nat)
    requires room > 0
    ensures |LedgerRun(a, ops, room).1| == |ops|
    ensures var stage := Stage(LStatus(a, n, room));
            var replies := LedgerRun(a, ops, room).1;
            && Successes(ops, replies, n, true) <= (if stage <= 1 then 1 else 0)
            && Successes(ops, replies, n, false) <= (if stage <= 2 then 1 else 0)
            && Successes(ops, replies, n, false) <= Successes(ops, replies, n, true) + (if stage == 2 then 1 else 0)
    decreases |ops|
  {
    hide LStatus, LedgerStep, Stage;
    RunLengths(a, ops, room);
    if ops != [] {
      var (op, m) := ops[0];
      var (a1, reply) := LedgerStep(a, op, m, room);
      LedgerOnce(a1, ops[1..], n, room);
      LifeIsOneWay(a, op, m, n, room);
      SuccessIsStep(a, op, m, room);
      StageOf(LStatus(a, n, room));
      StageOf(LStatus(a1, n, room));
    }
  }

  lemma {:induction false} StageOf(st: Status)
    ensures (Stage(st) == 3 <==> st == Completed) && (Stage(st) == 2 <==> st == InProgress) && Stage(st) <= 3
  {
  }

  /**
   Over any run inside the window, from a fresh buffer, each message is inserted successfully at most
   once and completed successfully at most once, and it is completed only if it was inserted.
   */
  lemma {:induction false} StartedAndCompletedOnce<E>(garbage: seq<Slot<E>>, fieldSize: nat, ops: seq<(Op<E>, nat)>, n: nat)
    requires |garbage| > 0 && 2 * |garbage| < fieldSize && fieldSize % |garbage| == 0
    requires RunInWindow(Ledger(0, map[]), ops, |garbage|)
    ensures var replies := RingRun(Ring(garbage, fieldSize, 0, 0), ops).1;
            && |replies| == |ops|
            && Successes(ops, replies, n, false) <= Successes(ops, replies, n, true) <= 1
  {
    hide RingRun, LedgerRun, RunInWindow;
    FreshTracks(garbage, fieldSize);
    RunAgrees(Ring(garbage, fieldSize, 0, 0), 0, ops);
    var empty: Ledger<E> := Ledger(0, map[]);
    LedgerOnce(empty, ops, n, |garbage|);
    assert Stage(LStatus(empty, n, |garbage|)) <= 1;
  }
}

/**
 The message buffer: a circular buffer addressed by wrapping sequence numbers.

 `Ring` is the buffer as a value and the functions on it are the operations exactly as the code
 computes them on wrapped indices. `MessageBuffer` is the object the code updates in place, proved
 against those functions. `MsgLedger.dfy` relates a ring to a map on unbounded sequence numbers.
 */
module MsgBuff {
  import opened Arithmetic
  import opened Collections

  datatype Status = Completed | InProgress | NotStarted | Unavailable

  datatype Result = Success | InvalidIdx

  /** What a live slot holds: a request, or a receive buffer kept until its request shows up. */
  datatype Kind = Req | Buff

  datatype Slot<+E> = Slot(stat: Status, kind: Kind, elem: Option<E>)

  /** `last` is the oldest incomplete message and `next` one past the newest inserted one, both wrapped. */
  datatype Ring<+E> = Ring(slots: seq<Slot<E>>, fieldSize: nat, last: nat, next: nat)

  /** What `init` accepts: room for the live window and as much again on both of its sides. */
  predicate Sized<E>(r: Ring<E>)
  {
    |r.slots| > 0 && 2 * |r.slots| < r.fieldSize && r.last < r.fieldSize && r.next < r.fieldSize
  }

  function Distance(fieldSize: nat, front: int, back: int): int
  {
    (if front < back then fieldSize else 0) + front - back
  }

  function NumInflight<E>(r: Ring<E>): int
  {
    Distance(r.fieldSize, r.next, r.last)
  }

  function SlotAt<E>(r: Ring<E>, idx: nat): Slot<E>
    requires |r.slots| > 0
  {
    r.slots[idx % |r.slots|]
  }

  function SetSlot<E>(r: Ring<E>, idx: nat, s: Slot<E>): Ring<E>
    requires |r.slots| > 0
  {
    r.(slots := r.slots[idx % |r.slots| := s])
  }

  function IdxStatus<E>(r: Ring<E>, idx: nat): Status
    requires |r.slots| > 0
  {
    if Distance(r.fieldSize, idx, r.last) < NumInflight(r) then
      SlotAt(r, idx).stat
    else if idx != r.last && Distance(r.fieldSize, r.last, idx) <= |r.slots| then
      Completed
    else if Distance(r.fieldSize, idx, r.next) < Distance(r.fieldSize, |r.slots|, NumInflight(r)) then
      NotStarted
    else
      Unavailable
  }

  /** Bring `next` past `idx`; every index stepped over is recorded as not started. */
  function CatchUp<E>(r: Ring<E>, idx: nat): (r': Ring<E>)
    requires Sized(r) && idx < r.fieldSize
    ensures Sized(r') && |r'.slots| == |r.slots| && r'.fieldSize == r.fieldSize && r'.last == r.last
    decreases CatchUpSteps(r, idx)
  {
    if Distance(r.fieldSize, idx, r.next) <= |r.slots| then
      var s := if r.next != idx then SetSlot(r, r.next, SlotAt(r, r.next).(stat := NotStarted, elem := None)) else r;
      NextIndex(r.next, r.fieldSize);
      CatchUp(s.(next := (r.next + 1) % r.fieldSize), idx)
    else r
  }

  function CatchUpSteps<E>(r: Ring<E>, idx: nat): nat
    requires r.next < r.fieldSize
  {
    var d := Distance(r.fieldSize, idx, r.next);
    if 0 <= d <= |r.slots| then d + 1 else 0
  }

  /** One turn of the catch-up loop. */
  lemma {:induction false} CatchUpTurn<E>(r: Ring<E>, idx: nat, s: seq<Slot<E>>)
    requires Sized(r) && idx < r.fieldSize && Distance(r.fieldSize, idx, r.next) <= |r.slots|
    requires s == if r.next == idx then r.slots
                  else r.slots[r.next % |r.slots| := SlotAt(r, r.next).(stat := NotStarted, elem := None)]
    ensures var r' := Ring(s, r.fieldSize, r.last, (r.next + 1) % r.fieldSize);
            Sized(r') && CatchUp(r', idx) == CatchUp(r, idx) && CatchUpSteps(r', idx) < CatchUpSteps(r, idx)
  {
    NextIndex(r.next, r.fieldSize);
  }

  lemma {:induction false} NextIndex(i: nat, n: nat)
    requires i < n
    ensures (i + 1) % n == if i + 1 == n then 0 else i + 1
  {
    ModSucc(i, n);
    ModSmall(i, n);
  }

  function Insert<E>(r: Ring<E>, idx: nat, elem: E, kind: Kind): (out: (Ring<E>, Result, Status))
    requires Sized(r) && idx < r.fieldSize
    ensures Sized(out.0) && |out.0.slots| == |r.slots| && out.0.fieldSize == r.fieldSize
  {
    var st := IdxStatus(r, idx);
    if st == NotStarted then
      (CatchUp(SetSlot(r, idx, Slot(InProgress, kind, Some(elem))), idx), Success, st)
    else (r, InvalidIdx, st)
  }

  function Replace<E>(r: Ring<E>, idx: nat, elem: E, kind: Kind): (out: (Ring<E>, Result, Status))
    requires |r.slots| > 0
  {
    var st := IdxStatus(r, idx);
    if st == InProgress then (SetSlot(r, idx, Slot(InProgress, kind, Some(elem))), Success, st)
    else (r, InvalidIdx, st)
  }

  /** Lookups report an index with no room as merely not started. */
  function Visible(st: Status): Status
  {
    if st == Unavailable then NotStarted else st
  }

  function Retrieve<E>(r: Ring<E>, idx: nat): (out: (Result, Status, Option<(Kind, Option<E>)>))
    requires |r.slots| > 0
  {
    var st := IdxStatus(r, idx);
    if st == InProgress then (Success, st, Some((SlotAt(r, idx).kind, SlotAt(r, idx).elem)))
    else (InvalidIdx, Visible(st), None)
  }

  /** Move `last` over every completed message up to the first one that is not. */
  function Retire<E>(r: Ring<E>): (r': Ring<E>)
    requires Sized(r)
    ensures Sized(r') && r' == r.(last := r'.last)
    decreases NumInflight(r)
  {
    if r.last != r.next && SlotAt(r, r.last).stat == Completed then
      NextIndex(r.last, r.fieldSize);
      Retire(r.(last := (r.last + 1) % r.fieldSize))
    else r
  }

  function Complete<E>(r: Ring<E>, idx: nat): (out: (Ring<E>, Result, Status))
    requires Sized(r)
    ensures Sized(out.0) && |out.0.slots| == |r.slots| && out.0.fieldSize == r.fieldSize
  {
    var st := IdxStatus(r, idx);
    if st == InProgress then
      (Retire(SetSlot(r, idx, SlotAt(r, idx).(stat := Completed, elem := None))), Success, st)
    else (r, InvalidIdx, Visible(st))
  }

  // ---------------------------------------------------------------------------------------------
  // The object

  /** (uint16_t)(1 << bits): widths of 16 and more leave nothing in 16 bits. */
  function FieldSize(bits: nat): nat
  {
    if bits >= 16 then 0 else Pow2(bits)
  }

  function Pow2(k: nat): (p: nat)
    ensures p > 0
  {
    if k == 0 then 1 else 2 * Pow2(k - 1)
  }

  class MessageBuffer<E> {
    const buff: array<Slot<E>>
    const fieldSize: nat
    var msgLastIncomplete: nat
    var msgNext: nat

    ghost predicate Valid()
      reads this, buff
    {
      Sized(Contents())
    }

    function Contents(): Ring<E>
      reads this, buff
    {
      Ring(buff[..], fieldSize, msgLastIncomplete, msgNext)
    }

    /** The initial contents of the slots are whatever the allocator left there. */
    constructor (maxInprogress: nat, bits: nat, garbage: seq<Slot<E>>)
      requires maxInprogress > 0 && 2 * maxInprogress < FieldSize(bits)
      requires |garbage| == maxInprogress
      ensures Valid() && fresh(buff)
      ensures Contents() == Ring(garbage, FieldSize(bits), 0, 0)
    {
      buff := new Slot<E>[maxInprogress](i requires 0 <= i < |garbage| => garbage[i]);
      fieldSize := FieldSize(bits);
      msgLastIncomplete := 0;
      msgNext := 0;
    }

    static method Init(maxInprogress: nat, bits: nat, garbage: seq<Slot<E>>) returns (b: MessageBuffer?<E>)
      requires |garbage| == maxInprogress
      ensures b == null <==> maxInprogress == 0 || FieldSize(bits) <= 2 * maxInprogress
      ensures b != null ==> b.Valid() && b.Contents() == Ring(garbage, FieldSize(bits), 0, 0) && fresh(b) && fresh(b.buff)
    {
      if maxInprogress == 0 || FieldSize(bits) <= 2 * maxInprogress {
        b := null;
      } else {
        b := new MessageBuffer(maxInprogress, bits, garbage);
      }
    }

    method GetIdxStatus(idx: nat) returns (st: Status)
      requires Valid()
      ensures st == IdxStatus(Contents(), idx)
    {
      var inflight := Distance(fieldSize, msgNext, msgLastIncomplete);
      if Distance(fieldSize, idx, msgLastIncomplete) < inflight {
        return buff[idx % buff.Length].stat;
      }
      if idx != msgLastIncomplete && Distance(fieldSize, msgLastIncomplete, idx) <= buff.Length {
        return Completed;
      }
      if Distance(fieldSize, idx, msgNext) < Distance(fieldSize, buff.Length, inflight) {
        return NotStarted;
      }
      return Unavailable;
    }

    method InsertElem(idx: nat, elem: E, kind: Kind) returns (res: Result, st: Status)
      requires Valid() && idx < fieldSize
      modifies this, buff
      ensures Valid()
      ensures (Contents(), res, st) == Insert(old(Contents()), idx, elem, kind)
    {
      st := GetIdxStatus(idx);
      if st != NotStarted {
        return InvalidIdx, st;
      }
      buff[idx % buff.Length] := Slot(InProgress, kind, Some(elem));
      assert Contents() == SetSlot(old(Contents()), idx, Slot(InProgress, kind, Some(elem)));
      AdvanceNext(idx);
      res := Success;
    }

    /** The loop of `insert` that moves msg_next past a newly inserted index. */
    method AdvanceNext(idx: nat)
      requires Valid() && idx < fieldSize
      modifies this`msgNext, buff
      ensures Valid()
      ensures Contents() == CatchUp(old(Contents()), idx)
    {
      while Distance(fieldSize, idx, msgNext) <= buff.Length
        invariant Valid() && CatchUp(Contents(), idx) == CatchUp(old(Contents()), idx)
        decreases CatchUpSteps(Contents(), idx)
      {
        ghost var r := Contents();
        if msgNext != idx {
          var i := msgNext % buff.Length;
          buff[i] := buff[i].(stat := NotStarted, elem := None);
          assert buff[..] == r.slots[i := buff[i]];
        }
        CatchUpTurn(r, idx, buff[..]);
        msgNext := (msgNext + 1) % fieldSize;
      }
    }

    method ReplaceElem(idx: nat, elem: E, kind: Kind) returns (res: Result, st: Status)
      requires Valid()
      modifies buff
      ensures Valid()
      ensures (Contents(), res, st) == Replace(old(Contents()), idx, elem, kind)
    {
      st := GetIdxStatus(idx);
      if st == InProgress {
        var i := idx % buff.Length;
        buff[i] := buff[i].(elem := Some(elem), kind := kind);
        assert buff[..] == old(buff[..])[i := Slot(buff[i].stat, kind, Some(elem))];
        ReplaceKeepsStatus(old(Contents()), idx);
        res := Success;
      } else {
        res := InvalidIdx;
      }
    }

    method RetrieveElem(idx: nat) returns (res: Result, st: Status, found: Option<(Kind, Option<E>)>)
      requires Valid()
      ensures (res, st, found) == Retrieve(Contents(), idx)
    {
      st := GetIdxStatus(idx);
      if st == InProgress {
        var s := buff[idx % buff.Length];
        return Success, st, Some((s.kind, s.elem));
      }
      if st == Unavailable {
        st := NotStarted;
      }
      return InvalidIdx, st, None;
    }

    method CompleteElem(idx: nat) returns (res: Result, st: Status)
      requires Valid()
      modifies this, buff
      ensures Valid()
      ensures (Contents(), res, st) == Complete(old(Contents()), idx)
    {
      st := GetIdxStatus(idx);
      if st != InProgress {
        if st == Unavailable {
          st := NotStarted;
        }
        return InvalidIdx, st;
      }
      var i := idx % buff.Length;
      buff[i] := buff[i].(stat := Completed, elem := None);
      assert Contents() == SetSlot(old(Contents()), idx, SlotAt(old(Contents()), idx).(stat := Completed, elem := None));
      ghost var goal := Retire(Contents());
      while msgLastIncomplete != msgNext && buff[msgLastIncomplete % buff.Length].stat == Completed
        invariant Valid() && Retire(Contents()) == goal
        decreases NumInflight(Contents())
      {
        NextIndex(msgLastIncomplete, fieldSize);
        msgLastIncomplete := (msgLastIncomplete + 1) % fieldSize;
      }
      res := Success;
    }
  }

  /** An index reported in progress owns a slot that says so. */
  lemma {:induction false} ReplaceKeepsStatus<E>(r: Ring<E>, idx: nat)
    requires |r.slots| > 0 && IdxStatus(r, idx) == InProgress
    ensures SlotAt(r, idx).stat == InProgress
  {
  }
}

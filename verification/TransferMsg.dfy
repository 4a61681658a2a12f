/**
 What holds of a single message throughout a run, and that every action on the message keeps it.

 `MsgOk` ties the counters and sizes in the two requests to the operation logs. It is the per-message
 half of the protocol invariant; `TransferInv.dfy` adds what relates messages to each other.
 */
module TransferMsg {
  import opened Arithmetic
  import opened Collections
  import opened MsgBuff
  import opened Scheduler
  import opened Wire
  import opened Transfer

  // ---------------------------------------------------------------------------------------------
  // Counting operations

  function Acked(ops: seq<WriteOp>): (k: nat)
    ensures k <= |ops|
  {
    if ops == [] then 0
    else Acked(ops[..|ops| - 1]) + if ops[|ops| - 1].acked then 1 else 0
  }

  function CountedOps(ops: seq<WriteOp>): (k: nat)
    ensures k <= |ops|
  {
    if ops == [] then 0
    else CountedOps(ops[..|ops| - 1]) + if ops[|ops| - 1].stage == Counted then 1 else 0
  }

  function CountedBytes(ops: seq<WriteOp>): nat
  {
    if ops == [] then 0
    else CountedBytes(ops[..|ops| - 1])
         + if ops[|ops| - 1].stage == Counted then |ops[|ops| - 1].msg.data| else 0
  }

  /** Changing one operation changes each count by that operation's own contribution. */
  lemma {:induction false} CountUpdate(ops: seq<WriteOp>, i: nat, op: WriteOp)
    requires i < |ops| && op.msg == ops[i].msg
    ensures Acked(ops[i := op]) == Acked(ops) + (if op.acked then 1 else 0) - (if ops[i].acked then 1 else 0)
    ensures CountedOps(ops[i := op])
         == CountedOps(ops) + (if op.stage == Counted then 1 else 0) - (if ops[i].stage == Counted then 1 else 0)
    ensures CountedBytes(ops[i := op])
         == CountedBytes(ops) + (if op.stage == Counted then |op.msg.data| else 0)
            - (if ops[i].stage == Counted then |op.msg.data| else 0)
  {
    var n := |ops| - 1;
    if i < n {
      CountUpdate(ops[..n], i, op);
      assert ops[i := op][..n] == ops[..n][i := op];
    } else {
      assert ops[i := op][..n] == ops[..n];
    }
  }

  /** Newly posted operations count for nothing yet. */
  lemma {:induction false} CountAppend(ops: seq<WriteOp>, more: seq<WriteOp>)
    requires forall i :: 0 <= i < |more| ==> more[i].stage == Flying && !more[i].acked
    ensures Acked(ops + more) == Acked(ops)
    ensures CountedOps(ops + more) == CountedOps(ops)
    ensures CountedBytes(ops + more) == CountedBytes(ops)
  {
    if more == [] {
      assert ops + more == ops;
    } else {
      var n := |more| - 1;
      CountAppend(ops, more[..n]);
      assert (ops + more)[..|ops + more| - 1] == ops + more[..n];
    }
  }

  lemma {:induction false} AllCounted(ops: seq<WriteOp>, i: nat)
    requires CountedOps(ops) == |ops| && i < |ops|
    ensures ops[i].stage == Counted
  {
    var n := |ops| - 1;
    if i < n {
      AllCounted(ops[..n], i);
    }
  }

  lemma {:induction false} AllAcked(ops: seq<WriteOp>, i: nat)
    requires Acked(ops) == |ops| && i < |ops|
    ensures ops[i].acked
  {
    var n := |ops| - 1;
    if i < n {
      AllAcked(ops[..n], i);
    }
  }

  /** With every operation counted, the counted bytes are the bytes of the schedule. */
  lemma {:induction false} CountedTotal(ops: seq<WriteOp>, xs: seq<Xfer>)
    requires |ops| == |xs| && CountedOps(ops) == |ops|
    requires forall i :: 0 <= i < |ops| ==> |ops[i].msg.data| == xs[i].size
    ensures CountedBytes(ops) == TotalSize(xs)
  {
    if ops != [] {
      var n := |ops| - 1;
      CountedTotal(ops[..n], xs[..n]);
      TotalSnoc(xs[..n], xs[n]);
      assert xs[..n] + [xs[n]] == xs;
    }
  }

  lemma {:induction false} TotalSnoc(xs: seq<Xfer>, x: Xfer)
    ensures TotalSize(xs + [x]) == TotalSize(xs) + x.size
  {
    if xs == [] {
      assert xs + [x] == [x];
      assert [x][1..] == [];
    } else {
      assert (xs + [x])[1..] == xs[1..] + [x];
      TotalSnoc(xs[1..], x);
    }
  }

  // ---------------------------------------------------------------------------------------------
  // The invariant of a message

  function Bit(b: bool): nat { if b then 1 else 0 }

  /** The ctrl message has been handled by the sender. */
  predicate CtrlIn(m: Msg) { |m.ctrls| == 1 && m.ctrls[0].arrived }

  /** The eager message has been handled by the receiver. */
  predicate EagerIn(m: Msg) { |m.eagers| == 1 && m.eagers[0].arrived }

  predicate CtrlAckIn(m: Msg) { |m.ctrls| == 1 && m.ctrls[0].acked }

  predicate EagerAckIn(m: Msg) { |m.eagers| == 1 && m.eagers[0].acked }

  /** What both sides must end up reporting. */
  function Common(m: Msg): nat
    requires m.send.Some? && m.recv.Some?
  {
    Min(|m.send.value.data|, m.recv.value.dstLen)
  }

  predicate CtrlOk(n: nat, m: Msg)
  {
    && |m.ctrls| <= 1
    && (m.ctrls != [] ==>
          m.recv.Some? && m.ctrls[0].msg == CtrlMsg(n % SEQ_SPAN, m.recv.value.dstLen, m.recv.value.buf))
  }

  predicate EagerOk(c: Config, n: nat, m: Msg)
  {
    && |m.eagers| <= 1
    && (m.eagers != [] ==>
          m.send.Some? && m.send.value.eager
          && m.eagers[0].msg == EagerMsg(Imm(c.commId, n % SEQ_SPAN, 1), m.send.value.data))
  }

  /** A send that waits for nothing but its own posts and completions. */
  predicate ScheduledOk(c: Config, n: nat, m: Msg)
    requires m.send.Some? && m.recv.Some? && m.send.value.remote.Some?
  {
    var q := m.send.value;
    && q.remote.value == CtrlMsg(n % SEQ_SPAN, m.recv.value.dstLen, m.recv.value.buf)
    && q.buffLen == Common(m) && q.size == Common(m)
    && 1 <= |q.schedule| <= c.rails
    && Contiguous(q.schedule, 0, q.buffLen)
    && q.total == |q.schedule|
    && q.wdata == Imm(c.commId, n % SEQ_SPAN, |q.schedule|)
    && q.xferred == |m.writes| <= |q.schedule|
    && (forall i :: 0 <= i < |m.writes| ==> m.writes[i].msg == WriteOf(q, q.schedule[i]))
    && q.ncompls == Acked(m.writes)
  }

  predicate SendOk(c: Config, n: nat, m: Msg)
  {
    if m.send.None? then m.writes == []
    else
      var q := m.send.value;
      && q.seqNum == n % SEQ_SPAN
      && (q.remote.Some? <==> CtrlIn(m))
      && (q.done <==> q.remote.Some? && q.ncompls == q.total)
      && if q.eager then
           && m.writes == []
           && |q.schedule| == 1 && q.schedule[0].offset == 0 && q.schedule[0].size == |q.data|
           && q.wdata == Imm(c.commId, n % SEQ_SPAN, 1)
           && q.total == 2
           && q.ncompls == Bit(CtrlIn(m)) + Bit(EagerAckIn(m))
           && (if CtrlIn(m) && m.recv.Some? then q.buffLen == Common(m) && q.size == Common(m)
               else q.buffLen == |q.data| && q.size == |q.data|)
         else if CtrlIn(m) && m.recv.Some? then
           ScheduledOk(c, n, m)
         else
           && m.writes == [] && q.schedule == [] && q.xferred == 0 && q.ncompls == 0
           && q.buffLen == |q.data| && q.size == |q.data|
  }

  /** All payload bytes have been accounted for at the receiver. */
  predicate DataIn(m: Msg)
  {
    || (|m.copies| == 1 && m.copies[0].finished)
    || (EagerIn(m) && m.eagers[0].msg.data == [])
    || (m.send.Some? && m.writes != [] && |m.writes| == |m.send.value.schedule|
        && CountedOps(m.writes) == |m.writes|)
  }

  predicate RecvOk(n: nat, m: Msg)
  {
    if m.recv.None? then m.copies == []
    else
      var p := m.recv.value;
      && p.seqNum == n % SEQ_SPAN
      && |m.copies| <= 1
      && (p.copy.Some? <==> EagerIn(m) && m.eagers[0].msg.data != [])
      && (p.copy.Some? ==> m.send.Some? && p.copy.value == CopyReq(m.send.value.data, Common(m)))
      && (m.copies != [] ==> p.copy.Some? && m.copies[0].len == p.copy.value.recvLen)
      && p.segCompls == CountedOps(m.writes) && p.segSize == CountedBytes(m.writes)
      && p.ncompls == Bit(CtrlAckIn(m)) + Bit(DataIn(m))
      && (p.done <==> p.ncompls == 2)
      && (DataIn(m) ==> m.send.Some? && p.size == Common(m))
      && (!DataIn(m) ==> p.size == 0)
  }

  predicate MsgOk(c: Config, n: nat, m: Msg)
  {
    CtrlOk(n, m) && EagerOk(c, n, m) && SendOk(c, n, m) && RecvOk(n, m)
  }

  // ---------------------------------------------------------------------------------------------
  // Queueing: what waits in the pending queues

  predicate SendWaits(m: Msg)
  {
    m.send.Some?
    && if m.send.value.eager then m.eagers == []
       else m.send.value.remote.Some? && m.send.value.xferred < |m.send.value.schedule|
  }

  predicate CtrlWaits(m: Msg) { m.recv.Some? && m.ctrls == [] }

  predicate CopyWaits(m: Msg) { m.recv.Some? && m.recv.value.copy.Some? && m.copies == [] }

  // ---------------------------------------------------------------------------------------------
  // Sender-side actions keep it

  lemma {:induction false} NewSendWaiting(c: Config, n: nat, m: Msg, data: Bytes, rr: nat)
    requires ValidConfig(c) && MsgOk(c, n, m) && m.send.None? && !CtrlIn(m)
    ensures var m' := m.(send := Some(NewSend(c, n % SEQ_SPAN, data, None, false, rr)));
            MsgOk(c, n, m') && !SendWaits(m')
  {
  }

  lemma {:induction false} NewSendEager(c: Config, n: nat, m: Msg, data: Bytes, rr: nat, accept: nat)
    requires ValidConfig(c) && rr < c.rails && |data| <= c.eagerMax
    requires MsgOk(c, n, m) && m.send.None? && !CtrlIn(m)
    ensures var (m', blocked) := Progress(m.(send := Some(NewSend(c, n % SEQ_SPAN, data, None, true, rr))), accept);
            && MsgOk(c, n, m') && (blocked <==> SendWaits(m'))
            && m' == m.(send := m'.send, eagers := m'.eagers) && m'.send.Some?
            && m'.send.value.data == data && !EagerIn(m')
  {
    SmallMessageOneStripe(rr, |data|, c.rails, c.minStripe);
    var q := NewSend(c, n % SEQ_SPAN, data, None, true, rr);
    assert Slice(data, 0, |data|) == data;
    assert q.schedule == [Xfer(rr, 0, |data|)];
  }

  /** The request as it leaves update_send_data_from_remote, not yet posted. */
  lemma {:induction false} FromRemoteOk(c: Config, n: nat, m: Msg, q: SendReq, rr: nat)
    requires ValidConfig(c) && rr < c.rails && m.recv.Some? && m.writes == []
    requires q.buffLen == |q.data| && q.size == |q.data| && q.seqNum == n % SEQ_SPAN
    requires q.xferred == 0 && q.ncompls == 0 && !q.done && !q.eager
    ensures var ctrl := CtrlMsg(n % SEQ_SPAN, m.recv.value.dstLen, m.recv.value.buf);
            var q' := FromRemote(c, q, ctrl, rr);
            && q'.remote.Some? && q'.data == q.data && !q'.eager && !q'.done && q'.seqNum == q.seqNum
            && ScheduledOk(c, n, m.(send := Some(q')))
  {
    var ctrl := CtrlMsg(n % SEQ_SPAN, m.recv.value.dstLen, m.recv.value.buf);
    var q' := FromRemote(c, q, ctrl, rr);
    PlanPartitions(rr, q'.buffLen, c.rails, c.minStripe);
  }

  /** Posting some more stripes of a scheduled send. */
  lemma {:induction false} ProgressOk(c: Config, n: nat, m: Msg, accept: nat)
    requires MsgOkBut(c, n, m)
    ensures var (m', blocked) := Progress(m, accept);
            && MsgOk(c, n, m') && (blocked <==> SendWaits(m'))
            && m' == m.(send := m'.send, writes := m'.writes)
            && m'.send.Some? && m'.send.value == m.send.value.(xferred := |m'.writes|)
            && m.writes <= m'.writes
            && (forall i :: |m.writes| <= i < |m'.writes| ==> m'.writes[i].stage == Flying)
  {
    hide Contiguous, Imm, Slice, CountedOps, CountedBytes, Acked;
    var q := m.send.value;
    var k := Min(accept, |q.schedule| - q.xferred);
    var more := NewWrites(q, q.xferred, k);
    var (m', blocked) := Progress(m, accept);
    CountAppend(m.writes, more);
    assert m'.writes == m.writes + more;
    var q' := m'.send.value;
    forall i | 0 <= i < |m'.writes| ensures m'.writes[i].msg == WriteOf(q', q'.schedule[i]) {
      if i < |m.writes| {
        assert m'.writes[i] == m.writes[i];
      } else {
        var j := i - |m.writes|;
        assert m'.writes[i] == more[j] == WriteOp(WriteOf(q, q.schedule[q.xferred + j]), Flying, false);
      }
    }
  }

  /** A message whose send is scheduled; the send may have just become so. */
  predicate MsgOkBut(c: Config, n: nat, m: Msg)
  {
    && CtrlOk(n, m) && CtrlIn(m) && m.recv.Some? && m.eagers == []
    && m.send.Some? && !m.send.value.eager && m.send.value.seqNum == n % SEQ_SPAN
    && m.send.value.remote.Some? && ScheduledOk(c, n, m)
    && (m.send.value.done <==> m.send.value.ncompls == m.send.value.total)
    && RecvOk(n, m)
  }

  lemma {:induction false} ScheduledIsOk(c: Config, n: nat, m: Msg)
    requires MsgOk(c, n, m) && m.send.Some? && !m.send.value.eager && m.send.value.remote.Some?
    ensures MsgOkBut(c, n, m)
  {
  }

  lemma {:induction false} NewSendWithCtrl(c: Config, n: nat, m: Msg, data: Bytes, rr: nat, accept: nat)
    requires ValidConfig(c) && rr < c.rails
    requires MsgOk(c, n, m) && m.send.None? && CtrlIn(m)
    ensures var q := NewSend(c, n % SEQ_SPAN, data, Some(m.ctrls[0].msg), false, rr);
            var (m', blocked) := Progress(m.(send := Some(q)), accept);
            && MsgOk(c, n, m') && (blocked <==> SendWaits(m'))
            && m' == m.(send := m'.send, writes := m'.writes) && m'.send.Some?
            && m'.send.value.data == data
            && (forall i :: 0 <= i < |m'.writes| ==> m'.writes[i].stage == Flying)
  {
    var q0 := SendReq(n % SEQ_SPAN, data, |data|, |data|, false, None, [], 0, 0, 0, 0, false);
    FromRemoteOk(c, n, m, q0, rr);
    var m1 := m.(send := Some(FromRemote(c, q0, m.ctrls[0].msg, rr)));
    assert MsgOkBut(c, n, m1);
    ProgressOk(c, n, m1, accept);
  }

  lemma {:induction false} CtrlHeldOk(c: Config, n: nat, m: Msg)
    requires MsgOk(c, n, m) && m.send.None? && |m.ctrls| == 1
    ensures MsgOk(c, n, m.(ctrls := [m.ctrls[0].(arrived := true)]))
  {
  }

  lemma {:induction false} CtrlToSendOk(c: Config, n: nat, m: Msg, rr: nat, accept: nat)
    requires ValidConfig(c) && rr < c.rails
    requires MsgOk(c, n, m) && m.send.Some? && |m.ctrls| == 1 && !m.ctrls[0].arrived
    ensures var m0 := m.(ctrls := [m.ctrls[0].(arrived := true)]);
            var (m', blocked) := CtrlToSend(c, m0, m.ctrls[0].msg, rr, accept);
            && MsgOk(c, n, m')
            && (if m.send.value.eager then !blocked && (SendWaits(m') <==> SendWaits(m))
                else (blocked <==> SendWaits(m')) && !SendWaits(m))
            && m' == m0.(send := m'.send, writes := m'.writes) && m'.send.Some?
            && m'.send.value.data == m.send.value.data
            && m.writes <= m'.writes
            && (forall i :: |m.writes| <= i < |m'.writes| ==> m'.writes[i].stage == Flying)
  {
    hide Contiguous, Imm, CountedOps, CountedBytes, Acked;
    var m0 := m.(ctrls := [m.ctrls[0].(arrived := true)]);
    if !m.send.value.eager {
      FromRemoteOk(c, n, m0, m.send.value, rr);
      var m1 := m0.(send := Some(FromRemote(c, m.send.value, m.ctrls[0].msg, rr)));
      assert MsgOkBut(c, n, m1);
      ProgressOk(c, n, m1, accept);
    }
  }

  lemma {:induction false} EagerPostOk(c: Config, n: nat, m: Msg, accept: nat)
    requires MsgOk(c, n, m) && m.send.Some? && m.send.value.eager && m.eagers == []
    ensures var (m', blocked) := Progress(m, accept);
            && MsgOk(c, n, m') && (blocked <==> SendWaits(m'))
            && m' == m.(eagers := m'.eagers) && !EagerIn(m')
  {
    var q := m.send.value;
    assert Slice(q.data, 0, |q.data|) == q.data;
  }

  lemma {:induction false} WriteAckedOk(c: Config, n: nat, m: Msg, i: nat)
    requires MsgOk(c, n, m) && i < |m.writes| && !m.writes[i].acked
    ensures m.send.Some? && !m.send.value.done
    ensures var m' := m.(send := Some(AckSend(m.send.value)), writes := m.writes[i := m.writes[i].(acked := true)]);
            MsgOk(c, n, m')
  {
    CountUpdate(m.writes, i, m.writes[i].(acked := true));
    if m.send.value.done {
      AllAcked(m.writes, i);
    }
  }

  lemma {:induction false} EagerAckedOk(c: Config, n: nat, m: Msg)
    requires MsgOk(c, n, m) && |m.eagers| == 1 && !m.eagers[0].acked
    ensures m.send.Some? && !m.send.value.done
    ensures var m' := m.(send := Some(AckSend(m.send.value)), eagers := [m.eagers[0].(acked := true)]);
            MsgOk(c, n, m')
  {
  }

  // ---------------------------------------------------------------------------------------------
  // Receiver-side actions keep it

  lemma {:induction false} NewRecvOk(c: Config, n: nat, m: Msg, buf: nat, len: nat, acceptCtrl: bool, acceptCopy: bool)
    requires MsgOk(c, n, m) && m.recv.None?
    ensures var held := if EagerIn(m) then Some(m.eagers[0].msg) else None;
            var (m', ctrlBlocked, copyBlocked) := ReceivedMsg(m, n % SEQ_SPAN, buf, len, held, acceptCtrl, acceptCopy);
            && MsgOk(c, n, m')
            && (ctrlBlocked <==> CtrlWaits(m')) && (copyBlocked <==> CopyWaits(m'))
            && m' == m.(recv := m'.recv, ctrls := m'.ctrls, copies := m'.copies)
            && m'.recv.Some? && m'.recv.value.buf == buf && m'.recv.value.dstLen == len
            && !CtrlIn(m')
            && (forall i :: 0 <= i < |m'.copies| ==> !m'.copies[i].finished)
  {
    var p := RecvReq(n % SEQ_SPAN, buf, len, 0, 0, false, 0, 0, None);
    var m0 := m.(recv := Some(p));
    if EagerIn(m) {
      // As if the eager message arrived just after the receive was posted.
      var before := m.(recv := Some(p), eagers := [m.eagers[0].(arrived := false)]);
      assert m.eagers == [before.eagers[0].(arrived := true)];
      PostedOk(c, n, before, acceptCtrl);
      var m1 := TryCtrl(before, acceptCtrl).0;
      EagerToRecvOk(c, n, m1, acceptCopy);
      assert TryCtrl(m0, acceptCtrl).0 == m1.(eagers := m.eagers);
    } else {
      PostedOk(c, n, m0, acceptCtrl);
    }
  }

  /** A receive that has just been created, on a message whose data has not arrived. */
  lemma {:induction false} PostedOk(c: Config, n: nat, m: Msg, accept: bool)
    requires m.recv.Some? && m.recv.value == RecvReq(n % SEQ_SPAN, m.recv.value.buf, m.recv.value.dstLen, 0, 0, false, 0, 0, None)
    requires MsgOk(c, n, m.(recv := None)) && !EagerIn(m)
    ensures var (m', blocked) := TryCtrl(m, accept);
            MsgOk(c, n, m') && (blocked <==> CtrlWaits(m')) && m' == m.(ctrls := m'.ctrls)
            && !CtrlIn(m') && !EagerIn(m') && m'.copies == []
  {
  }

  lemma {:induction false} EagerHeldOk(c: Config, n: nat, m: Msg)
    requires MsgOk(c, n, m) && m.recv.None? && |m.eagers| == 1
    ensures MsgOk(c, n, m.(eagers := [m.eagers[0].(arrived := true)]))
  {
  }

  lemma {:induction false} EagerToRecvOk(c: Config, n: nat, m: Msg, accept: bool)
    requires MsgOk(c, n, m) && m.recv.Some? && |m.eagers| == 1 && !m.eagers[0].arrived
    ensures var m0 := m.(eagers := [m.eagers[0].(arrived := true)]);
            var (m', blocked) := EagerToRecv(m0, m.eagers[0].msg, accept);
            && MsgOk(c, n, m') && (blocked <==> CopyWaits(m')) && !CopyWaits(m)
            && m' == m0.(recv := m'.recv, copies := m'.copies)
            && m'.recv.Some? && m'.recv.value.buf == m.recv.value.buf && m'.recv.value.dstLen == m.recv.value.dstLen
            && (forall i :: 0 <= i < |m'.copies| ==> !m'.copies[i].finished)
  {
    hide Imm, Contiguous;
    if m.eagers[0].msg.data == [] {
      EmptyEagerOk(c, n, m);
    } else {
      CopyEagerOk(c, n, m, accept);
    }
  }

  lemma {:induction false} EmptyEagerOk(c: Config, n: nat, m: Msg)
    requires MsgOk(c, n, m) && m.recv.Some? && |m.eagers| == 1 && !m.eagers[0].arrived && m.eagers[0].msg.data == []
    ensures m.copies == [] && m.recv.value.copy.None?
    ensures MsgOk(c, n, m.(eagers := [m.eagers[0].(arrived := true)], recv := Some(AckRecv(m.recv.value, 0))))
  {
    hide Imm, Contiguous;
  }

  lemma {:induction false} CopyEagerOk(c: Config, n: nat, m: Msg, accept: bool)
    requires MsgOk(c, n, m) && m.recv.Some? && |m.eagers| == 1 && !m.eagers[0].arrived && m.eagers[0].msg.data != []
    ensures m.copies == [] && m.recv.value.copy.None?
    ensures var e := m.eagers[0].msg;
            var p := m.recv.value.(copy := Some(CopyReq(e.data, |e.data|)));
            var (m', blocked) := TryCopy(m.(eagers := [m.eagers[0].(arrived := true)], recv := Some(p)), accept);
            MsgOk(c, n, m') && (blocked <==> m'.copies == [])
  {
    hide Imm, Contiguous;
  }

  lemma {:induction false} TryCtrlOk(c: Config, n: nat, m: Msg, accept: bool)
    requires MsgOk(c, n, m) && CtrlWaits(m)
    ensures var (m', blocked) := TryCtrl(m, accept);
            MsgOk(c, n, m') && (blocked <==> CtrlWaits(m')) && m' == m.(ctrls := m'.ctrls) && !CtrlIn(m')
  {
  }

  lemma {:induction false} TryCopyOk(c: Config, n: nat, m: Msg, accept: bool)
    requires MsgOk(c, n, m) && CopyWaits(m)
    ensures var (m', blocked) := TryCopy(m, accept);
            && MsgOk(c, n, m') && (blocked <==> CopyWaits(m')) && m' == m.(copies := m'.copies)
            && (forall i :: 0 <= i < |m'.copies| ==> !m'.copies[i].finished)
  {
  }

  lemma {:induction false} CtrlAckedOk(c: Config, n: nat, m: Msg)
    requires MsgOk(c, n, m) && |m.ctrls| == 1 && !m.ctrls[0].acked
    ensures m.recv.Some? && !m.recv.value.done
    ensures var m' := m.(recv := Some(AckRecv(m.recv.value, 0)), ctrls := [m.ctrls[0].(acked := true)]);
            MsgOk(c, n, m')
  {
  }

  /** What a posted write carries. */
  lemma {:induction false} WriteCarries(c: Config, n: nat, m: Msg, i: nat)
    requires ValidConfig(c) && MsgOk(c, n, m) && i < |m.writes|
    ensures m.send.Some? && m.recv.Some? && CtrlIn(m) && !m.send.value.eager && m.send.value.remote.Some?
    ensures ScheduledOk(c, n, m)
    ensures var w, x := m.writes[i].msg, m.send.value.schedule[i];
            && w.buf == m.recv.value.buf && w.offset == x.offset && |w.data| == x.size
            && x.offset + x.size <= Common(m)
            && w.data == m.send.value.data[x.offset..x.offset + x.size]
            && ImmSeq(w.imm) == n % SEQ_SPAN && ImmComm(w.imm) == c.commId
            && ImmSegs(w.imm) == |m.send.value.schedule|
  {
    var q := m.send.value;
    ContiguousBounds(q.schedule, 0, q.buffLen, i);
    ImmRoundTrip(c.commId, n % SEQ_SPAN, |q.schedule|);
  }

  lemma {:induction false} WriteLandsOk(c: Config, n: nat, m: Msg, i: nat)
    requires ValidConfig(c) && MsgOk(c, n, m) && i < |m.writes| && m.writes[i].stage == Flying
    ensures MsgOk(c, n, m.(writes := m.writes[i := m.writes[i].(stage := Placed)]))
    ensures m.recv.Some? && !m.recv.value.done
  {
    CountUpdate(m.writes, i, m.writes[i].(stage := Placed));
    NotAllIn(c, n, m, i);
  }

  /** An uncounted write means the receive is not complete. */
  lemma {:induction false} NotAllIn(c: Config, n: nat, m: Msg, i: nat)
    requires ValidConfig(c) && MsgOk(c, n, m) && i < |m.writes| && m.writes[i].stage != Counted
    ensures !DataIn(m) && m.recv.Some? && !m.recv.value.done
  {
    WriteCarries(c, n, m, i);
    if CountedOps(m.writes) == |m.writes| {
      AllCounted(m.writes, i);
    }
  }

  /** Counting the last outstanding write accounts for every byte of the message. */
  lemma {:induction false} LastWriteCounted(c: Config, n: nat, m: Msg, ops: seq<WriteOp>)
    requires ValidConfig(c) && MsgOk(c, n, m) && m.writes != [] && |ops| == |m.writes|
    requires forall j :: 0 <= j < |ops| ==> ops[j].msg == m.writes[j].msg
    requires m.send.Some? && m.recv.Some? && CountedOps(ops) == |m.send.value.schedule|
    ensures |ops| == |m.send.value.schedule| && CountedBytes(ops) == Common(m)
  {
    WriteCarries(c, n, m, 0);
    var q := m.send.value;
    forall j | 0 <= j < |ops| ensures |ops[j].msg.data| == q.schedule[j].size {
      WriteCarries(c, n, m, j);
    }
    CountedTotal(ops, q.schedule);
    ContiguousTotal(q.schedule, 0, q.buffLen);
  }

  lemma {:induction false} WriteCountedOk(c: Config, n: nat, m: Msg, i: nat)
    requires ValidConfig(c) && MsgOk(c, n, m) && i < |m.writes| && m.writes[i].stage == Placed
    ensures m.recv.Some? && !m.recv.value.done
    ensures var w := m.writes[i].msg;
            var m' := m.(recv := Some(AckSegment(m.recv.value, |w.data|, ImmSegs(w.imm))),
                         writes := m.writes[i := m.writes[i].(stage := Counted)]);
            MsgOk(c, n, m')
  {
    hide ImmSegs, ImmSeq, ImmComm, Imm, Contiguous;
    WriteCarries(c, n, m, i);
    NotAllIn(c, n, m, i);
    var ops := m.writes[i := m.writes[i].(stage := Counted)];
    CountUpdate(m.writes, i, ops[i]);
    if CountedOps(ops) == |m.send.value.schedule| {
      LastWriteCounted(c, n, m, ops);
    }
  }

  lemma {:induction false} CopyDoneOk(c: Config, n: nat, m: Msg)
    requires MsgOk(c, n, m) && |m.copies| == 1 && !m.copies[0].finished
    ensures m.recv.Some? && m.recv.value.copy.Some? && !m.recv.value.done && m.writes == []
    ensures m.send.Some? && m.recv.value.copy.value == CopyReq(m.send.value.data, Common(m))
    ensures m.copies[0].len == Common(m)
    ensures var p := m.recv.value;
            var m' := m.(recv := Some(AckRecv(p, p.copy.value.recvLen)), copies := [m.copies[0].(finished := true)]);
            MsgOk(c, n, m')
  {
  }
}

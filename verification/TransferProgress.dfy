/**
 The protocol makes progress: the network can only do boundedly much before the applications call
 again, it is never stuck before it is done, and when it is done everything both sides asked for has
 been delivered.

 `Work` bounds the network steps that a message still needs. Every step of the network, and every
 turn of a pending queue with an accepted post, strictly lowers the sum over all messages.
 */
module TransferProgress {
  import opened Arithmetic
  import opened Collections
  import opened MsgBuff
  import opened MsgLedger
  import opened Scheduler
  import opened Wire
  import opened Transfer
  import opened TransferMsg
  import opened TransferRing
  import opened TransferInv
  import opened TransferSteps
  import opened TransferCalls
  import opened TransferRun

  // ---------------------------------------------------------------------------------------------
  // Work left

  function Unless(done: bool, w: nat): nat
  {
    if done then 0 else w
  }

  /** A ctrl message must be posted, reach the sender (and start up to four stripes there) and be acknowledged. */
  function CtrlWork(m: Msg): nat
  {
    if m.recv.None? then 0
    else if m.ctrls == [] then 20
    else Unless(m.ctrls[0].arrived, 18) + Unless(m.ctrls[0].acked, 1)
  }

  /** An eager message must be posted, reach the receiver (and start a copy there) and be acknowledged. */
  function EagerWork(m: Msg): nat
  {
    if m.send.None? || !m.send.value.eager then 0
    else if m.eagers == [] then 5
    else Unless(m.eagers[0].arrived, 3) + Unless(m.eagers[0].acked, 1)
  }

  /** Stripes that are scheduled but not posted. */
  function StripeWork(m: Msg): nat
  {
    if m.send.Some? && !m.send.value.eager && m.send.value.remote.Some? && m.send.value.xferred < |m.send.value.schedule|
    then 4 * (|m.send.value.schedule| - m.send.value.xferred)
    else 0
  }

  function WriteWeight(op: WriteOp): nat
  {
    (match op.stage case Flying => 2 case Placed => 1 case Counted => 0) + Unless(op.acked, 1)
  }

  function WriteLoad(ops: seq<WriteOp>): nat
  {
    if ops == [] then 0 else WriteLoad(ops[..|ops| - 1]) + WriteWeight(ops[|ops| - 1])
  }

  function CopyWork(m: Msg): nat
  {
    if m.recv.None? || m.recv.value.copy.None? then 0
    else if m.copies == [] then 2
    else Unless(m.copies[0].finished, 1)
  }

  function Work(m: Msg): nat
  {
    CtrlWork(m) + EagerWork(m) + StripeWork(m) + WriteLoad(m.writes) + CopyWork(m)
  }

  lemma {:induction false} LoadUpdate(ops: seq<WriteOp>, i: nat, op: WriteOp)
    requires i < |ops|
    ensures WriteLoad(ops[i := op]) == WriteLoad(ops) - WriteWeight(ops[i]) + WriteWeight(op)
  {
    var n := |ops| - 1;
    if i < n {
      LoadUpdate(ops[..n], i, op);
      assert ops[i := op][..n] == ops[..n][i := op];
    } else {
      assert ops[i := op][..n] == ops[..n];
    }
  }

  lemma {:induction false} LoadAppend(ops: seq<WriteOp>, more: seq<WriteOp>)
    requires forall i :: 0 <= i < |more| ==> more[i].stage == Flying && !more[i].acked
    ensures WriteLoad(ops + more) == WriteLoad(ops) + 3 * |more|
  {
    if more == [] {
      assert ops + more == ops;
    } else {
      var n := |more| - 1;
      LoadAppend(ops, more[..n]);
      assert (ops + more)[..|ops + more| - 1] == ops + more[..n];
    }
  }

  /** The work of messages 0 .. k-1. */
  function TotalTo(st: State, k: nat): nat
  {
    if k == 0 then 0 else TotalTo(st, k - 1) + Work(MsgOf(st, k - 1))
  }

  function Total(st: State): nat
  {
    TotalTo(st, Max(st.sent, st.received))
  }

  lemma {:induction false} TotalOne(st: State, st': State, n: nat, m: Msg, k: nat)
    requires st'.msgs == st.msgs[n := m]
    ensures TotalTo(st', k) == TotalTo(st, k) + if n < k then Work(m) - Work(MsgOf(st, n)) else 0
  {
    hide Work;
    if k > 0 {
      TotalOne(st, st', n, m, k - 1);
      MsgsAfter(st, st', n, m);
    }
  }

  /** The step changed message n only, which needs less work now. */
  ghost predicate Lighter(st: State, o: Outcome, n: nat)
  {
    o.Next? ==>
      && OneMessage(st, o.st, n, MsgOf(o.st, n))
      && n < Max(st.sent, st.received)
      && Work(MsgOf(o.st, n)) < Work(MsgOf(st, n))
  }

  lemma {:induction false} LighterTotal(st: State, o: Outcome, n: nat)
    requires o.Next? && Lighter(st, o, n)
    ensures Total(o.st) < Total(st)
  {
    hide Work;
    TotalOne(st, o.st, n, MsgOf(o.st, n), Max(st.sent, st.received));
  }

  // ---------------------------------------------------------------------------------------------
  // Each network step lowers the work of its message

  lemma {:induction false} WriteAckedLighter(c: Config, st: State, n: nat, i: nat)
    requires Inv(c, st)
    ensures Lighter(st, WriteAcked(st, n, i), n)
  {
    hide Inv;
    MsgHolds(c, st, n);
    var m := MsgOf(st, n);
    if WriteAcked(st, n, i).Next? {
      LoadUpdate(m.writes, i, m.writes[i].(acked := true));
    }
  }

  lemma {:induction false} EagerAckedLighter(c: Config, st: State, n: nat, i: nat)
    requires Inv(c, st)
    ensures Lighter(st, EagerAcked(st, n, i), n)
  {
    hide Inv;
    MsgHolds(c, st, n);
  }

  lemma {:induction false} CtrlAckedLighter(c: Config, st: State, n: nat, i: nat)
    requires Inv(c, st)
    ensures Lighter(st, CtrlAcked(st, n, i), n)
  {
    hide Inv;
    MsgHolds(c, st, n);
  }

  lemma {:induction false} CopyDoneLighter(c: Config, st: State, n: nat, i: nat)
    requires Inv(c, st)
    ensures Lighter(st, CopyDone(st, n, i), n)
  {
    hide Inv, Overlay;
    MsgHolds(c, st, n);
  }

  lemma {:induction false} WriteLandsLighter(c: Config, st: State, n: nat, i: nat)
    requires Inv(c, st)
    ensures Lighter(st, WriteLands(st, n, i), n)
  {
    hide Inv, Overlay;
    MsgHolds(c, st, n);
    var m := MsgOf(st, n);
    if WriteLands(st, n, i).Next? {
      LoadUpdate(m.writes, i, m.writes[i].(stage := Placed));
      assert m.send.Some?;
    }
  }

  lemma {:induction false} WriteCountedLighter(c: Config, st: State, n: nat, i: nat)
    requires ValidConfig(c) && Inv(c, st) && GoodRing(st.r.ring)
    ensures Lighter(st, WriteCounted(c, st, n, i), n)
  {
    hide Inv, ImmSegs, ImmSeq, ImmComm, FindReq;
    MsgHolds(c, st, n);
    var m := MsgOf(st, n);
    if WriteCounted(c, st, n, i).Next? {
      WriteCarries(c, n, m, i);
      NotAllIn(c, n, m, i);
      WindowOfRecv(c, st, n);
      FindRecv(c, st, n);
      var m1 := m.(writes := m.writes[i := m.writes[i].(stage := Counted)]);
      LoadUpdate(m.writes, i, m.writes[i].(stage := Counted));
      MsgsAfter(st, SetMsg(st, n, m1), n, m1);
    }
  }

  /** A receive that is not complete is live. */
  lemma {:induction false} WindowOfRecv(c: Config, st: State, n: nat)
    requires Inv(c, st) && MsgOf(st, n).recv.Some? && !MsgOf(st, n).recv.value.done
    ensures n !in st.deliveries && n < st.received
  {
  }

  /** Posting at least one more stripe, or the eager message. */
  lemma {:induction false} ProgressLighter(c: Config, n: nat, m: Msg, accept: nat)
    requires MsgOk(c, n, m) && SendWaits(m) && accept > 0
    ensures Work(Progress(m, accept).0) < Work(m)
  {
    hide Imm, Contiguous, WriteOf;
    var q := m.send.value;
    if !q.eager {
      var k := Min(accept, |q.schedule| - q.xferred);
      LoadAppend(m.writes, NewWrites(q, q.xferred, k));
    }
  }

  lemma {:induction false} DrainSendLighter(c: Config, st: State, accept: nat)
    requires Inv(c, st) && accept > 0 && st.s.pending != []
    ensures Lighter(st, DrainSend(st, accept), st.s.pending[0])
  {
    hide Inv, Progress, Work, MsgOk;
    var n := st.s.pending[0];
    FrontWaits(c, st);
    MsgHolds(c, st, n);
    ProgressLighter(c, n, MsgOf(st, n), accept);
  }

  lemma {:induction false} FrontWaits(c: Config, st: State)
    requires Inv(c, st) && st.s.pending != []
    ensures SendWaits(MsgOf(st, st.s.pending[0])) && LiveSend(st, st.s.pending[0]) && st.s.pending[0] < st.sent
    ensures MsgOf(st, st.s.pending[0]).send.value.schedule != []
  {
    hide SendRing, RecvRing, RecvQueue, Memory, Reports;
    var n := st.s.pending[0];
    var m := MsgOf(st, n);
    assert n in st.s.pending;
    WaitingIsLive(c, st, n);
  }

  lemma {:induction false} DrainRecvLighter(c: Config, st: State)
    requires Inv(c, st) && st.r.pending != []
    ensures Lighter(st, DrainRecv(st, true), st.r.pending[0].n)
  {
    hide Inv;
    var x := st.r.pending[0];
    QueuedIsLive(c, st, x);
    MsgHolds(c, st, x.n);
  }

  /** The ctrl message of n sets free at most the four stripes that its weight allows for. */
  lemma {:induction false} CtrlMetLighter(c: Config, n: nat, m: Msg, m': Msg)
    requires ValidConfig(c) && MsgOk(c, n, m) && MsgOk(c, n, m')
    requires m.send.Some? && m'.send.Some? && m'.send.value.eager == m.send.value.eager
    requires |m.ctrls| == 1 && !m.ctrls[0].arrived && m.recv.Some?
    requires m' == m.(ctrls := [m.ctrls[0].(arrived := true)], send := m'.send, writes := m'.writes)
    requires m.writes <= m'.writes && forall i :: |m.writes| <= i < |m'.writes| ==> m'.writes[i].stage == Flying && !m'.writes[i].acked
    ensures Work(m') < Work(m)
  {
    hide Imm, Contiguous, WriteOf;
    assert m.writes == [];
    LoadAppend([], m'.writes);
    assert [] + m'.writes == m'.writes;
  }

  lemma {:induction false} CtrlArrivesLighter(c: Config, st: State, n: nat, i: nat, accept: nat)
    requires ValidConfig(c) && Inv(c, st) && GoodRing(st.s.ring)
    ensures Lighter(st, CtrlArrives(c, st, n, i, accept), n)
  {
    hide Inv, MsgOk, HandleCtrl, Work;
    MsgHolds(c, st, n);
    var m := MsgOf(st, n);
    if CtrlArrives(c, st, n, i, accept).Next? {
      CtrlArrivesSafe(c, st, n, i, accept);
      CtrlIsNear(c, st, n, i);
      OnlyCtrl(c, n, m, i);
      HandleCtrlLighter(c, st, SetMsg(st, n, m.(ctrls := [m.ctrls[0].(arrived := true)])), n, accept);
    }
  }

  lemma {:induction false} OnlyCtrl(c: Config, n: nat, m: Msg, i: nat)
    requires MsgOk(c, n, m) && i < |m.ctrls|
    ensures i == 0 && |m.ctrls| == 1 && m.recv.Some? && m.ctrls[0].msg.seqNum == n % SEQ_SPAN
    ensures m.ctrls[i := m.ctrls[i].(arrived := true)] == [m.ctrls[0].(arrived := true)]
  {
  }

  /** A ctrl message is either put aside in the message buffer or meets the send it belongs to. */
  lemma {:induction false} HandleCtrlIs(c: Config, st: State, st1: State, n: nat, accept: nat)
    requires ValidConfig(c) && Inv(c, st) && GoodRing(st.s.ring) && n < st.sendLow + SLOTS
    requires |MsgOf(st, n).ctrls| == 1 && !MsgOf(st, n).ctrls[0].arrived
    requires MsgOf(st, n).ctrls[0].msg.seqNum == n % SEQ_SPAN
    requires st1 == SetMsg(st, n, MsgOf(st, n).(ctrls := [MsgOf(st, n).ctrls[0].(arrived := true)]))
    ensures var ctrl := MsgOf(st, n).ctrls[0].msg;
            var (ring, res, stat) := Insert(st.s.ring, n % SEQ_SPAN, HeldCtrl(ctrl), Buff);
            && (n >= st.sent ==> HandleCtrl(c, st1, ctrl, accept) == Next(st1.(s := st1.s.(ring := ring))))
            && (n < st.sent ==> LiveSend(st1, n) && HandleCtrl(c, st1, ctrl, accept) == CtrlFound(c, st1, n, ctrl, accept))
  {
    hide Messages, RecvRing, SendQueue, RecvQueue, Memory, Reports, Insert, MsgOk, FindReq, CtrlFound;
    var m := MsgOf(st, n);
    CtrlIsNear(c, st, n, 0);
    if n >= st.sent {
      CtrlHeldSafe(c, st, n);
    } else {
      InsertTaken(st.s.ring, st.sendLow, n, HeldCtrl(m.ctrls[0].msg), Buff);
      FindSend(c, st, n);
      CtrlMeetsSend(c, st, st1, n, accept);
    }
  }

  lemma {:induction false} HandleCtrlLighter(c: Config, st: State, st1: State, n: nat, accept: nat)
    requires ValidConfig(c) && Inv(c, st) && GoodRing(st.s.ring) && n < st.sendLow + SLOTS
    requires |MsgOf(st, n).ctrls| == 1 && !MsgOf(st, n).ctrls[0].arrived && MsgOf(st, n).recv.Some?
    requires MsgOf(st, n).ctrls[0].msg.seqNum == n % SEQ_SPAN && n < st.received
    requires st1 == SetMsg(st, n, MsgOf(st, n).(ctrls := [MsgOf(st, n).ctrls[0].(arrived := true)]))
    ensures Lighter(st, HandleCtrl(c, st1, MsgOf(st, n).ctrls[0].msg, accept), n)
  {
    hide Inv, HandleCtrl, Insert, CtrlFound, WriteLoad;
    HandleCtrlIs(c, st, st1, n, accept);
    if n < st.sent {
      MsgsAfter(st, st1, n, st1.msgs[n]);
      CtrlFoundLighter(c, st, st1, n, accept);
    }
  }

  lemma {:induction false} CtrlFoundLighter(c: Config, st: State, st1: State, n: nat, accept: nat)
    requires ValidConfig(c) && Inv(c, st) && MsgOf(st, n).send.Some?
    requires |MsgOf(st, n).ctrls| == 1 && !MsgOf(st, n).ctrls[0].arrived && MsgOf(st, n).recv.Some? && n < st.received
    requires st1 == SetMsg(st, n, MsgOf(st, n).(ctrls := [MsgOf(st, n).ctrls[0].(arrived := true)]))
    ensures Lighter(st, CtrlFound(c, st1, n, MsgOf(st, n).ctrls[0].msg, accept), n)
  {
    hide Inv, MsgOk, Work, CtrlToSend, FromRemote, SendWaits;
    var m := MsgOf(st, n);
    var m0 := m.(ctrls := [m.ctrls[0].(arrived := true)]);
    MsgHolds(c, st, n);
    RailsInRange(c, st);
    CtrlToSendOk(c, n, m, st.s.rr, accept);
    CtrlToSendNew(c, m0, m.ctrls[0].msg, st.s.rr, accept);
    MsgsAfter(st, st1, n, m0);
    NoWritesYet(c, n, m);
    CtrlMetLighter(c, n, m, CtrlToSend(c, m0, m.ctrls[0].msg, st.s.rr, accept).0);
  }

  lemma {:induction false} RailsInRange(c: Config, st: State)
    requires Inv(c, st)
    ensures st.s.rr < c.rails
  {
  }

  lemma {:induction false} NoWritesYet(c: Config, n: nat, m: Msg)
    requires MsgOk(c, n, m) && !CtrlIn(m)
    ensures m.writes == []
  {
  }

  /** Meeting the ctrl message changes neither the kind of send nor adds acknowledged writes. */
  lemma {:induction false} CtrlToSendNew(c: Config, m: Msg, ctrl: CtrlMsg, rr: nat, accept: nat)
    requires ValidConfig(c) && m.send.Some?
    ensures var m' := CtrlToSend(c, m, ctrl, rr, accept).0;
            && m'.send.Some? && m'.send.value.eager == m.send.value.eager
            && forall i :: |m.writes| <= i < |m'.writes| ==> !m'.writes[i].acked
  {
    hide Plan, Imm, WriteOf;
  }

  lemma {:induction false} EagerArrivesLighter(c: Config, st: State, n: nat, i: nat, accept: bool)
    requires ValidConfig(c) && Inv(c, st) && GoodRing(st.r.ring)
    ensures Lighter(st, EagerArrives(c, st, n, i, accept), n)
  {
    hide Inv, MsgOk, HandleEager, Work, ImmComm;
    MsgHolds(c, st, n);
    var m := MsgOf(st, n);
    if EagerArrives(c, st, n, i, accept).Next? {
      EagerArrivesSafe(c, st, n, i, accept);
      EagerIsNear(c, st, n, i);
      OnlyEager(c, n, m, i);
      HandleEagerLighter(c, st, SetMsg(st, n, m.(eagers := [m.eagers[0].(arrived := true)])), n, accept);
    }
  }

  lemma {:induction false} OnlyEager(c: Config, n: nat, m: Msg, i: nat)
    requires ValidConfig(c) && MsgOk(c, n, m) && i < |m.eagers|
    ensures i == 0 && |m.eagers| == 1 && m.send.Some? && m.send.value.eager
    ensures ImmSeq(m.eagers[0].msg.imm) == n % SEQ_SPAN
    ensures m.eagers[i := m.eagers[i].(arrived := true)] == [m.eagers[0].(arrived := true)]
  {
    ImmRoundTrip(c.commId, n % SEQ_SPAN, 1);
  }

  /** An eager message is either put aside in the message buffer or meets the receive it belongs to. */
  lemma {:induction false} HandleEagerIs(c: Config, st: State, st1: State, n: nat, accept: bool)
    requires ValidConfig(c) && Inv(c, st) && GoodRing(st.r.ring) && n < st.recvLow + SLOTS
    requires |MsgOf(st, n).eagers| == 1 && !MsgOf(st, n).eagers[0].arrived
    requires ImmSeq(MsgOf(st, n).eagers[0].msg.imm) == n % SEQ_SPAN
    requires st1 == SetMsg(st, n, MsgOf(st, n).(eagers := [MsgOf(st, n).eagers[0].(arrived := true)]))
    ensures var e := MsgOf(st, n).eagers[0].msg;
            var (ring, res, stat) := Insert(st.r.ring, n % SEQ_SPAN, HeldEager(e), Buff);
            && (n >= st.received ==> HandleEager(st1, e, accept) == Next(st1.(r := st1.r.(ring := ring))))
            && (n < st.received ==> LiveRecv(st1, n) && HandleEager(st1, e, accept) == EagerFound(st1, n, e, accept))
  {
    hide Messages, SendRing, SendQueue, RecvQueue, Memory, Reports, Insert, MsgOk, FindReq, EagerFound, ImmSeq;
    var m := MsgOf(st, n);
    EagerIsNear(c, st, n, 0);
    if n >= st.received {
      EagerHeldSafe(c, st, n);
    } else {
      InsertTaken(st.r.ring, st.recvLow, n, HeldEager(m.eagers[0].msg), Buff);
      FindRecv(c, st, n);
      EagerMeetsRecv(c, st, st1, n, accept);
    }
  }

  lemma {:induction false} HandleEagerLighter(c: Config, st: State, st1: State, n: nat, accept: bool)
    requires ValidConfig(c) && Inv(c, st) && GoodRing(st.r.ring) && n < st.sent && n < st.recvLow + SLOTS
    requires |MsgOf(st, n).eagers| == 1 && !MsgOf(st, n).eagers[0].arrived
    requires MsgOf(st, n).send.Some? && MsgOf(st, n).send.value.eager
    requires ImmSeq(MsgOf(st, n).eagers[0].msg.imm) == n % SEQ_SPAN
    requires st1 == SetMsg(st, n, MsgOf(st, n).(eagers := [MsgOf(st, n).eagers[0].(arrived := true)]))
    ensures Lighter(st, HandleEager(st1, MsgOf(st, n).eagers[0].msg, accept), n)
  {
    hide Inv, HandleEager, Insert, MsgOk, EagerToRecv, WriteLoad, ImmSeq;
    HandleEagerIs(c, st, st1, n, accept);
    MsgHolds(c, st, n);
    var m := MsgOf(st, n);
    if n < st.received {
      MsgsAfter(st, st1, n, st1.msgs[n]);
      EagerMetLighter(c, n, m, accept);
    }
  }

  /** The eager message of n sets free one copy at most. */
  lemma {:induction false} EagerMetLighter(c: Config, n: nat, m: Msg, accept: bool)
    requires MsgOk(c, n, m) && m.recv.Some? && |m.eagers| == 1 && !m.eagers[0].arrived && m.send.Some? && m.send.value.eager
    ensures var m0 := m.(eagers := [m.eagers[0].(arrived := true)]);
            Work(EagerToRecv(m0, m.eagers[0].msg, accept).0) < Work(m)
  {
    hide Imm, Contiguous, WriteOf;
  }

  // ---------------------------------------------------------------------------------------------
  // Runs of the network alone

  /** Steps that need no call of an application, with an accepted post where a queue is drained. */
  predicate Network(a: Action)
  {
    match a
    case Send(_, _) => false
    case Recv(_, _, _, _) => false
    case RetireSend(_) => false
    case RetireRecv(_) => false
    case OtherTraffic(_) => false
    case PumpSend(accept) => accept > 0
    case PumpRecv(accepted) => accepted
    case _ => true
  }

  predicate SameCallsMade(st: State, st': State)
  {
    st'.outbox == st.outbox && st'.rooms == st.rooms && st'.sent == st.sent && st'.received == st.received
  }

  predicate SameHandedBack(st: State, st': State)
  {
    st'.sizes == st.sizes && st'.deliveries == st.deliveries && st'.sendLow == st.sendLow && st'.recvLow == st.recvLow
  }

  /** A network step that does something lowers the work left. */
  lemma {:induction false} NetworkStep(c: Config, st: State, a: Action)
    requires ValidConfig(c) && Inv(c, st) && WellFormed(st) && Network(a) && Step(c, st, a).Next?
    ensures var st' := Step(c, st, a).st;
            Inv(c, st') && Total(st') < Total(st) && SameCallsMade(st, st') && SameHandedBack(st, st')
  {
    hide Inv, Total, CtrlArrives, EagerArrives, WriteLands, WriteCounted, WriteAcked, EagerAcked, CtrlAcked, CopyDone,
      DrainSend, DrainRecv, Work;
    StepSafe(c, st, a);
    var n := Touched(c, st, a);
    LighterTotal(st, Step(c, st, a), n);
  }

  /** The message that a network step works on. */
  lemma {:induction false} Touched(c: Config, st: State, a: Action) returns (n: nat)
    requires ValidConfig(c) && Inv(c, st) && WellFormed(st) && Network(a) && Step(c, st, a).Next?
    ensures Lighter(st, Step(c, st, a), n)
  {
    hide Inv, Lighter, CtrlArrives, EagerArrives, WriteLands, WriteCounted, WriteAcked, EagerAcked, CtrlAcked, CopyDone;
    match a
    case OnCtrl(k, i, accept) =>
      n := k;
      CtrlArrivesLighter(c, st, k, i, accept);
    case OnEager(k, i, accepted) =>
      n := k;
      EagerArrivesLighter(c, st, k, i, accepted);
    case OnLanding(k, i) =>
      n := k;
      WriteLandsLighter(c, st, k, i);
    case OnWrite(k, i) =>
      n := k;
      WriteCountedLighter(c, st, k, i);
    case OnWriteAck(k, i) =>
      n := k;
      WriteAckedLighter(c, st, k, i);
    case OnEagerAck(k, i) =>
      n := k;
      EagerAckedLighter(c, st, k, i);
    case OnCtrlAck(k, i) =>
      n := k;
      CtrlAckedLighter(c, st, k, i);
    case OnCopy(k, i) =>
      n := k;
      CopyDoneLighter(c, st, k, i);
    case PumpSend(accept) =>
      n := st.s.pending[0];
      DrainSendLighter(c, st, accept);
    case PumpRecv(accepted) =>
      n := st.r.pending[0].n;
      DrainRecvLighter(c, st);
  }

  /** Every action does something when its turn comes. */
  ghost predicate Effective(c: Config, st: State, actions: seq<Action>)
    requires ValidConfig(c)
    decreases |actions|
  {
    actions == [] || (WellFormed(st) && Step(c, st, actions[0]).Next? && Effective(c, Step(c, st, actions[0]).st, actions[1..]))
  }

  /** Without new calls the network comes to rest: it cannot take more steps than there is work left. */
  lemma {:induction false} NetworkRests(c: Config, st: State, actions: seq<Action>)
    requires Reachable(c, st) && ValidConfig(c) && Effective(c, st, actions)
    requires forall i :: 0 <= i < |actions| ==> Network(actions[i])
    ensures |actions| <= Total(st)
  {
    hide Total, Step, Run;
    ReachableInv(c, st);
    NetworkRestsFrom(c, st, actions);
  }

  lemma {:induction false} NetworkRestsFrom(c: Config, st: State, actions: seq<Action>)
    requires ValidConfig(c) && Inv(c, st) && Effective(c, st, actions)
    requires forall i :: 0 <= i < |actions| ==> Network(actions[i])
    ensures |actions| <= Total(st)
    decreases |actions|
  {
    hide Inv, Total, Step;
    if actions != [] {
      NetworkStep(c, st, actions[0]);
      NetworkRestsFrom(c, Step(c, st, actions[0]).st, actions[1..]);
    }
  }

  /** Nothing of message n is under way, except towards a window that it is beyond. */
  predicate AtRest(st: State, n: nat, m: Msg)
  {
    && (forall i :: 0 <= i < |m.ctrls| ==> (m.ctrls[i].arrived || n >= st.sendLow + SLOTS) && m.ctrls[i].acked)
    && (forall i :: 0 <= i < |m.eagers| ==> (m.eagers[i].arrived || n >= st.recvLow + SLOTS) && m.eagers[i].acked)
    && (forall i :: 0 <= i < |m.writes| ==> m.writes[i].stage == Counted && m.writes[i].acked)
    && (forall i :: 0 <= i < |m.copies| ==> m.copies[i].finished)
  }

  /** Nothing is queued and every message is at rest. */
  ghost predicate Quiet(st: State)
  {
    st.s.pending == [] && st.r.pending == [] && forall n {:trigger MsgOf(st, n)} :: n >= 0 ==> AtRest(st, n, MsgOf(st, n))
  }

  /** An operation of a message that is not at rest can take its next step. */
  lemma {:induction false} OperationCanStep(c: Config, st: State, n: nat) returns (a: Action)
    requires ValidConfig(c) && WellFormed(st) && !AtRest(st, n, MsgOf(st, n))
    ensures Network(a) && !Step(c, st, a).Idle? && !Beyond(st, a)
  {
    hide HandleCtrl, HandleEager, AckSegment, Overlay, FindReq, ImmComm, AckSend, AckRecv;
    var m := MsgOf(st, n);
    if i :| 0 <= i < |m.ctrls| && !((m.ctrls[i].arrived || n >= st.sendLow + SLOTS) && m.ctrls[i].acked) {
      a := if !m.ctrls[i].acked then OnCtrlAck(n, i) else OnCtrl(n, i, 0);
      CtrlNotIdle(c, st, n, i);
    } else if i :| 0 <= i < |m.eagers| && !((m.eagers[i].arrived || n >= st.recvLow + SLOTS) && m.eagers[i].acked) {
      a := if !m.eagers[i].acked then OnEagerAck(n, i) else OnEager(n, i, false);
      EagerNotIdle(c, st, n, i);
    } else if i :| 0 <= i < |m.writes| && !(m.writes[i].stage == Counted && m.writes[i].acked) {
      a := if m.writes[i].stage == Flying then OnLanding(n, i)
           else if m.writes[i].stage == Placed then OnWrite(n, i) else OnWriteAck(n, i);
    } else {
      var i :| 0 <= i < |m.copies| && !m.copies[i].finished;
      a := OnCopy(n, i);
    }
  }

  lemma {:induction false} CtrlNotIdle(c: Config, st: State, n: nat, i: nat)
    requires ValidConfig(c) && WellFormed(st) && i < |MsgOf(st, n).ctrls|
    ensures !MsgOf(st, n).ctrls[i].arrived ==> !CtrlArrives(c, st, n, i, 0).Idle?
  {
  }

  lemma {:induction false} EagerNotIdle(c: Config, st: State, n: nat, i: nat)
    requires ValidConfig(c) && WellFormed(st) && i < |MsgOf(st, n).eagers|
    ensures !MsgOf(st, n).eagers[i].arrived ==> !EagerArrives(c, st, n, i, false).Idle?
  {
  }

  /** The network is never stuck: as long as it is not quiet, it can take a step. */
  lemma {:induction false} NeverStuck(c: Config, st: State) returns (a: Action)
    requires ValidConfig(c) && Inv(c, st) && WellFormed(st) && !Quiet(st)
    ensures Network(a) && Step(c, st, a).Next?
  {
    hide Inv, Step, AtRest;
    if st.s.pending != [] || st.r.pending != [] {
      a := if st.s.pending != [] then PumpSend(1) else PumpRecv(true);
      PumpNotIdle(c, st);
    } else {
      var n :| n >= 0 && !AtRest(st, n, MsgOf(st, n));
      a := OperationCanStep(c, st, n);
    }
    StepSafe(c, st, a);
  }

  lemma {:induction false} PumpNotIdle(c: Config, st: State)
    requires ValidConfig(c) && WellFormed(st)
    ensures st.s.pending != [] ==> !Step(c, st, PumpSend(1)).Idle?
    ensures st.r.pending != [] ==> !Step(c, st, PumpRecv(true)).Idle?
  {
  }

  lemma {:induction false} RunAppend(c: Config, st: State, a: seq<Action>, b: seq<Action>)
    requires ValidConfig(c) && Run(c, st, a).Next?
    ensures Run(c, st, a + b) == Run(c, Run(c, st, a).st, b)
    decreases |a|
  {
    hide Step;
    if a == [] {
      assert a + b == b;
    } else {
      assert (a + b)[1..] == a[1..] + b;
      match Step(c, st, a[0])
      case Next(st1) => RunAppend(c, st1, a[1..], b);
      case Idle => RunAppend(c, st, a[1..], b);
      case Error =>
    }
  }

  lemma {:induction false} RunOne(c: Config, st: State, a: Action, rest: seq<Action>)
    requires ValidConfig(c) && WellFormed(st) && Step(c, st, a).Next?
    ensures Run(c, st, [a] + rest) == Run(c, Step(c, st, a).st, rest)
  {
    hide Step;
    assert ([a] + rest)[1..] == rest;
  }

  /** From every state the network alone can bring itself to rest. */
  lemma {:induction false} ComesToRest(c: Config, st: State) returns (actions: seq<Action>)
    requires ValidConfig(c) && Inv(c, st)
    ensures forall i :: 0 <= i < |actions| ==> Network(actions[i])
    ensures Run(c, st, actions).Next?
    ensures var end := Run(c, st, actions).st;
            Inv(c, end) && Quiet(end) && SameCallsMade(st, end) && SameHandedBack(st, end)
    decreases Total(st)
  {
    hide Inv, Quiet, Step, Total;
    InvWellFormed(c, st);
    if Quiet(st) {
      actions := [];
    } else {
      var a := NeverStuck(c, st);
      NetworkStep(c, st, a);
      var rest := ComesToRest(c, Step(c, st, a).st);
      RunOne(c, st, a, rest);
      actions := [a] + rest;
    }
  }

  // ---------------------------------------------------------------------------------------------
  // Handing back what is complete

  /** In a quiet state every message that both sides called for is complete: it is in both windows. */
  lemma {:induction false} QuietComplete(c: Config, st: State, n: nat)
    requires Inv(c, st) && Quiet(st) && n < st.sent && n < st.received
    ensures MsgOf(st, n).send.Some? && MsgOf(st, n).send.value.done
    ensures MsgOf(st, n).recv.Some? && MsgOf(st, n).recv.value.done
  {
    hide Messages, SendRing, RecvRing, SendQueue, RecvQueue, Memory, Reports;
    assert AtRest(st, n, MsgOf(st, n));
    assert TransferRun.Settled(MsgOf(st, n));
    QuietDone(c, st, n);
  }

  /** Every message that both sides called for is complete on both sides. */
  ghost predicate AllDone(st: State)
  {
    forall n: nat {:trigger MsgOf(st, n)} :: n < st.sent && n < st.received ==>
      && MsgOf(st, n).send.Some? && MsgOf(st, n).send.value.done
      && MsgOf(st, n).recv.Some? && MsgOf(st, n).recv.value.done
  }

  lemma {:induction false} QuietAllDone(c: Config, st: State)
    requires Inv(c, st) && Quiet(st)
    ensures AllDone(st)
  {
    hide Inv, Quiet;
    forall n: nat | n < st.sent && n < st.received
      ensures MsgOf(st, n).send.Some? && MsgOf(st, n).send.value.done
      ensures MsgOf(st, n).recv.Some? && MsgOf(st, n).recv.value.done
    {
      QuietComplete(c, st, n);
    }
  }

  /** A complete request can be handed back, whatever its place. */
  lemma {:induction false} CanHandBack(c: Config, st: State, a: Action)
    requires ValidConfig(c) && Inv(c, st) && WellFormed(st) && AllDone(st) && (a.RetireSend? || a.RetireRecv?)
    requires a.n < st.sent && a.n < st.received && (if a.RetireSend? then a.n !in st.sizes else a.n !in st.deliveries)
    ensures Step(c, st, a).Next? && Inv(c, Step(c, st, a).st) && AllDone(Step(c, st, a).st)
    ensures SameCallsMade(st, Step(c, st, a).st)
  {
    hide Inv, Complete, Skip;
    StepSafe(c, st, a);
    var m := MsgOf(st, a.n);
    var st' := Step(c, st, a).st;
    assert forall n :: MsgOf(st', n) == MsgOf(st, n);
  }

  /** Handing back the oldest request of one side. */
  lemma {:induction false} HandBackOldest(c: Config, st: State) returns (a: Action)
    requires ValidConfig(c) && Inv(c, st) && WellFormed(st) && AllDone(st)
    requires st.sendLow < Min(st.sent, st.received) || st.recvLow < Min(st.sent, st.received)
    ensures (a.RetireSend? || a.RetireRecv?) && Step(c, st, a).Next?
    ensures var st' := Step(c, st, a).st;
            && Inv(c, st') && AllDone(st') && SameCallsMade(st, st')
            && st'.sendLow + st'.recvLow > st.sendLow + st.recvLow
  {
    hide Inv, AllDone, Step, SameCallsMade;
    a := if st.sendLow < Min(st.sent, st.received) then RetireSend(st.sendLow) else RetireRecv(st.recvLow);
    LowIsOut(c, st);
    Lows(c, st);
    CanHandBack(c, st, a);
    LowMoves(c, st, a);
  }

  lemma {:induction false} LowMoves(c: Config, st: State, a: Action)
    requires ValidConfig(c) && WellFormed(st) && (a == RetireSend(st.sendLow) || a == RetireRecv(st.recvLow))
    requires Step(c, st, a).Next? && Inv(c, Step(c, st, a).st)
    ensures var st' := Step(c, st, a).st; st'.sendLow + st'.recvLow > st.sendLow + st.recvLow
  {
    hide Inv, Step;
    Tally(c, st, a);
    LowIsOut(c, Step(c, st, a).st);
  }

  lemma {:induction false} HandBackAll(c: Config, st: State) returns (actions: seq<Action>)
    requires ValidConfig(c) && Inv(c, st) && AllDone(st)
    ensures forall i :: 0 <= i < |actions| ==> actions[i].RetireSend? || actions[i].RetireRecv?
    ensures Run(c, st, actions).Next?
    ensures var end := Run(c, st, actions).st;
            && Inv(c, end) && SameCallsMade(st, end)
            && end.sendLow >= Min(st.sent, st.received) && end.recvLow >= Min(st.sent, st.received)
    decreases 2 * Min(st.sent, st.received) - st.sendLow - st.recvLow
  {
    hide Inv, AllDone, Step;
    InvWellFormed(c, st);
    if st.sendLow >= Min(st.sent, st.received) && st.recvLow >= Min(st.sent, st.received) {
      actions := [];
    } else {
      var a := HandBackOldest(c, st);
      Lows(c, Step(c, st, a).st);
      var rest := HandBackAll(c, Step(c, st, a).st);
      RunOne(c, st, a, rest);
      actions := [a] + rest;
    }
  }

  lemma {:induction false} LowIsOut(c: Config, st: State)
    requires Inv(c, st)
    ensures st.sendLow !in st.sizes && st.recvLow !in st.deliveries
  {
  }

  lemma {:induction false} BelowLow(c: Config, st: State, n: nat)
    requires Inv(c, st)
    ensures n < st.sendLow ==> n in st.sizes
    ensures n < st.recvLow ==> n in st.deliveries
    ensures |st.outbox| == st.sent && |st.rooms| == st.received
  {
    LiveIsNear(c, st, n);
  }

  /**
   Total correctness. From every reachable state, without any further call to send or receive, the
   protocol can be run to a state in which every message that both applications have called for has
   been handed over: the receiver holds the front of the sender's bytes, cut to the shorter length,
   and the sender has been told that length.
   */
  lemma {:induction false} EverythingArrives(c: Config, st: State) returns (actions: seq<Action>, end: State)
    requires Reachable(c, st) && ValidConfig(c)
    ensures forall i :: 0 <= i < |actions| ==> Network(actions[i]) || actions[i].RetireSend? || actions[i].RetireRecv?
    ensures Run(c, st, actions) == Next(end) && Reachable(c, end)
    ensures end.outbox == st.outbox && end.rooms == st.rooms
    ensures forall n: nat :: n < |end.outbox| && n < |end.rooms| ==>
              var len := Min(|end.outbox[n]|, end.rooms[n]);
              && n in end.deliveries && end.deliveries[n] == end.outbox[n][..len]
              && n in end.sizes && end.sizes[n] == len
  {
    hide Inv, Quiet, AllDone, Step, Run, Reachable;
    ReachableInv(c, st);
    var rest := ComesToRest(c, st);
    var mid := Run(c, st, rest).st;
    QuietAllDone(c, mid);
    var back := HandBackAll(c, mid);
    RunAppend(c, st, rest, back);
    actions := rest + back;
    end := Run(c, mid, back).st;
    StillReachable(c, st, actions, end);
    Delivery(c, end);
    forall n: nat | n < |end.outbox| && n < |end.rooms| ensures n in end.deliveries && n in end.sizes {
      BelowLow(c, end, n);
      BelowLow(c, mid, n);
    }
  }

  lemma {:induction false} StillReachable(c: Config, st: State, actions: seq<Action>, end: State)
    requires ValidConfig(c) && Reachable(c, st) && Run(c, st, actions) == Next(end)
    ensures Reachable(c, end)
  {
    hide Run;
    var sendSlots: seq<Slot<Elem>>, recvSlots: seq<Slot<Elem>>, mem: map<nat, Bytes>, before: seq<Action> :|
      Setup(c, sendSlots, recvSlots, mem) && Run(c, Init(c, sendSlots, recvSlots, mem), before) == Next(st);
    RunAppend(c, Init(c, sendSlots, recvSlots, mem), before, actions);
  }

  // ---------------------------------------------------------------------------------------------
  // A request that is not handed back stops its side for good

  /** One action, after which the network comes to rest. */
  lemma {:induction false} DoAndRest(c: Config, st: State, a: Action) returns (actions: seq<Action>, end: State)
    requires ValidConfig(c) && Inv(c, st) && WellFormed(st) && Step(c, st, a).Next?
    ensures Run(c, st, actions) == Next(end) && Inv(c, end) && Quiet(end) && Tallied(st, Next(end), a)
  {
    hide Inv, Quiet, Step;
    StepSafe(c, st, a);
    Tally(c, st, a);
    var rest := ComesToRest(c, Step(c, st, a).st);
    RunOne(c, st, a, rest);
    actions := [a] + rest;
    end := Run(c, st, actions).st;
  }

  /** k messages sent and received, and all of them handed back on both sides but the first. */
  ghost predicate FirstKept(c: Config, st: State, k: nat)
  {
    && Inv(c, st) && Quiet(st) && st.sent == k && st.received == k
    && st.sizes.Keys == Below(k) - {0} && st.deliveries.Keys == Below(k) - {0}
  }

  /** While only the first of k messages is kept, one request is outstanding per call beyond them. */
  lemma {:induction false} Outstanding(c: Config, st: State, k: nat)
    requires Inv(c, st) && st.sizes.Keys == Below(k) - {0} && st.deliveries.Keys == Below(k) - {0}
    ensures st.sendLow == 0 && st.recvLow == 0
    ensures st.s.inflight == st.sent - (if k == 0 then 0 else k - 1)
    ensures st.r.inflight == st.received - (if k == 0 then 0 else k - 1)
  {
    hide Messages, SendRing, RecvRing, SendQueue, RecvQueue, Memory, Reports;
    assert 0 !in st.sizes.Keys && 0 !in st.deliveries.Keys;
    assert |Below(k) - {0}| == if k == 0 then 0 else k - 1 by {
      if k > 0 {
        assert Below(k) == (Below(k) - {0}) + {0};
      } else {
        assert Below(k) - {0} == {};
      }
    }
  }

  lemma {:induction false} CallsPossible(c: Config, st: State)
    requires ValidConfig(c) && Inv(c, st) && WellFormed(st)
    ensures st.s.inflight < MAX_REQUESTS && st.s.pending == [] ==> !Step(c, st, Send([], 0)).Idle?
    ensures st.r.inflight < MAX_REQUESTS && st.r.pending == [] ==> !Step(c, st, Recv(FLUSH_BUF, 0, true, true)).Idle?
  {
    hide Messages, SendRing, RecvRing, SendQueue, RecvQueue, Reports, Enter, SentMsg, ReceivedMsg, LookUpNext, NewSend, Advance;
    assert BufferFree(st, FLUSH_BUF, 0);
  }

  lemma {:induction false} CallBoth(c: Config, st: State, k: nat) returns (actions: seq<Action>, end: State)
    requires ValidConfig(c) && FirstKept(c, st, k) && k < SLOTS
    ensures Run(c, st, actions) == Next(end) && Inv(c, end) && Quiet(end) && end.sent == k + 1 && end.received == k + 1
    ensures end.sizes.Keys == Below(k) - {0} && end.deliveries.Keys == Below(k) - {0}
  {
    hide Inv, Step, Below, Run;
    var send, recv := Send([], 0), Recv(FLUSH_BUF, 0, true, true);
    Outstanding(c, st, k);
    InvWellFormed(c, st);
    CallsPossible(c, st);
    StepSafe(c, st, send);
    var first, mid := DoAndRest(c, st, send);
    Outstanding(c, mid, k);
    InvWellFormed(c, mid);
    CallsPossible(c, mid);
    StepSafe(c, mid, recv);
    var second, last := DoAndRest(c, mid, recv);
    RunAppend(c, st, first, second);
    actions, end := first + second, last;
  }

  lemma {:induction false} HandBackLast(c: Config, st: State, k: nat) returns (actions: seq<Action>, end: State)
    requires ValidConfig(c) && 0 < k && Inv(c, st) && Quiet(st) && st.sent == k + 1 && st.received == k + 1
    requires st.sizes.Keys == Below(k) - {0} && st.deliveries.Keys == Below(k) - {0}
    ensures Run(c, st, actions) == Next(end) && FirstKept(c, end, k + 1)
  {
    hide Inv, Step, Run, Quiet, AllDone, Below;
    InvWellFormed(c, st);
    QuietAllDone(c, st);
    BelowNext(k);
    assert k !in st.sizes.Keys && k !in st.deliveries.Keys;
    CanHandBack(c, st, RetireSend(k));
    var first, mid := DoAndRest(c, st, RetireSend(k));
    InvWellFormed(c, mid);
    QuietAllDone(c, mid);
    assert k !in mid.deliveries.Keys;
    CanHandBack(c, mid, RetireRecv(k));
    var second, last := DoAndRest(c, mid, RetireRecv(k));
    RunAppend(c, st, first, second);
    actions, end := first + second, last;
  }

  lemma {:induction false} BelowNext(k: nat)
    requires k > 0
    ensures k !in Below(k) && (Below(k) - {0}) + {k} == Below(k + 1) - {0}
  {
  }

  /** From k messages with the first one kept to k + 1 such messages. */
  lemma {:induction false} OneMore(c: Config, st: State, k: nat) returns (actions: seq<Action>, end: State)
    requires ValidConfig(c) && FirstKept(c, st, k) && k < SLOTS
    ensures Run(c, st, actions) == Next(end) && FirstKept(c, end, k + 1)
  {
    hide Inv, Step, Run, Quiet;
    var first, mid := CallBoth(c, st, k);
    if k == 0 {
      assert Below(1) - {0} == Below(0) - {0};
      actions, end := first, mid;
    } else {
      var second, last := HandBackLast(c, mid, k);
      RunAppend(c, st, first, second);
      actions, end := first + second, last;
    }
  }

  lemma {:induction false} KeepFirst(c: Config, start: State, k: nat) returns (actions: seq<Action>, end: State)
    requires ValidConfig(c) && FirstKept(c, start, 0) && k <= SLOTS
    ensures Run(c, start, actions) == Next(end) && FirstKept(c, end, k)
    decreases k
  {
    hide FirstKept, Step;
    if k == 0 {
      actions, end := [], start;
    } else {
      var first, mid := KeepFirst(c, start, k - 1);
      var second, last := OneMore(c, mid, k - 1);
      RunAppend(c, start, first, second);
      actions, end := first + second, last;
    }
  }

  lemma {:induction false} FreshKept(c: Config, sendSlots: seq<Slot<Elem>>, recvSlots: seq<Slot<Elem>>, mem: map<nat, Bytes>)
    requires Setup(c, sendSlots, recvSlots, mem)
    ensures FirstKept(c, Init(c, sendSlots, recvSlots, mem), 0)
  {
    hide Inv;
    InitInv(c, sendSlots, recvSlots, mem);
  }

  /**
   The limit on outstanding requests does not protect callers of `test` from the window. From every
   start, the run in which the first send is complete but not handed back, while the 255 after it are,
   reaches a state with a single outstanding send in which every further send fails.
   */
  lemma {:induction false} OutOfOrderFails(c: Config, sendSlots: seq<Slot<Elem>>, recvSlots: seq<Slot<Elem>>, mem: map<nat, Bytes>)
    returns (actions: seq<Action>, st: State)
    requires Setup(c, sendSlots, recvSlots, mem)
    ensures Run(c, Init(c, sendSlots, recvSlots, mem), actions) == Next(st) && WellFormed(st)
    ensures st.s.inflight == 1 && MsgOf(st, 0).send.Some? && MsgOf(st, 0).send.value.done
    ensures forall data: Bytes, accept: nat :: Step(c, st, Send(data, accept)).Error?
  {
    hide Inv, Step, Run, Quiet, Below;
    FreshKept(c, sendSlots, recvSlots, mem);
    actions, st := KeepFirst(c, Init(c, sendSlots, recvSlots, mem), SLOTS);
    Outstanding(c, st, SLOTS);
    QuietComplete(c, st, 0);
    InvWellFormed(c, st);
    forall data: Bytes, accept: nat ensures Step(c, st, Send(data, accept)).Error? {
      NoMoreSends(c, st, data, accept);
    }
  }

  lemma {:induction false} NoMoreSends(c: Config, st: State, data: Bytes, accept: nat)
    requires FirstKept(c, st, SLOTS)
    ensures WellFormed(st) && ValidConfig(c) && Step(c, st, Send(data, accept)).Error?
  {
    hide Inv, Step, Below;
    Outstanding(c, st, SLOTS);
    StepSafe(c, st, Send(data, accept));
  }
}

/**
 Every step of the network keeps the invariant. A message from the peer fails exactly if it is not in
 the window of the side it reaches; no other step of the network fails.
 */
module TransferSteps {
  import opened Arithmetic
  import opened Collections
  import opened MsgBuff
  import opened MsgLedger
  import opened Scheduler
  import opened Wire
  import opened Transfer
  import opened TransferMsg
  import opened TransferRing
  import opened TransferInv

  ghost predicate Safe(c: Config, o: Outcome)
  {
    !o.Error? && (o.Next? ==> Inv(c, o.st))
  }

  /** Only messages that both sides called for are handed back. */
  lemma {:induction false} Lows(c: Config, st: State)
    requires Inv(c, st)
    ensures st.sendLow <= st.sent && st.sendLow <= st.received && st.recvLow <= st.sent && st.recvLow <= st.received
  {
    hide SendRing, RecvRing, SendQueue, RecvQueue, Memory, Reports;
    if st.sendLow > 0 {
      assert st.sendLow - 1 in st.sizes.Keys;
      MsgHolds(c, st, st.sendLow - 1);
    }
    if st.recvLow > 0 {
      assert st.recvLow - 1 in st.deliveries.Keys;
      MsgHolds(c, st, st.recvLow - 1);
    }
  }

  /** A request that is not handed back lies in its side's window. */
  lemma {:induction false} LiveIsNear(c: Config, st: State, n: nat)
    requires Inv(c, st)
    ensures n !in st.sizes ==> st.sendLow <= n
    ensures n !in st.deliveries ==> st.recvLow <= n
  {
    assert n < st.sendLow ==> n in st.sizes.Keys;
    assert n < st.recvLow ==> n in st.deliveries.Keys;
  }

  // ---------------------------------------------------------------------------------------------
  // Actions that change one message and nothing around it

  /** What the rings and queues know about a message does not change. */
  predicate SameFace(m: Msg, m': Msg)
  {
    && m'.send.Some? == m.send.Some? && m'.recv.Some? == m.recv.Some?
    && (m.send.Some? ==> m'.send.value.data == m.send.value.data)
    && (m.recv.Some? ==> m'.recv.value.buf == m.recv.value.buf && m'.recv.value.dstLen == m.recv.value.dstLen)
    && CtrlIn(m') == CtrlIn(m) && (CtrlIn(m) ==> m'.ctrls[0].msg == m.ctrls[0].msg)
    && EagerIn(m') == EagerIn(m) && (EagerIn(m) ==> m'.eagers[0].msg == m.eagers[0].msg)
    && SendWaits(m') == SendWaits(m) && CtrlWaits(m') == CtrlWaits(m) && CopyWaits(m') == CopyWaits(m)
  }

  lemma {:induction false} QuietStep(c: Config, st: State, st': State, n: nat, m: Msg)
    requires Inv(c, st) && OneMessage(st, st', n, m)
    requires st'.s == st.s && st'.r == st.r && st'.mem == st.mem
    requires SameFace(MsgOf(st, n), m)
    requires MsgOk(c, n, m) && Life(st, n, m)
    requires n !in st.deliveries ==> BufferOk(st.mem, m)
    ensures Inv(c, st')
  {
    MessagesFrame(c, st, st', n, m);
    SendRingFrame(st, st', n, m);
    RecvRingFrame(st, st', n, m);
    SendQueueFrame(st, st', n, m);
    RecvQueueFrame(st, st', n, m);
    MemoryFrame(st, st', n, m);
    ReportsFrame(st, st', n, m);
  }

  lemma {:induction false} WriteAckedSafe(c: Config, st: State, n: nat, i: nat)
    requires Inv(c, st)
    ensures Safe(c, WriteAcked(st, n, i))
  {
    hide SendRing, RecvRing, SendQueue, RecvQueue, Reports;
    var m := MsgOf(st, n);
    if i < |m.writes| && !m.writes[i].acked {
      WriteAckedOk(c, n, m, i);
      var m' := m.(send := Some(AckSend(m.send.value)), writes := m.writes[i := m.writes[i].(acked := true)]);
      assert n !in st.deliveries ==> BufferOk(st.mem, m);
      QuietStep(c, st, SetMsg(st, n, m'), n, m');
    }
  }

  lemma {:induction false} EagerAckedSafe(c: Config, st: State, n: nat, i: nat)
    requires Inv(c, st)
    ensures Safe(c, EagerAcked(st, n, i))
  {
    hide SendRing, RecvRing, SendQueue, RecvQueue, Reports;
    var m := MsgOf(st, n);
    if i < |m.eagers| && !m.eagers[i].acked {
      EagerAckedOk(c, n, m);
      var m' := m.(send := Some(AckSend(m.send.value)), eagers := [m.eagers[0].(acked := true)]);
      assert m.eagers[i := m.eagers[i].(acked := true)] == m'.eagers;
      assert n !in st.deliveries ==> BufferOk(st.mem, m);
      QuietStep(c, st, SetMsg(st, n, m'), n, m');
    }
  }

  lemma {:induction false} CtrlAckedSafe(c: Config, st: State, n: nat, i: nat)
    requires Inv(c, st)
    ensures Safe(c, CtrlAcked(st, n, i))
  {
    hide SendRing, RecvRing, SendQueue, RecvQueue, Reports;
    var m := MsgOf(st, n);
    if i < |m.ctrls| && !m.ctrls[i].acked {
      CtrlAckedOk(c, n, m);
      var m' := m.(recv := Some(AckRecv(m.recv.value, 0)), ctrls := [m.ctrls[0].(acked := true)]);
      assert m.ctrls[i := m.ctrls[i].(acked := true)] == m'.ctrls;
      assert n !in st.deliveries ==> BufferOk(st.mem, m);
      QuietStep(c, st, SetMsg(st, n, m'), n, m');
    }
  }

  /** A live receive is found under its own number. */
  lemma {:induction false} FindRecv(c: Config, st: State, n: nat)
    requires Inv(c, st) && n !in st.deliveries && n < st.received
    ensures FindReq(st.r.ring, n % SEQ_SPAN) == Some(n)
  {
    var m := MsgOf(st, n);
    LiveIsNear(c, st, n);
    RetrieveIs(st.r.ring, st.recvLow, n);
  }

  lemma {:induction false} FindSend(c: Config, st: State, n: nat)
    requires Inv(c, st) && n !in st.sizes && n < st.sent
    ensures FindReq(st.s.ring, n % SEQ_SPAN) == Some(n)
  {
    var m := MsgOf(st, n);
    LiveIsNear(c, st, n);
    RetrieveIs(st.s.ring, st.sendLow, n);
  }

  lemma {:induction false} WriteCountedSafe(c: Config, st: State, n: nat, i: nat)
    requires Inv(c, st)
    ensures Safe(c, WriteCounted(c, st, n, i))
  {
    hide Messages, SendRing, RecvRing, SendQueue, RecvQueue, Memory, Reports, MsgOk, AckSegment, FindReq;
    MsgHolds(c, st, n);
    BufferHolds(c, st, n);
    InvWellFormed(c, st);
    var m := MsgOf(st, n);
    if i < |m.writes| && m.writes[i].stage == Placed {
      WriteCarries(c, n, m, i);
      WriteCountedOk(c, n, m, i);
      FindRecv(c, st, n);
      var w := m.writes[i].msg;
      var m1 := m.(writes := m.writes[i := m.writes[i].(stage := Counted)]);
      var st1 := SetMsg(st, n, m1);
      MsgsAfter(st, st1, n, m1);
      var m' := m1.(recv := Some(AckSegment(m.recv.value, |w.data|, ImmSegs(w.imm))));
      var st' := SetMsg(st1, n, m');
      assert st'.msgs == st.msgs[n := m'];
      SegmentKeeps(m.recv.value, |w.data|, ImmSegs(w.imm));
      QuietStep(c, st, st', n, m');
    }
  }

  lemma {:induction false} SegmentKeeps(p: RecvReq, size: nat, totalSegs: nat)
    ensures var p' := AckSegment(p, size, totalSegs); p'.buf == p.buf && p'.dstLen == p.dstLen && p'.copy == p.copy
  {
  }

  // ---------------------------------------------------------------------------------------------
  // Placing bytes

  /** Writing bytes of the message over its buffer keeps what was already right. */
  lemma {:induction false} OverlayKeeps(b: Bytes, data: Bytes, offset: nat, len: nat, from: nat, to: nat)
    requires offset + len <= |b| && offset + len <= |data| && RangeIs(b, data, from, to)
    ensures RangeIs(Overlay(b, offset, data[offset..offset + len]), data, from, to)
    ensures RangeIs(Overlay(b, offset, data[offset..offset + len]), data, offset, offset + len)
  {
  }

  /** One message's buffer changes; every other live message is untouched or has no bytes there. */
  lemma {:induction false} MemoryPlaced(c: Config, st: State, st': State, n: nat, m: Msg, b: Bytes)
    requires Inv(c, st) && OneMessage(st, st', n, m) && n !in st.deliveries && n < st.received
    requires SameFace(MsgOf(st, n), m) && m.recv.Some?
    requires m.recv.value.buf in st.mem && |b| == |st.mem[m.recv.value.buf]|
    requires m.recv.value.dstLen == 0 ==> b == st.mem[m.recv.value.buf]
    requires st'.mem == st.mem[m.recv.value.buf := b]
    requires BytesOk(m, b)
    ensures Memory(st')
  {
    hide Messages, SendRing, RecvRing, SendQueue, RecvQueue, Reports, BytesOk;
    MsgsAfter(st, st', n, m);
    forall k: nat | k !in st'.deliveries ensures BufferOk(st'.mem, MsgOf(st', k)) {
      var before := MsgOf(st, k);
      MsgHolds(c, st, k);
      assert BufferOk(st.mem, MsgOf(st, n));
      if k != n && before.recv.Some? {
        assert Apart(MsgOf(st, n), before);
        if before.recv.value.buf == m.recv.value.buf && m.recv.value.dstLen > 0 {
          EmptyBytesOk(c, st, k, b);
        }
      }
    }
    forall k: nat, j: nat | k !in st'.deliveries && j !in st'.deliveries && k != j
      ensures Apart(MsgOf(st', k), MsgOf(st', j))
    {
      assert Apart(MsgOf(st, k), MsgOf(st, j));
    }
  }

  /** An empty receive says nothing about the contents of its buffer. */
  lemma {:induction false} EmptyBytesOk(c: Config, st: State, k: nat, b: Bytes)
    requires Inv(c, st) && k < st.received
    requires MsgOf(st, k).recv.Some? && MsgOf(st, k).recv.value.dstLen == 0
    ensures BytesOk(MsgOf(st, k), b)
  {
    hide Messages, SendRing, RecvRing, SendQueue, RecvQueue, Memory, Reports, MsgOk;
    MsgHolds(c, st, k);
    var m := MsgOf(st, k);
    if m.send.Some? {
      forall i | 0 <= i < |m.writes| && m.writes[i].stage != Flying
        ensures RangeIs(b, m.send.value.data, m.writes[i].msg.offset, m.writes[i].msg.offset + |m.writes[i].msg.data|)
      {
        WriteCarries(c, k, m, i);
      }
    }
  }

  lemma {:induction false} WriteLandsSafe(c: Config, st: State, n: nat, i: nat)
    requires Inv(c, st)
    ensures Safe(c, WriteLands(st, n, i))
  {
    hide Messages, SendRing, RecvRing, SendQueue, RecvQueue, Memory, Reports, MsgOk, Overlay;
    MsgHolds(c, st, n);
    BufferHolds(c, st, n);
    var m := MsgOf(st, n);
    if i < |m.writes| && m.writes[i].stage == Flying {
      WriteCarries(c, n, m, i);
      WriteLandsOk(c, n, m, i);
      var w := m.writes[i].msg;
      var m' := m.(writes := m.writes[i := m.writes[i].(stage := Placed)]);
      var b := Overlay(st.mem[w.buf], w.offset, w.data);
      var st' := SetMsg(st, n, m').(mem := st.mem[w.buf := b]);
      LandedBytes(c, n, m, i, st.mem[w.buf]);
      MessagesFrame(c, st, st', n, m');
      SendRingFrame(st, st', n, m');
      RecvRingFrame(st, st', n, m');
      SendQueueFrame(st, st', n, m');
      RecvQueueFrame(st, st', n, m');
      MemoryPlaced(c, st, st', n, m', b);
      ReportsFrame(st, st', n, m');
    }
  }

  lemma {:induction false} LandedBytes(c: Config, n: nat, m: Msg, i: nat, b: Bytes)
    requires ValidConfig(c) && MsgOk(c, n, m) && i < |m.writes| && m.writes[i].stage == Flying
    requires m.recv.Some? && m.recv.value.dstLen <= |b| && BytesOk(m, b)
    ensures var w := m.writes[i].msg;
            && w.offset + |w.data| <= |b|
            && BytesOk(m.(writes := m.writes[i := m.writes[i].(stage := Placed)]), Overlay(b, w.offset, w.data))
            && (m.recv.value.dstLen == 0 ==> Overlay(b, w.offset, w.data) == b)
  {
    WriteCarries(c, n, m, i);
    var w, data := m.writes[i].msg, m.send.value.data;
    var b' := Overlay(b, w.offset, w.data);
    var m' := m.(writes := m.writes[i := m.writes[i].(stage := Placed)]);
    forall j | 0 <= j < |m'.writes| && m'.writes[j].stage != Flying
      ensures RangeIs(b', data, m'.writes[j].msg.offset, m'.writes[j].msg.offset + |m'.writes[j].msg.data|)
    {
      WriteCarries(c, n, m, j);
      var x := m.writes[j].msg;
      if j == i {
        OverlayKeeps(b, data, w.offset, |w.data|, 0, 0);
      } else {
        OverlayKeeps(b, data, w.offset, |w.data|, x.offset, x.offset + |x.data|);
      }
    }
    assert m.copies == [] by {
      CtrlNotEager(c, n, m);
    }
  }

  /** Striped messages are never copied. */
  lemma {:induction false} CtrlNotEager(c: Config, n: nat, m: Msg)
    requires MsgOk(c, n, m) && m.send.Some? && !m.send.value.eager
    ensures m.eagers == [] && m.copies == []
  {
  }

  lemma {:induction false} CopiesAtMostOne(c: Config, st: State, n: nat)
    requires Inv(c, st)
    ensures |MsgOf(st, n).copies| <= 1
  {
  }

  lemma {:induction false} CopyDoneSafe(c: Config, st: State, n: nat, i: nat)
    requires Inv(c, st)
    ensures Safe(c, CopyDone(st, n, i))
  {
    hide Messages, SendRing, RecvRing, SendQueue, RecvQueue, Reports, MsgOk;
    MsgHolds(c, st, n);
    CopiesAtMostOne(c, st, n);
    var m := MsgOf(st, n);
    if i < |m.copies| && !m.copies[i].finished {
      CopyDoneOk(c, n, m);
      var p := m.recv.value;
      assert BufferOk(st.mem, m);
      var len := m.copies[0].len;
      var b := Overlay(st.mem[p.buf], 0, p.copy.value.data[..len]);
      var m' := m.(recv := Some(AckRecv(p, p.copy.value.recvLen)), copies := [m.copies[0].(finished := true)]);
      assert m.copies[i := m.copies[i].(finished := true)] == m'.copies;
      var st' := SetMsg(st, n, m').(mem := st.mem[p.buf := b]);
      assert p.copy.value.data[..len] == m.send.value.data[0..len];
      OverlayKeeps(st.mem[p.buf], m.send.value.data, 0, len, 0, 0);
      MessagesFrame(c, st, st', n, m');
      SendRingFrame(st, st', n, m');
      RecvRingFrame(st, st', n, m');
      SendQueueFrame(st, st', n, m');
      RecvQueueFrame(st, st', n, m');
      MemoryPlaced(c, st, st', n, m', b);
      ReportsFrame(st, st', n, m');
    }
  }

  // ---------------------------------------------------------------------------------------------
  // Draining the pending queues

  /** A send with something left to post is not complete, hence not handed back. */
  lemma {:induction false} WaitingIsLive(c: Config, st: State, n: nat)
    requires Inv(c, st) && SendWaits(MsgOf(st, n))
    ensures n !in st.sizes && n < st.sent && MsgOf(st, n).send.value.schedule != []
  {
  }

  lemma {:induction false} DrainEager(c: Config, st: State, st': State, n: nat, accept: nat)
    requires Inv(c, st) && st.s.pending != [] && st.s.pending[0] == n
    requires SendWaits(MsgOf(st, n)) && MsgOf(st, n).send.value.eager
    requires var (m', blocked) := Progress(MsgOf(st, n), accept);
             st' == SetMsg(st, n, m').(s := st.s.(pending := if blocked then st.s.pending else st.s.pending[1..]))
    ensures Inv(c, st')
  {
    var m := MsgOf(st, n);
    EagerPostOk(c, n, m, accept);
    var m' := Progress(m, accept).0;
    MessagesFrame(c, st, st', n, m');
    SendRingFrame(st, st', n, m');
    RecvRingFrame(st, st', n, m');
    SendQueuePop(st, st', n, m');
    RecvQueueFrame(st, st', n, m');
    assert n !in st.deliveries ==> BufferOk(st.mem, m);
    MemoryFrame(st, st', n, m');
    ReportsFrame(st, st', n, m');
  }

  /** New writes have placed nothing yet. */
  lemma {:induction false} BytesOkMore(m: Msg, m': Msg, b: Bytes)
    requires BytesOk(m, b) && m.send.Some? && m'.send.Some? && m' == m.(send := m'.send, writes := m'.writes)
    requires m'.send.value.data == m.send.value.data && m.writes <= m'.writes
    requires forall i :: |m.writes| <= i < |m'.writes| ==> m'.writes[i].stage == Flying
    ensures BytesOk(m', b)
  {
    if m.recv.Some? {
      forall i | 0 <= i < |m'.writes| && m'.writes[i].stage != Flying
        ensures RangeIs(b, m'.send.value.data, m'.writes[i].msg.offset, m'.writes[i].msg.offset + |m'.writes[i].msg.data|)
      {
        assert m'.writes[i] == m.writes[i];
      }
    }
  }

  lemma {:induction false} DrainWrites(c: Config, st: State, st': State, n: nat, accept: nat)
    requires Inv(c, st) && st.s.pending != [] && st.s.pending[0] == n
    requires SendWaits(MsgOf(st, n)) && !MsgOf(st, n).send.value.eager
    requires var (m', blocked) := Progress(MsgOf(st, n), accept);
             st' == SetMsg(st, n, m').(s := st.s.(pending := if blocked then st.s.pending else st.s.pending[1..]))
    ensures Inv(c, st')
  {
    var m := MsgOf(st, n);
    ScheduledIsOk(c, n, m);
    ProgressOk(c, n, m, accept);
    var m' := Progress(m, accept).0;
    MessagesFrame(c, st, st', n, m');
    SendRingFrame(st, st', n, m');
    RecvRingFrame(st, st', n, m');
    SendQueuePop(st, st', n, m');
    RecvQueueFrame(st, st', n, m');
    if n !in st.deliveries {
      assert BufferOk(st.mem, m);
      BytesOkMore(m, m', st.mem[m.recv.value.buf]);
    }
    MemoryFrame(st, st', n, m');
    ReportsFrame(st, st', n, m');
  }

  lemma {:induction false} DrainSendSafe(c: Config, st: State, accept: nat)
    requires Inv(c, st)
    ensures Safe(c, DrainSend(st, accept))
  {
    hide SendRing, RecvRing, RecvQueue, Reports, Memory;
    if st.s.pending != [] {
      var n := st.s.pending[0];
      var m := MsgOf(st, n);
      assert n in st.s.pending;
      WaitingIsLive(c, st, n);
      var (m', blocked) := Progress(m, accept);
      var st' := SetMsg(st, n, m').(s := st.s.(pending := if blocked then st.s.pending else st.s.pending[1..]));
      if m.send.value.eager {
        DrainEager(c, st, st', n, accept);
      } else {
        DrainWrites(c, st, st', n, accept);
      }
    }
  }

  lemma {:induction false} DrainCtrl(c: Config, st: State, st': State, n: nat, accept: bool)
    requires Inv(c, st) && st.r.pending != [] && st.r.pending[0] == CtrlPost(n) && CtrlWaits(MsgOf(st, n))
    requires var (m', blocked) := TryCtrl(MsgOf(st, n), accept);
             st' == SetMsg(st, n, m').(r := st.r.(pending := if blocked then st.r.pending else st.r.pending[1..]))
    ensures Inv(c, st')
  {
    var m := MsgOf(st, n);
    TryCtrlOk(c, n, m, accept);
    var m' := TryCtrl(m, accept).0;
    MessagesFrame(c, st, st', n, m');
    SendRingFrame(st, st', n, m');
    RecvRingFrame(st, st', n, m');
    SendQueueFrame(st, st', n, m');
    RecvQueuePop(st, st', CtrlPost(n), m');
    assert n !in st.deliveries ==> BufferOk(st.mem, m);
    MemoryFrame(st, st', n, m');
    ReportsFrame(st, st', n, m');
  }

  lemma {:induction false} DrainCopy(c: Config, st: State, st': State, n: nat, accept: bool)
    requires Inv(c, st) && st.r.pending != [] && st.r.pending[0] == CopyPost(n) && CopyWaits(MsgOf(st, n))
    requires var (m', blocked) := TryCopy(MsgOf(st, n), accept);
             st' == SetMsg(st, n, m').(r := st.r.(pending := if blocked then st.r.pending else st.r.pending[1..]))
    ensures Inv(c, st')
  {
    var m := MsgOf(st, n);
    TryCopyOk(c, n, m, accept);
    var m' := TryCopy(m, accept).0;
    MessagesFrame(c, st, st', n, m');
    SendRingFrame(st, st', n, m');
    RecvRingFrame(st, st', n, m');
    SendQueueFrame(st, st', n, m');
    RecvQueuePop(st, st', CopyPost(n), m');
    assert n !in st.deliveries ==> BufferOk(st.mem, m);
    MemoryFrame(st, st', n, m');
    ReportsFrame(st, st', n, m');
  }

  /** What is queued at the receiver belongs to a receive that is not complete. */
  lemma {:induction false} QueuedIsLive(c: Config, st: State, x: Pending)
    requires Inv(c, st) && x in st.r.pending
    ensures LiveRecv(st, x.n)
    ensures if x.CtrlPost? then CtrlWaits(MsgOf(st, x.n)) else CopyWaits(MsgOf(st, x.n))
  {
    var m := MsgOf(st, x.n);
    if x.CtrlPost? {
      assert CtrlPost(x.n) in st.r.pending;
    } else {
      assert CopyPost(x.n) in st.r.pending;
      assert !DataIn(m) by {
        CopyMeansEager(c, x.n, m);
      }
    }
  }

  lemma {:induction false} CopyMeansEager(c: Config, n: nat, m: Msg)
    requires MsgOk(c, n, m) && m.recv.Some? && m.recv.value.copy.Some?
    ensures m.send.Some? && m.send.value.eager && m.writes == []
  {
  }

  lemma {:induction false} DrainRecvSafe(c: Config, st: State, accept: bool)
    requires Inv(c, st)
    ensures Safe(c, DrainRecv(st, accept))
  {
    hide SendRing, RecvRing, SendQueue, Reports, Memory;
    if st.r.pending != [] {
      var x := st.r.pending[0];
      QueuedIsLive(c, st, x);
      var m := MsgOf(st, x.n);
      var (m', blocked) := if x.CtrlPost? then TryCtrl(m, accept) else TryCopy(m, accept);
      var st' := SetMsg(st, x.n, m').(r := st.r.(pending := if blocked then st.r.pending else st.r.pending[1..]));
      if x.CtrlPost? {
        DrainCtrl(c, st, st', x.n, accept);
      } else {
        DrainCopy(c, st, st', x.n, accept);
      }
    }
  }

  // ---------------------------------------------------------------------------------------------
  // Messages from the peer

  /**
   A ctrl message on its way to the sender belongs to a message at or above the sender's oldest one and
   less than 512 above it: the receiver is less than 256 ahead of its own oldest message, and that one
   is at most 256 ahead of the sender's.
   */
  lemma {:induction false} CtrlIsNear(c: Config, st: State, n: nat, i: nat)
    requires Inv(c, st) && i < |MsgOf(st, n).ctrls| && !MsgOf(st, n).ctrls[i].arrived
    ensures st.sendLow <= n < st.sendLow + 2 * SLOTS && n < st.received && n !in st.sizes
  {
    hide SendRing, RecvRing, SendQueue, RecvQueue, Memory, Reports;
    Lows(c, st);
    MsgHolds(c, st, n);
    assert !CtrlIn(MsgOf(st, n));
    LiveIsNear(c, st, n);
  }

  lemma {:induction false} EagerIsNear(c: Config, st: State, n: nat, i: nat)
    requires Inv(c, st) && i < |MsgOf(st, n).eagers| && !MsgOf(st, n).eagers[i].arrived
    ensures st.recvLow <= n < st.recvLow + 2 * SLOTS && n < st.sent && n !in st.deliveries
  {
    hide SendRing, RecvRing, SendQueue, RecvQueue, Memory, Reports;
    Lows(c, st);
    MsgHolds(c, st, n);
    var m := MsgOf(st, n);
    assert !EagerIn(m);
    assert m.recv.Some? ==> !DataIn(m);
    LiveIsNear(c, st, n);
  }

  lemma {:induction false} CtrlHeldSafe(c: Config, st: State, n: nat)
    requires Inv(c, st) && |MsgOf(st, n).ctrls| == 1 && !MsgOf(st, n).ctrls[0].arrived
    requires st.sent <= n < st.sendLow + SLOTS
    ensures var m := MsgOf(st, n);
            var (ring, res, stat) := Insert(st.s.ring, n % SEQ_SPAN, HeldCtrl(m.ctrls[0].msg), Buff);
            var m' := m.(ctrls := [m.ctrls[0].(arrived := true)]);
            res == Success && Inv(c, SetMsg(st, n, m').(s := st.s.(ring := ring)))
  {
    var m := MsgOf(st, n);
    CtrlIsNear(c, st, n, 0);
    InsertFresh(st.s.ring, st.sendLow, n, HeldCtrl(m.ctrls[0].msg), Buff);
    CtrlHeldOk(c, n, m);
    var (ring, res, stat) := Insert(st.s.ring, n % SEQ_SPAN, HeldCtrl(m.ctrls[0].msg), Buff);
    var m' := m.(ctrls := [m.ctrls[0].(arrived := true)]);
    var st' := SetMsg(st, n, m').(s := st.s.(ring := ring));
    MessagesFrame(c, st, st', n, m');
    SendRingPut(st, st', n, m');
    RecvRingFrame(st, st', n, m');
    SendQueueFrame(st, st', n, m');
    RecvQueueFrame(st, st', n, m');
    assert n !in st.deliveries ==> BufferOk(st.mem, m);
    MemoryFrame(st, st', n, m');
    ReportsFrame(st, st', n, m');
  }

  /** The sender's ring gained exactly the entry of message n. */
  lemma {:induction false} SendRingPut(st: State, st': State, n: nat, m: Msg)
    requires SendRing(st) && st'.msgs == st.msgs[n := m]
    requires st'.sendLow == st.sendLow && st'.sizes == st.sizes && GoodRing(st'.s.ring) && Tracks(st'.s.ring, st.sendLow)
    requires st'.sent == st.sent || (st'.sent == st.sent + 1 && n == st.sent)
    requires forall k :: EntryOfMsg(st'.s.ring, st.sendLow, k)
                      == if k == n then SendEntry(st'.sent, n in st.sizes, n, m) else EntryOfMsg(st.s.ring, st.sendLow, k)
    ensures SendRing(st')
  {
    MsgsAfter(st, st', n, m);
    forall k | k >= st'.sendLow
      ensures EntryOfMsg(st'.s.ring, st'.sendLow, k) == SendEntry(st'.sent, k in st'.sizes, k, MsgOf(st', k))
    {
      var before := MsgOf(st, k);
    }
  }

  lemma {:induction false} RecvRingPut(st: State, st': State, n: nat, m: Msg)
    requires RecvRing(st) && st'.msgs == st.msgs[n := m]
    requires st'.recvLow == st.recvLow && st'.deliveries == st.deliveries && GoodRing(st'.r.ring) && Tracks(st'.r.ring, st.recvLow)
    requires st'.received == st.received || (st'.received == st.received + 1 && n == st.received)
    requires forall k :: EntryOfMsg(st'.r.ring, st.recvLow, k)
                      == if k == n then RecvEntry(st'.received, n in st.deliveries, n, m) else EntryOfMsg(st.r.ring, st.recvLow, k)
    ensures RecvRing(st')
  {
    MsgsAfter(st, st', n, m);
    forall k | k >= st'.recvLow
      ensures EntryOfMsg(st'.r.ring, st'.recvLow, k) == RecvEntry(st'.received, k in st'.deliveries, k, MsgOf(st', k))
    {
      var before := MsgOf(st, k);
    }
  }

  /** The ctrl message of message n meets the send request of message n. */
  lemma {:induction false} CtrlMeetsSend(c: Config, st: State, st1: State, n: nat, accept: nat)
    requires Inv(c, st) && |MsgOf(st, n).ctrls| == 1 && !MsgOf(st, n).ctrls[0].arrived
    requires n < st.sent
    requires st1 == SetMsg(st, n, MsgOf(st, n).(ctrls := [MsgOf(st, n).ctrls[0].(arrived := true)]))
    ensures LiveSend(st1, n)
    ensures Safe(c, CtrlFound(c, st1, n, MsgOf(st, n).ctrls[0].msg, accept))
  {
    hide Messages, SendRing, RecvRing, RecvQueue, Memory, Reports, MsgOk, CtrlToSend, FromRemote, SendWaits;
    var m := MsgOf(st, n);
    var m0 := MsgOf(st1, n);
    MsgHolds(c, st, n);
    CtrlIsNear(c, st, n, 0);
    CtrlToSendOk(c, n, m, st.s.rr, accept);
    var m' := CtrlToSend(c, m0, m.ctrls[0].msg, st.s.rr, accept).0;
    var st' := CtrlFound(c, st1, n, m.ctrls[0].msg, accept).st;
    assert OneMessage(st, st', n, m');
    if m.send.value.eager {
      SendQueueFrame(st, st', n, m');
    } else {
      SendQueuePush(st, st', n, m');
    }
    CtrlMetFrame(c, st, st', n, m');
  }

  lemma {:induction false} CtrlMetFrame(c: Config, st: State, st': State, n: nat, m': Msg)
    requires Inv(c, st) && OneMessage(st, st', n, m') && n < st.sent
    requires st'.s == st.s.(pending := st'.s.pending, rr := st'.s.rr) && st'.s.rr < c.rails
    requires st'.r == st.r && st'.mem == st.mem && SendQueue(st')
    requires var m := MsgOf(st, n);
             && m.send.Some? && m'.send.Some? && |m.ctrls| == 1 && !m.ctrls[0].arrived
             && m' == m.(ctrls := [m.ctrls[0].(arrived := true)], send := m'.send, writes := m'.writes)
             && m'.send.value.data == m.send.value.data && m.writes <= m'.writes
             && (forall i :: |m.writes| <= i < |m'.writes| ==> m'.writes[i].stage == Flying)
    requires MsgOk(c, n, m')
    ensures Inv(c, st')
  {
    hide Messages, SendRing, RecvRing, SendQueue, RecvQueue, Memory, Reports;
    var m := MsgOf(st, n);
    MsgHolds(c, st, n);
    BufferHolds(c, st, n);
    CtrlIsNear(c, st, n, 0);
    MessagesFrame(c, st, st', n, m');
    SendRingFrame(st, st', n, m');
    RecvRingFrame(st, st', n, m');
    RecvQueueFrame(st, st', n, m');
    if n !in st.deliveries {
      BytesOkMore(m.(ctrls := m'.ctrls), m', st.mem[m.recv.value.buf]);
    }
    MemoryFrame(st, st', n, m');
    ReportsFrame(st, st', n, m');
  }

  /** A ctrl message for a message that is not in the sender's window yet. */
  predicate FarCtrl(st: State, n: nat, i: nat)
  {
    i < |MsgOf(st, n).ctrls| && !MsgOf(st, n).ctrls[i].arrived && n >= st.sendLow + SLOTS
  }

  predicate FarEager(st: State, n: nat, i: nat)
  {
    i < |MsgOf(st, n).eagers| && !MsgOf(st, n).eagers[i].arrived && n >= st.recvLow + SLOTS
  }

  lemma {:induction false} CtrlArrivesSafe(c: Config, st: State, n: nat, i: nat, accept: nat)
    requires Inv(c, st)
    ensures if FarCtrl(st, n, i) then CtrlArrives(c, st, n, i, accept).Error? else Safe(c, CtrlArrives(c, st, n, i, accept))
  {
    hide SendQueue, RecvQueue, Memory, Reports, HandleCtrl;
    var m := MsgOf(st, n);
    if i < |m.ctrls| && !m.ctrls[i].arrived {
      CtrlIsNear(c, st, n, i);
      var m0 := m.(ctrls := [m.ctrls[0].(arrived := true)]);
      assert m.ctrls[i := m.ctrls[i].(arrived := true)] == m0.ctrls;
      var st1 := SetMsg(st, n, m0);
      assert CtrlArrives(c, st, n, i, accept) == HandleCtrl(c, st1, m.ctrls[0].msg, accept);
      HandleCtrlSafe(c, st, st1, n, accept);
    }
  }

  lemma {:induction false} HandleCtrlSafe(c: Config, st: State, st1: State, n: nat, accept: nat)
    requires Inv(c, st) && |MsgOf(st, n).ctrls| == 1 && !MsgOf(st, n).ctrls[0].arrived
    requires st1 == SetMsg(st, n, MsgOf(st, n).(ctrls := [MsgOf(st, n).ctrls[0].(arrived := true)]))
    requires MsgOf(st, n).ctrls[0].msg.seqNum == n % SEQ_SPAN
    ensures var o := HandleCtrl(c, st1, MsgOf(st, n).ctrls[0].msg, accept);
            if n >= st.sendLow + SLOTS then o.Error? else Safe(c, o)
  {
    var ctrl := MsgOf(st, n).ctrls[0].msg;
    CtrlIsNear(c, st, n, 0);
    if n >= st.sendLow + SLOTS {
      InsertFar(st.s.ring, st.sendLow, n, HeldCtrl(ctrl), Buff);
    } else if n >= st.sent {
      CtrlHeldSafe(c, st, n);
    } else {
      InsertTaken(st.s.ring, st.sendLow, n, HeldCtrl(ctrl), Buff);
      FindSend(c, st, n);
      CtrlMeetsSend(c, st, st1, n, accept);
    }
  }

  lemma {:induction false} EagerHeldSafe(c: Config, st: State, n: nat)
    requires Inv(c, st) && |MsgOf(st, n).eagers| == 1 && !MsgOf(st, n).eagers[0].arrived
    requires st.received <= n < st.recvLow + SLOTS
    ensures var m := MsgOf(st, n);
            var (ring, res, stat) := Insert(st.r.ring, n % SEQ_SPAN, HeldEager(m.eagers[0].msg), Buff);
            var m' := m.(eagers := [m.eagers[0].(arrived := true)]);
            res == Success && Inv(c, SetMsg(st, n, m').(r := st.r.(ring := ring)))
  {
    var m := MsgOf(st, n);
    EagerIsNear(c, st, n, 0);
    InsertFresh(st.r.ring, st.recvLow, n, HeldEager(m.eagers[0].msg), Buff);
    EagerHeldOk(c, n, m);
    var (ring, res, stat) := Insert(st.r.ring, n % SEQ_SPAN, HeldEager(m.eagers[0].msg), Buff);
    var m' := m.(eagers := [m.eagers[0].(arrived := true)]);
    var st' := SetMsg(st, n, m').(r := st.r.(ring := ring));
    MessagesFrame(c, st, st', n, m');
    SendRingFrame(st, st', n, m');
    RecvRingPut(st, st', n, m');
    SendQueueFrame(st, st', n, m');
    RecvQueueFrame(st, st', n, m');
    MemoryFrame(st, st', n, m');
    ReportsFrame(st, st', n, m');
  }

  lemma {:induction false} EagerMeetsRecv(c: Config, st: State, st1: State, n: nat, accept: bool)
    requires Inv(c, st) && |MsgOf(st, n).eagers| == 1 && !MsgOf(st, n).eagers[0].arrived
    requires n < st.received
    requires st1 == SetMsg(st, n, MsgOf(st, n).(eagers := [MsgOf(st, n).eagers[0].(arrived := true)]))
    ensures LiveRecv(st1, n)
    ensures Safe(c, EagerFound(st1, n, MsgOf(st, n).eagers[0].msg, accept))
  {
    hide Messages, SendRing, RecvRing, SendQueue, RecvQueue, Memory, Reports, MsgOk, EagerToRecv;
    var m := MsgOf(st, n);
    var m0 := MsgOf(st1, n);
    MsgHolds(c, st, n);
    BufferHolds(c, st, n);
    EagerIsNear(c, st, n, 0);
    EagerToRecvOk(c, n, m, accept);
    var m' := EagerToRecv(m0, m.eagers[0].msg, accept).0;
    var st' := EagerFound(st1, n, m.eagers[0].msg, accept).st;
    assert OneMessage(st, st', n, m');
    MessagesFrame(c, st, st', n, m');
    SendRingFrame(st, st', n, m');
    RecvRingFrame(st, st', n, m');
    SendQueueFrame(st, st', n, m');
    RecvQueuePush(st, st', n, m');
    MemoryFrame(st, st', n, m');
    ReportsFrame(st, st', n, m');
  }

  lemma {:induction false} BufferHolds(c: Config, st: State, n: nat)
    requires Inv(c, st)
    ensures n !in st.deliveries ==> BufferOk(st.mem, MsgOf(st, n))
  {
  }

  lemma {:induction false} EagerArrivesSafe(c: Config, st: State, n: nat, i: nat, accept: bool)
    requires Inv(c, st)
    ensures if FarEager(st, n, i) then EagerArrives(c, st, n, i, accept).Error? else Safe(c, EagerArrives(c, st, n, i, accept))
  {
    hide SendQueue, RecvQueue, Memory, Reports, HandleEager;
    var m := MsgOf(st, n);
    if i < |m.eagers| && !m.eagers[i].arrived {
      ImmRoundTrip(c.commId, n % SEQ_SPAN, 1);
      var m0 := m.(eagers := [m.eagers[0].(arrived := true)]);
      assert m.eagers[i := m.eagers[i].(arrived := true)] == m0.eagers;
      var st1 := SetMsg(st, n, m0);
      assert EagerArrives(c, st, n, i, accept) == HandleEager(st1, m.eagers[0].msg, accept);
      HandleEagerSafe(c, st, st1, n, accept);
    }
  }

  lemma {:induction false} HandleEagerSafe(c: Config, st: State, st1: State, n: nat, accept: bool)
    requires Inv(c, st) && |MsgOf(st, n).eagers| == 1 && !MsgOf(st, n).eagers[0].arrived
    requires st1 == SetMsg(st, n, MsgOf(st, n).(eagers := [MsgOf(st, n).eagers[0].(arrived := true)]))
    requires ImmSeq(MsgOf(st, n).eagers[0].msg.imm) == n % SEQ_SPAN
    ensures var o := HandleEager(st1, MsgOf(st, n).eagers[0].msg, accept);
            if n >= st.recvLow + SLOTS then o.Error? else Safe(c, o)
  {
    var e := MsgOf(st, n).eagers[0].msg;
    EagerIsNear(c, st, n, 0);
    if n >= st.recvLow + SLOTS {
      InsertFar(st.r.ring, st.recvLow, n, HeldEager(e), Buff);
    } else if n >= st.received {
      EagerHeldSafe(c, st, n);
    } else {
      InsertTaken(st.r.ring, st.recvLow, n, HeldEager(e), Buff);
      FindRecv(c, st, n);
      EagerMeetsRecv(c, st, st1, n, accept);
    }
  }
}

/** The application's calls (send, recv, test) keep the invariant; they fail outside the window only. */
module TransferCalls {
  import opened Arithmetic
  import opened Collections
  import opened MsgBuff
  import opened MsgLedger
  import opened Scheduler
  import opened Wire
  import opened Transfer
  import opened TransferMsg
  import opened TransferRing
  import opened TransferInv
  import opened TransferSteps

  lemma {:induction false} NextSeqIs(n: nat)
    ensures NextSeq(n % SEQ_SPAN) == (n + 1) % SEQ_SPAN
  {
    ModAddLeft(n, 1, SEQ_SPAN);
  }

  lemma {:induction false} AdvanceBelow(c: Config, rr: nat, q: SendReq)
    requires ValidConfig(c)
    ensures Advance(c, rr, q) < c.rails
  {
  }

  // ---------------------------------------------------------------------------------------------
  // send

  /** What `send` finds: the ctrl message if it has arrived, nothing otherwise. */
  lemma {:induction false} SendLookUp(c: Config, st: State)
    requires Inv(c, st) && st.sent < st.sendLow + SLOTS
    ensures var m := MsgOf(st, st.sent);
            && m.send.None? && Near(st.sendLow, st.sent)
            && LookUpNext(st.s.ring, st.s.nextSeq)
               == if CtrlIn(m) then Held(HeldCtrl(m.ctrls[0].msg)) else Absent
  {
    var m := MsgOf(st, st.sent);
    Lows(c, st);
    RetrieveIs(st.s.ring, st.sendLow, st.sent);
  }

  /** Entering the request in the message buffer succeeds and changes that entry only. */
  lemma {:induction false} SendEnter(c: Config, st: State)
    requires Inv(c, st) && st.sent < st.sendLow + SLOTS
    ensures var n := st.sent;
            var (ring, ok) := Enter(st.s.ring, st.s.nextSeq, ReqOf(n), CtrlIn(MsgOf(st, n)));
            && ok && GoodRing(ring) && Tracks(ring, st.sendLow)
            && (forall k :: EntryOfMsg(ring, st.sendLow, k)
                         == if k == n then Some(Live(Req, ReqOf(n))) else EntryOfMsg(st.s.ring, st.sendLow, k))
  {
    var n := st.sent;
    SendLookUp(c, st);
    if CtrlIn(MsgOf(st, n)) {
      ReplaceHeld(st.s.ring, st.sendLow, n, ReqOf(n), Req);
    } else {
      InsertFresh(st.s.ring, st.sendLow, n, ReqOf(n), Req);
    }
  }

  /** The message after `send`, in the three ways the call can go. */
  lemma {:induction false} SentMsgOk(c: Config, n: nat, m: Msg, data: Bytes, eager: bool, rr: nat, accept: nat)
    requires ValidConfig(c) && rr < c.rails && MsgOk(c, n, m) && m.send.None?
    requires eager ==> !CtrlIn(m) && |data| <= c.eagerMax
    ensures var ctrl := if CtrlIn(m) then Some(m.ctrls[0].msg) else None;
            var (m', blocked) := SentMsg(c, m, n % SEQ_SPAN, data, ctrl, eager, rr, accept);
            && MsgOk(c, n, m') && (blocked <==> SendWaits(m'))
            && m' == m.(send := m'.send, eagers := m'.eagers, writes := m'.writes)
            && m'.send.Some? && m'.send.value.data == data && !m'.send.value.done && !EagerIn(m')
            && (forall i :: 0 <= i < |m'.writes| ==> m'.writes[i].stage == Flying)
  {
    if CtrlIn(m) {
      NewSendWithCtrl(c, n, m, data, rr, accept);
    } else if eager {
      NewSendEager(c, n, m, data, rr, accept);
    } else {
      NewSendWaiting(c, n, m, data, rr);
    }
  }

  /** Everything but the sender's own ring and queue, for a state in which message `st.sent` was sent. */
  lemma {:induction false} SentFrame(c: Config, st: State, st': State, m: Msg)
    requires Inv(c, st) && st'.msgs == st.msgs[st.sent := m] && st'.sent == st.sent + 1
    requires st'.r == st.r && st'.mem == st.mem && st'.received == st.received
    requires st'.sendLow == st.sendLow && st'.recvLow == st.recvLow
    requires st'.sizes == st.sizes && st'.deliveries == st.deliveries && st'.rooms == st.rooms
    requires m.send.Some? && st'.outbox == st.outbox + [m.send.value.data]
    requires MsgOk(c, st.sent, m) && m.send.Some? && !m.send.value.done && !EagerIn(m)
    requires m == MsgOf(st, st.sent).(send := m.send, eagers := m.eagers, writes := m.writes)
    requires forall i :: 0 <= i < |m.writes| ==> m.writes[i].stage == Flying
    ensures Messages(c, st') && RecvRing(st') && RecvQueue(st') && Memory(st') && Reports(st')
  {
    var n := st.sent;
    MsgsAfter(st, st', n, m);
    forall k: nat ensures MsgOk(c, k, MsgOf(st', k)) && Life(st', k, MsgOf(st', k)) {
      var before := MsgOf(st, k);
    }
    SentReceiver(c, st, st', m);
    SentMemory(c, st, st', m);
    SentReports(st, st', m);
  }

  lemma {:induction false} SentReports(st: State, st': State, m: Msg)
    requires Reports(st) && |st.outbox| == st.sent && st'.msgs == st.msgs[st.sent := m]
    requires st'.sizes == st.sizes && st'.deliveries == st.deliveries && st'.rooms == st.rooms
    requires m.send.Some? && st'.outbox == st.outbox + [m.send.value.data]
    requires SameCalls(MsgOf(st, st.sent), m)
    ensures Reports(st')
  {
    MsgsAfter(st, st', st.sent, m);
    forall k | 0 <= k < |st'.outbox|
      ensures MsgOf(st', k).send.Some? && MsgOf(st', k).send.value.data == st'.outbox[k]
    {
      var before := MsgOf(st, k);
    }
    forall k | 0 <= k < |st'.rooms|
      ensures MsgOf(st', k).recv.Some? && MsgOf(st', k).recv.value.dstLen == st'.rooms[k]
    {
      var before := MsgOf(st, k);
    }
  }

  lemma {:induction false} SentReceiver(c: Config, st: State, st': State, m: Msg)
    requires Inv(c, st) && st'.msgs == st.msgs[st.sent := m]
    requires st'.r == st.r && st'.received == st.received && st'.recvLow == st.recvLow && st'.deliveries == st.deliveries
    requires !EagerIn(m)
    requires m == MsgOf(st, st.sent).(send := m.send, eagers := m.eagers, writes := m.writes)
    ensures RecvRing(st') && RecvQueue(st')
  {
    MsgsAfter(st, st', st.sent, m);
    assert MsgOf(st, st.sent).eagers == [];
    forall k | k >= st'.recvLow
      ensures EntryOfMsg(st'.r.ring, st'.recvLow, k) == RecvEntry(st'.received, k in st'.deliveries, k, MsgOf(st', k))
    {
      var before := MsgOf(st, k);
    }
    RecvQueueFrame(st, st', st.sent, m);
  }

  lemma {:induction false} SentMemory(c: Config, st: State, st': State, m: Msg)
    requires Inv(c, st) && st'.msgs == st.msgs[st.sent := m]
    requires st'.mem == st.mem && st'.deliveries == st.deliveries
    requires m == MsgOf(st, st.sent).(send := m.send, eagers := m.eagers, writes := m.writes)
    requires forall i :: 0 <= i < |m.writes| ==> m.writes[i].stage == Flying
    ensures Memory(st')
  {
    MsgsAfter(st, st', st.sent, m);
    assert MsgOf(st, st.sent).send.None?;
    assert MsgOf(st, st.sent).copies == [];
    forall k: nat | k !in st'.deliveries ensures BufferOk(st'.mem, MsgOf(st', k)) {
      assert BufferOk(st.mem, MsgOf(st, k));
    }
    forall k: nat, j: nat | k !in st'.deliveries && j !in st'.deliveries && k != j
      ensures Apart(MsgOf(st', k), MsgOf(st', j))
    {
      assert Apart(MsgOf(st, k), MsgOf(st, j));
    }
  }

  /** A call that is accepted although the oldest request is 256 messages back. */
  predicate FarSend(st: State)
  {
    st.s.inflight != MAX_REQUESTS && st.s.pending == [] && st.sent >= st.sendLow + SLOTS
  }

  lemma {:induction false} SendFar(c: Config, st: State, data: Bytes, accept: nat)
    requires Inv(c, st) && FarSend(st)
    ensures DoSend(c, st, data, accept).Error?
  {
    hide SendQueue, RecvQueue, Memory, Reports, Messages, RecvRing, Insert, Retrieve, SentMsg;
    InvWellFormed(c, st);
    InsertFar(st.s.ring, st.sendLow, st.sent, ReqOf(st.sent), Req);
    assert LookUpNext(st.s.ring, st.s.nextSeq) == Absent;
  }

  lemma {:induction false} SendSafe(c: Config, st: State, data: Bytes, accept: nat)
    requires Inv(c, st)
    ensures if FarSend(st) then DoSend(c, st, data, accept).Error? else Safe(c, DoSend(c, st, data, accept))
  {
    if FarSend(st) {
      SendFar(c, st, data, accept);
    } else if st.s.inflight != MAX_REQUESTS && st.s.pending == [] {
      var m := MsgOf(st, st.sent);
      SendLookUp(c, st);
      var ctrl := if CtrlIn(m) then Some(m.ctrls[0].msg) else None;
      assert DoSend(c, st, data, accept) == SendWith(c, st, data, ctrl, accept);
      SendWithSafe(c, st, data, accept);
    }
  }

  lemma {:induction false} SendWithSafe(c: Config, st: State, data: Bytes, accept: nat)
    requires Inv(c, st) && st.s.inflight < MAX_REQUESTS && st.s.pending == [] && st.sent < st.sendLow + SLOTS
    ensures var m := MsgOf(st, st.sent);
            Safe(c, SendWith(c, st, data, if CtrlIn(m) then Some(m.ctrls[0].msg) else None, accept))
  {
    hide Messages, SendRing, RecvRing, SendQueue, RecvQueue, Memory, Reports, MsgOk, Enter, SentMsg, NewSend, SendWaits,
      Tracks, EntryOfMsg, Advance, PushIf, Counters, NextSeq;
    var n := st.sent;
    var m := MsgOf(st, n);
    var ctrl := if CtrlIn(m) then Some(m.ctrls[0].msg) else None;
    var eager := ctrl.None? && |data| <= c.eagerMax && st.s.inflightWrites == 0;
    Numbering(c, st);
    SendLookUp(c, st);
    MsgHolds(c, st, n);
    InvWellFormed(c, st);
    SendEnter(c, st);
    SentMsgOk(c, n, m, data, eager, st.s.rr, accept);
    AdvanceBelow(c, st.s.rr, NewSend(c, st.s.nextSeq, data, ctrl, eager, st.s.rr));
    SentSafe(c, st, SendWith(c, st, data, ctrl, accept).st, SentMsg(c, m, n % SEQ_SPAN, data, ctrl, eager, st.s.rr, accept).0);
  }

  lemma {:induction false} SentSafe(c: Config, st: State, st': State, m: Msg)
    requires Inv(c, st) && st.s.inflight < MAX_REQUESTS && st.s.pending == [] && st.sent < st.sendLow + SLOTS
    requires MsgOk(c, st.sent, m) && m.send.Some? && !m.send.value.done && !EagerIn(m)
    requires m == MsgOf(st, st.sent).(send := m.send, eagers := m.eagers, writes := m.writes)
    requires forall i :: 0 <= i < |m.writes| ==> m.writes[i].stage == Flying
    requires st' == SetMsg(st, st.sent, m).(s := st'.s, sent := st.sent + 1, outbox := st.outbox + [m.send.value.data])
    requires st'.s.inflight == st.s.inflight + 1 && st'.s.nextSeq == NextSeq(st.s.nextSeq) && st'.s.rr < c.rails
    requires st'.s.pending == PushIf(st.s.pending, st.sent, SendWaits(m))
    requires GoodRing(st'.s.ring) && Tracks(st'.s.ring, st.sendLow)
    requires forall k :: EntryOfMsg(st'.s.ring, st.sendLow, k)
               == if k == st.sent then Some(Live(Req, ReqOf(k))) else EntryOfMsg(st.s.ring, st.sendLow, k)
    ensures Inv(c, st')
  {
    hide Messages, SendRing, RecvRing, SendQueue, RecvQueue, Memory, Reports, MsgOk, SendWaits, Tracks, EntryOfMsg, PushIf,
      Counters, NextSeq;
    SendLookUp(c, st);
    NotReceivedYet(c, st);
    SentCounters(c, st, st');
    SentFrame(c, st, st', m);
    SendRingPut(st, st', st.sent, m);
    NotSentNotWaiting(MsgOf(st, st.sent));
    SendQueuePush(st, st', st.sent, m);
  }

  lemma {:induction false} NotSentNotWaiting(m: Msg)
    requires m.send.None?
    ensures !SendWaits(m)
  {
  }

  // ---------------------------------------------------------------------------------------------
  // recv

  lemma {:induction false} RecvLookUp(c: Config, st: State)
    requires Inv(c, st) && st.received < st.recvLow + SLOTS
    ensures var m := MsgOf(st, st.received);
            && m.recv.None? && Near(st.recvLow, st.received)
            && LookUpNext(st.r.ring, st.r.nextSeq)
               == if EagerIn(m) then Held(HeldEager(m.eagers[0].msg)) else Absent
  {
    var m := MsgOf(st, st.received);
    Lows(c, st);
    RetrieveIs(st.r.ring, st.recvLow, st.received);
  }

  lemma {:induction false} RecvEnter(c: Config, st: State)
    requires Inv(c, st) && st.received < st.recvLow + SLOTS
    ensures var n := st.received;
            var (ring, ok) := Enter(st.r.ring, st.r.nextSeq, ReqOf(n), EagerIn(MsgOf(st, n)));
            && ok && GoodRing(ring) && Tracks(ring, st.recvLow)
            && (forall k :: EntryOfMsg(ring, st.recvLow, k)
                         == if k == n then Some(Live(Req, ReqOf(n))) else EntryOfMsg(st.r.ring, st.recvLow, k))
  {
    var n := st.received;
    RecvLookUp(c, st);
    if EagerIn(MsgOf(st, n)) {
      ReplaceHeld(st.r.ring, st.recvLow, n, ReqOf(n), Req);
    } else {
      InsertFresh(st.r.ring, st.recvLow, n, ReqOf(n), Req);
    }
  }

  /** Everything but the receiver's own ring and queue, for a state in which message `st.received` was posted. */
  lemma {:induction false} ReceivedFrame(c: Config, st: State, st': State, m: Msg)
    requires Inv(c, st) && st'.msgs == st.msgs[st.received := m] && st'.received == st.received + 1
    requires st'.s == st.s && st'.mem == st.mem && st'.sent == st.sent
    requires st'.sendLow == st.sendLow && st'.recvLow == st.recvLow
    requires st'.sizes == st.sizes && st'.deliveries == st.deliveries && st'.outbox == st.outbox
    requires m.recv.Some? && st'.rooms == st.rooms + [m.recv.value.dstLen]
    requires MsgOk(c, st.received, m) && m.recv.Some? && !CtrlIn(m)
    requires m == MsgOf(st, st.received).(recv := m.recv, ctrls := m.ctrls, copies := m.copies)
    requires forall i :: 0 <= i < |m.copies| ==> !m.copies[i].finished
    requires BufferFree(st, m.recv.value.buf, m.recv.value.dstLen)
    ensures Messages(c, st') && SendRing(st') && SendQueue(st') && Memory(st') && Reports(st')
  {
    var n := st.received;
    MsgsAfter(st, st', n, m);
    forall k: nat ensures MsgOk(c, k, MsgOf(st', k)) && Life(st', k, MsgOf(st', k)) {
      var before := MsgOf(st, k);
    }
    ReceivedSender(c, st, st', m);
    ReceivedMemory(c, st, st', m);
    ReceivedReports(st, st', m);
  }

  lemma {:induction false} ReceivedReports(st: State, st': State, m: Msg)
    requires Reports(st) && |st.rooms| == st.received && st'.msgs == st.msgs[st.received := m]
    requires st'.sizes == st.sizes && st'.deliveries == st.deliveries && st'.outbox == st.outbox
    requires m.recv.Some? && st'.rooms == st.rooms + [m.recv.value.dstLen]
    requires SameCalls(MsgOf(st, st.received), m)
    ensures Reports(st')
  {
    MsgsAfter(st, st', st.received, m);
    forall k | 0 <= k < |st'.outbox|
      ensures MsgOf(st', k).send.Some? && MsgOf(st', k).send.value.data == st'.outbox[k]
    {
      var before := MsgOf(st, k);
    }
    forall k | 0 <= k < |st'.rooms|
      ensures MsgOf(st', k).recv.Some? && MsgOf(st', k).recv.value.dstLen == st'.rooms[k]
    {
      var before := MsgOf(st, k);
    }
  }

  lemma {:induction false} ReceivedSender(c: Config, st: State, st': State, m: Msg)
    requires Inv(c, st) && st'.msgs == st.msgs[st.received := m]
    requires st'.s == st.s && st'.sent == st.sent && st'.sendLow == st.sendLow && st'.sizes == st.sizes
    requires !CtrlIn(m)
    requires m == MsgOf(st, st.received).(recv := m.recv, ctrls := m.ctrls, copies := m.copies)
    ensures SendRing(st') && SendQueue(st')
  {
    MsgsAfter(st, st', st.received, m);
    assert MsgOf(st, st.received).ctrls == [];
    forall k | k >= st'.sendLow
      ensures EntryOfMsg(st'.s.ring, st'.sendLow, k) == SendEntry(st'.sent, k in st'.sizes, k, MsgOf(st', k))
    {
      var before := MsgOf(st, k);
    }
    SendQueueFrame(st, st', st.received, m);
  }

  lemma {:induction false} ReceivedMemory(c: Config, st: State, st': State, m: Msg)
    requires Inv(c, st) && st'.msgs == st.msgs[st.received := m]
    requires st'.mem == st.mem && st'.deliveries == st.deliveries
    requires MsgOk(c, st.received, m) && m.recv.Some? && !CtrlIn(m)
    requires m == MsgOf(st, st.received).(recv := m.recv, ctrls := m.ctrls, copies := m.copies)
    requires forall i :: 0 <= i < |m.copies| ==> !m.copies[i].finished
    requires BufferFree(st, m.recv.value.buf, m.recv.value.dstLen)
    ensures Memory(st')
  {
    MsgsAfter(st, st', st.received, m);
    assert m.writes == [];
    forall k: nat | k !in st'.deliveries ensures BufferOk(st'.mem, MsgOf(st', k)) {
      assert k != st.received ==> BufferOk(st.mem, MsgOf(st, k));
    }
    forall k: nat, j: nat | k !in st'.deliveries && j !in st'.deliveries && k != j
      ensures Apart(MsgOf(st', k), MsgOf(st', j))
    {
      assert Apart(MsgOf(st, k), MsgOf(st, j));
    }
  }

  /** The receiver's queue after a call that may queue the ctrl message and the eager copy. */
  lemma {:induction false} ReceivedQueue(c: Config, st: State, st': State, m: Msg)
    requires Inv(c, st) && st.r.pending == [] && st'.msgs == st.msgs[st.received := m]
    requires st'.r.pending
          == PushIf(PushIf([], CtrlPost(st.received), CtrlWaits(m)), CopyPost(st.received), CopyWaits(m))
    ensures RecvQueue(st')
  {
    MsgsAfter(st, st', st.received, m);
    forall k: nat
      ensures CtrlPost(k) in st'.r.pending <==> CtrlWaits(MsgOf(st', k))
      ensures CopyPost(k) in st'.r.pending <==> CopyWaits(MsgOf(st', k))
    {
      var before := MsgOf(st, k);
      assert CtrlPost(k) !in st.r.pending && CopyPost(k) !in st.r.pending;
    }
  }

  predicate FarRecv(st: State, buf: nat, len: nat)
  {
    && st.r.inflight != MAX_REQUESTS && st.r.pending == [] && BufferFree(st, Destination(buf, len), len)
    && st.received >= st.recvLow + SLOTS
  }

  lemma {:induction false} RecvFar(c: Config, st: State, buf: nat, len: nat, acceptCtrl: bool, acceptCopy: bool)
    requires Inv(c, st) && FarRecv(st, buf, len)
    ensures DoRecv(st, buf, len, acceptCtrl, acceptCopy).Error?
  {
    hide SendQueue, RecvQueue, Memory, Reports, Messages, SendRing, Insert, Retrieve, ReceivedMsg, BufferFree;
    InvWellFormed(c, st);
    InsertFar(st.r.ring, st.recvLow, st.received, ReqOf(st.received), Req);
    assert LookUpNext(st.r.ring, st.r.nextSeq) == Absent;
  }

  lemma {:induction false} RecvSafe(c: Config, st: State, buf: nat, len: nat, acceptCtrl: bool, acceptCopy: bool)
    requires Inv(c, st)
    ensures var o := DoRecv(st, buf, len, acceptCtrl, acceptCopy);
            if FarRecv(st, buf, len) then o.Error? else Safe(c, o)
  {
    var dest := Destination(buf, len);
    if FarRecv(st, buf, len) {
      RecvFar(c, st, buf, len, acceptCtrl, acceptCopy);
    } else if st.r.inflight != MAX_REQUESTS && st.r.pending == [] && BufferFree(st, dest, len) {
      var m := MsgOf(st, st.received);
      RecvLookUp(c, st);
      var held := if EagerIn(m) then Some(m.eagers[0].msg) else None;
      assert DoRecv(st, buf, len, acceptCtrl, acceptCopy) == RecvWith(st, dest, len, held, acceptCtrl, acceptCopy);
      RecvWithSafe(c, st, dest, len, acceptCtrl, acceptCopy);
    }
  }

  lemma {:induction false} RecvWithSafe(c: Config, st: State, dest: nat, len: nat, acceptCtrl: bool, acceptCopy: bool)
    requires Inv(c, st) && st.r.inflight < MAX_REQUESTS && st.r.pending == [] && BufferFree(st, dest, len)
    requires st.received < st.recvLow + SLOTS
    ensures var m := MsgOf(st, st.received);
            var held := if EagerIn(m) then Some(m.eagers[0].msg) else None;
            Safe(c, RecvWith(st, dest, len, held, acceptCtrl, acceptCopy))
  {
    hide Messages, SendRing, RecvRing, SendQueue, RecvQueue, Memory, Reports, MsgOk, Enter, ReceivedMsg, BufferFree,
      Tracks, EntryOfMsg, PushIf, Counters, NextSeq, CtrlWaits, CopyWaits;
    var n := st.received;
    var m := MsgOf(st, n);
    var held := if EagerIn(m) then Some(m.eagers[0].msg) else None;
    Numbering(c, st);
    RecvLookUp(c, st);
    MsgHolds(c, st, n);
    InvWellFormed(c, st);
    RecvEnter(c, st);
    NewRecvOk(c, n, m, dest, len, acceptCtrl, acceptCopy);
    ReceivedSafe(c, st, RecvWith(st, dest, len, held, acceptCtrl, acceptCopy).st,
                 ReceivedMsg(m, n % SEQ_SPAN, dest, len, held, acceptCtrl, acceptCopy).0);
  }

  lemma {:induction false} ReceivedSafe(c: Config, st: State, st': State, m: Msg)
    requires Inv(c, st) && st.r.inflight < MAX_REQUESTS && st.r.pending == [] && st.received < st.recvLow + SLOTS
    requires MsgOk(c, st.received, m) && m.recv.Some? && !CtrlIn(m)
    requires m == MsgOf(st, st.received).(recv := m.recv, ctrls := m.ctrls, copies := m.copies)
    requires forall i :: 0 <= i < |m.copies| ==> !m.copies[i].finished
    requires BufferFree(st, m.recv.value.buf, m.recv.value.dstLen)
    requires st' == SetMsg(st, st.received, m).(
               r := st'.r, received := st.received + 1, rooms := st.rooms + [m.recv.value.dstLen])
    requires st'.r.inflight == st.r.inflight + 1 && st'.r.nextSeq == NextSeq(st.r.nextSeq)
    requires st'.r.pending
          == PushIf(PushIf([], CtrlPost(st.received), CtrlWaits(m)), CopyPost(st.received), CopyWaits(m))
    requires GoodRing(st'.r.ring) && Tracks(st'.r.ring, st.recvLow)
    requires forall k :: EntryOfMsg(st'.r.ring, st.recvLow, k)
               == if k == st.received then Some(Live(Req, ReqOf(k))) else EntryOfMsg(st.r.ring, st.recvLow, k)
    ensures Inv(c, st')
  {
    hide Messages, SendRing, RecvRing, SendQueue, RecvQueue, Memory, Reports, MsgOk, BufferFree, Tracks, EntryOfMsg, PushIf,
      Counters, NextSeq, CtrlWaits, CopyWaits;
    RecvLookUp(c, st);
    NotReceivedYet(c, st);
    ReceivedCounters(c, st, st');
    ReceivedFrame(c, st, st', m);
    RecvRingPut(st, st', st.received, m);
    ReceivedQueue(c, st, st', m);
  }

  lemma {:induction false} NotReceivedYet(c: Config, st: State)
    requires Inv(c, st)
    ensures st.received !in st.deliveries && st.sent !in st.sizes
  {
    HandedBack(c, st);
  }

  // ---------------------------------------------------------------------------------------------
  // test

  /** The requests of a side that are handed back, with one more, fit below its next number. */
  lemma {:induction false} Room(back: set<nat>, n: nat, bound: nat)
    requires n !in back && n < bound && forall k :: k in back ==> k < bound
    ensures |back| < bound && |back + {n}| == |back| + 1
  {
    SubsetSize(back + {n}, Below(bound));
  }

  function Below(bound: nat): (all: set<nat>)
    ensures forall k: nat :: k in all <==> k < bound
    ensures |all| == bound
  {
    if bound == 0 then {} else Below(bound - 1) + {bound - 1}
  }

  lemma {:induction false} SubsetSize(a: set<nat>, b: set<nat>)
    requires a <= b
    ensures |a| <= |b|
  {
    if x :| x in a {
      SubsetSize(a - {x}, b - {x});
    }
  }

  /** After one more request is handed back, the oldest one left. */
  lemma {:induction false} SkipIsLow(low: nat, back: set<nat>, n: nat)
    requires LowOf(low, back)
    ensures LowOf(Skip(low, back + {n}), back + {n}) && low <= Skip(low, back + {n})
  {
    var low' := Skip(low, back + {n});
    forall k | 0 <= k < low' ensures k in back + {n} {
      if k >= low {
        SkipPasses(low, back + {n}, k);
      }
    }
  }

  /** A completed send knows the receiver's length and reports the smaller one. */
  lemma {:induction false} SendDone(c: Config, st: State, n: nat)
    requires Inv(c, st) && MsgOf(st, n).send.Some? && MsgOf(st, n).send.value.done
    ensures n < st.sent && n < st.received && MsgOf(st, n).recv.Some?
    ensures MsgOf(st, n).send.value.size == Common(MsgOf(st, n))
  {
  }

  /** Handing back message n at the sender marks its entry and moves the window as far as it goes. */
  lemma {:induction false} SendCompletes(c: Config, st: State, n: nat)
    requires Inv(c, st) && n !in st.sizes && n < st.sent
    ensures var (ring, res, stat) := Complete(st.s.ring, n % SEQ_SPAN);
            res == Success && Marked(st.s.ring, st.sendLow, ring, Skip(st.sendLow, st.sizes.Keys + {n}), n)
  {
    hide SendQueue, RecvQueue, RecvRing, Memory, Reports, Messages;
    LiveIsNear(c, st, n);
    var m := MsgOf(st, n);
    forall k | k >= st.sendLow
      ensures k in st.sizes.Keys + {n} <==> k == n || EntryOfMsg(st.s.ring, st.sendLow, k) == Some(Done)
    {
      var mk := MsgOf(st, k);
    }
    CompleteAny(st.s.ring, st.sendLow, n, st.sizes.Keys + {n});
  }

  lemma {:induction false} RetireSendSafe(c: Config, st: State, n: nat)
    requires Inv(c, st)
    ensures Safe(c, TestSend(st, n))
  {
    hide Inv, MsgOk, Complete, Skip, Marked;
    var m := MsgOf(st, n);
    if n !in st.sizes && m.send.Some? && m.send.value.done {
      SendDone(c, st, n);
      SendCompletes(c, st, n);
      InvWellFormed(c, st);
      MsgHolds(c, st, n);
      NumberedRight(c, n, m);
      HandedBack(c, st);
      Inflight(c, st);
      Room(st.sizes.Keys, n, st.sent);
      var sizes := st.sizes[n := m.send.value.size];
      assert sizes.Keys == st.sizes.Keys + {n};
      RetiredSendFrame(c, st, TestSend(st, n).st, n);
    }
  }

  lemma {:induction false} Inflight(c: Config, st: State)
    requires Inv(c, st)
    ensures st.s.inflight == st.sent - |st.sizes.Keys| && st.r.inflight == st.received - |st.deliveries.Keys|
  {
  }

  /** Only requests that exist are handed back. */
  lemma {:induction false} HandedBack(c: Config, st: State)
    requires Inv(c, st)
    ensures forall k :: k in st.sizes.Keys ==> k < st.sent
    ensures forall k :: k in st.deliveries.Keys ==> k < st.received
  {
    hide SendQueue, RecvQueue, SendRing, RecvRing, Memory, Reports, MsgOk;
    forall k | k in st.sizes.Keys ensures k < st.sent {
      MsgHolds(c, st, k);
    }
    forall k | k in st.deliveries.Keys ensures k < st.received {
      MsgHolds(c, st, k);
    }
  }

  lemma {:induction false} RetiredSendFrame(c: Config, st: State, st': State, n: nat)
    requires Inv(c, st) && n !in st.sizes && MsgOf(st, n).send.Some? && MsgOf(st, n).send.value.done
    requires st' == st.(s := st'.s, sendLow := Skip(st.sendLow, st.sizes.Keys + {n}),
                        sizes := st.sizes[n := MsgOf(st, n).send.value.size])
    requires st.s.inflight > 0 && |st.sizes.Keys + {n}| == |st.sizes.Keys| + 1
    requires st'.s == st.s.(ring := st'.s.ring, inflight := st.s.inflight - 1, inflightWrites := st'.s.inflightWrites)
    requires Marked(st.s.ring, st.sendLow, st'.s.ring, st'.sendLow, n)
    ensures Inv(c, st')
  {
    hide SendQueue, RecvQueue, RecvRing, SendRing, Memory, MsgOk, Skip, Messages, Reports, LowOf, Marked;
    SendDone(c, st, n);
    SkipIsLow(st.sendLow, st.sizes.Keys, n);
    assert st'.sizes.Keys == st.sizes.Keys + {n};
    SendRingRetired(st, st', n);
    RetiredMessages(c, st, st', n);
    UnchangedParts(st, st');
    SizeReported(c, st, st', n);
  }

  /** Handing back completed requests changes no message. */
  lemma {:induction false} RetiredMessages(c: Config, st: State, st': State, n: nat)
    requires Messages(c, st) && st'.msgs == st.msgs && st'.sent == st.sent && st'.received == st.received
    requires st'.sizes.Keys <= st.sizes.Keys + {n} && st'.deliveries.Keys <= st.deliveries.Keys + {n}
    requires n in st'.sizes && n !in st.sizes ==> MsgOf(st, n).send.Some? && MsgOf(st, n).send.value.done
    requires n in st'.deliveries && n !in st.deliveries ==> MsgOf(st, n).recv.Some? && MsgOf(st, n).recv.value.done
    ensures Messages(c, st')
  {
    hide MsgOk;
    assert forall k :: MsgOf(st', k) == MsgOf(st, k);
    forall k: nat ensures MsgOk(c, k, MsgOf(st', k)) && Life(st', k, MsgOf(st', k)) {
      var before := MsgOf(st, k);
      assert k in st'.sizes ==> k in st.sizes.Keys + {n};
      assert k in st'.deliveries ==> k in st.deliveries.Keys + {n};
    }
  }

  lemma {:induction false} SizeReported(c: Config, st: State, st': State, n: nat)
    requires Inv(c, st) && MsgOf(st, n).send.Some? && MsgOf(st, n).send.value.done
    requires st'.msgs == st.msgs && st'.outbox == st.outbox && st'.rooms == st.rooms && st'.deliveries == st.deliveries
    requires st'.sizes == st.sizes[n := MsgOf(st, n).send.value.size]
    ensures Reports(st')
  {
    hide SendQueue, RecvQueue, RecvRing, SendRing, Memory, MsgOk, LowOf, Messages;
    SendDone(c, st, n);
    assert forall k :: MsgOf(st', k) == MsgOf(st, k);
    assert st'.sizes[n] == Fitting(st', n);
  }

  lemma {:induction false} DeliveryReported(c: Config, st: State, st': State, n: nat)
    requires Inv(c, st) && n < st.sent && n < st.received && MsgOf(st, n).send.Some? && MsgOf(st, n).recv.Some?
    requires st'.msgs == st.msgs && st'.outbox == st.outbox && st'.rooms == st.rooms && st'.sizes == st.sizes
    requires var m := MsgOf(st, n); st'.deliveries == st.deliveries[n := m.send.value.data[..Common(m)]]
    ensures Reports(st')
  {
    hide SendQueue, RecvQueue, RecvRing, SendRing, Memory, MsgOk, LowOf, Messages;
    assert forall k :: MsgOf(st', k) == MsgOf(st, k);
    assert st'.deliveries[n] == st'.outbox[n][..Fitting(st', n)];
  }

  lemma {:induction false} SendRingRetired(st: State, st': State, n: nat)
    requires SendRing(st) && st'.msgs == st.msgs && st'.sent == st.sent && st'.sendLow >= st.sendLow
    requires st'.sizes.Keys == st.sizes.Keys + {n}
    requires Marked(st.s.ring, st.sendLow, st'.s.ring, st'.sendLow, n)
    ensures SendRing(st')
  {
    assert forall k :: MsgOf(st', k) == MsgOf(st, k);
    forall k | k >= st'.sendLow
      ensures EntryOfMsg(st'.s.ring, st'.sendLow, k) == SendEntry(st'.sent, k in st'.sizes, k, MsgOf(st', k))
    {
      var before := MsgOf(st, k);
      assert k in st'.sizes <==> k in st'.sizes.Keys;
    }
  }

  /** Queues, memory and the receiver's ring read nothing that retiring a send changes. */
  lemma {:induction false} UnchangedParts(st: State, st': State)
    requires SendQueue(st) && RecvQueue(st) && RecvRing(st) && Memory(st)
    requires st'.msgs == st.msgs && st'.mem == st.mem && st'.r == st.r && st'.s.pending == st.s.pending
    requires st'.received == st.received && st'.recvLow == st.recvLow && st'.deliveries == st.deliveries
    ensures SendQueue(st') && RecvQueue(st') && RecvRing(st') && Memory(st')
  {
    assert forall k :: MsgOf(st', k) == MsgOf(st, k);
    UnchangedMemory(st, st');
  }

  lemma {:induction false} UnchangedReports(st: State, st': State)
    requires Reports(st) && SendRing(st) && st'.msgs == st.msgs && st'.outbox == st.outbox && st'.rooms == st.rooms
    requires st'.sizes == st.sizes && st'.deliveries == st.deliveries && st'.sent == st.sent && st'.sendLow == st.sendLow
    requires st'.s.ring == st.s.ring
    ensures Reports(st') && SendRing(st')
  {
    assert forall k :: MsgOf(st', k) == MsgOf(st, k);
  }

  lemma {:induction false} UnchangedSender(st: State, st': State)
    requires SendQueue(st) && RecvQueue(st) && SendRing(st)
    requires st'.msgs == st.msgs && st'.s == st.s && st'.r.pending == st.r.pending
    requires st'.sent == st.sent && st'.sendLow == st.sendLow && st'.sizes == st.sizes
    ensures SendQueue(st') && RecvQueue(st') && SendRing(st')
  {
    assert forall k :: MsgOf(st', k) == MsgOf(st, k);
  }

  lemma {:induction false} UnchangedMemory(st: State, st': State)
    requires Memory(st) && st'.msgs == st.msgs && st'.mem == st.mem && st.deliveries.Keys <= st'.deliveries.Keys
    ensures Memory(st')
  {
    forall k: nat | k !in st'.deliveries ensures BufferOk(st'.mem, MsgOf(st', k)) {
      assert BufferOk(st.mem, MsgOf(st, k));
    }
    forall k: nat, j: nat | k !in st'.deliveries && j !in st'.deliveries && k != j
      ensures Apart(MsgOf(st', k), MsgOf(st', j))
    {
      assert Apart(MsgOf(st, k), MsgOf(st, j));
    }
  }

  /** When a receive completes, the front of its buffer is the front of what was sent. */
  lemma {:induction false} DeliveredBytes(c: Config, n: nat, m: Msg, b: Bytes)
    requires ValidConfig(c) && MsgOk(c, n, m) && m.recv.Some? && m.recv.value.done
    requires m.recv.value.dstLen <= |b| && BytesOk(m, b)
    ensures m.send.Some? && m.recv.value.size == Common(m)
    ensures b[..Common(m)] == m.send.value.data[..Common(m)]
  {
    var data, len := m.send.value.data, Common(m);
    if EagerIn(m) && m.eagers[0].msg.data == [] {
      assert len == 0;
    } else if |m.copies| == 1 && m.copies[0].finished {
      assert RangeIs(b, data, 0, len);
    } else {
      WriteCarries(c, n, m, 0);
      var q := m.send.value;
      forall k | 0 <= k < len ensures b[k] == data[k] {
        var i := ContiguousCovers(q.schedule, 0, len, k);
        WriteCarries(c, n, m, i);
        AllCounted(m.writes, i);
        var w := m.writes[i].msg;
        assert RangeIs(b, data, w.offset, w.offset + |w.data|);
      }
    }
  }

  lemma {:induction false} RecvDone(c: Config, st: State, n: nat)
    requires Inv(c, st) && n !in st.deliveries && MsgOf(st, n).recv.Some? && MsgOf(st, n).recv.value.done
    ensures var m := MsgOf(st, n);
            && n < st.sent && m.send.Some? && m.recv.value.buf in st.mem
            && m.recv.value.size == Common(m) <= |st.mem[m.recv.value.buf]|
            && st.mem[m.recv.value.buf][..Common(m)] == m.send.value.data[..Common(m)]
  {
    var m := MsgOf(st, n);
    assert BufferOk(st.mem, m);
    DeliveredBytes(c, n, m, st.mem[m.recv.value.buf]);
  }

  lemma {:induction false} RecvCompletes(c: Config, st: State, n: nat)
    requires Inv(c, st) && n !in st.deliveries && n < st.received
    ensures var (ring, res, stat) := Complete(st.r.ring, n % SEQ_SPAN);
            res == Success && Marked(st.r.ring, st.recvLow, ring, Skip(st.recvLow, st.deliveries.Keys + {n}), n)
  {
    hide SendQueue, RecvQueue, SendRing, Memory, Reports, Messages;
    LiveIsNear(c, st, n);
    var m := MsgOf(st, n);
    forall k | k >= st.recvLow
      ensures k in st.deliveries.Keys + {n} <==> k == n || EntryOfMsg(st.r.ring, st.recvLow, k) == Some(Done)
    {
      var mk := MsgOf(st, k);
    }
    CompleteAny(st.r.ring, st.recvLow, n, st.deliveries.Keys + {n});
  }

  lemma {:induction false} RetireRecvSafe(c: Config, st: State, n: nat)
    requires Inv(c, st)
    ensures Safe(c, TestRecv(st, n))
  {
    hide Inv, MsgOk, Complete, Skip, Marked;
    var m := MsgOf(st, n);
    if n !in st.deliveries && m.recv.Some? && m.recv.value.done {
      RecvDone(c, st, n);
      MsgHolds(c, st, n);
      NumberedRight(c, n, m);
      RecvCompletes(c, st, n);
      InvWellFormed(c, st);
      HandedBack(c, st);
      Inflight(c, st);
      Room(st.deliveries.Keys, n, st.received);
      var deliveries := st.deliveries[n := m.send.value.data[..Common(m)]];
      assert deliveries.Keys == st.deliveries.Keys + {n};
      RetiredRecvFrame(c, st, TestRecv(st, n).st, n);
    }
  }

  lemma {:induction false} NumberedRight(c: Config, n: nat, m: Msg)
    requires MsgOk(c, n, m)
    ensures m.send.Some? ==> m.send.value.seqNum == n % SEQ_SPAN
    ensures m.recv.Some? ==> m.recv.value.seqNum == n % SEQ_SPAN
  {
  }

  lemma {:induction false} RetiredRecvFrame(c: Config, st: State, st': State, n: nat)
    requires Inv(c, st) && n !in st.deliveries && MsgOf(st, n).recv.Some? && MsgOf(st, n).recv.value.done
    requires var m := MsgOf(st, n);
             m.send.Some?
             && st' == st.(r := st'.r, recvLow := Skip(st.recvLow, st.deliveries.Keys + {n}),
                           deliveries := st.deliveries[n := m.send.value.data[..Common(m)]])
    requires st.r.inflight > 0 && |st.deliveries.Keys + {n}| == |st.deliveries.Keys| + 1
    requires st'.r == st.r.(ring := st'.r.ring, inflight := st.r.inflight - 1)
    requires Marked(st.r.ring, st.recvLow, st'.r.ring, st'.recvLow, n)
    ensures Inv(c, st')
  {
    hide SendQueue, RecvQueue, SendRing, RecvRing, Memory, MsgOk, Skip, Messages, Reports, LowOf, Marked;
    RecvDone(c, st, n);
    MsgHolds(c, st, n);
    SkipIsLow(st.recvLow, st.deliveries.Keys, n);
    assert st'.deliveries.Keys == st.deliveries.Keys + {n};
    RecvRingRetired(st, st', n);
    RetiredMessages(c, st, st', n);
    UnchangedSender(st, st');
    UnchangedMemory(st, st');
    DeliveryReported(c, st, st', n);
  }

  lemma {:induction false} RecvRingRetired(st: State, st': State, n: nat)
    requires RecvRing(st) && st'.msgs == st.msgs && st'.received == st.received && st'.recvLow >= st.recvLow
    requires st'.deliveries.Keys == st.deliveries.Keys + {n}
    requires Marked(st.r.ring, st.recvLow, st'.r.ring, st'.recvLow, n)
    ensures RecvRing(st')
  {
    assert forall k :: MsgOf(st', k) == MsgOf(st, k);
    forall k | k >= st'.recvLow
      ensures EntryOfMsg(st'.r.ring, st'.recvLow, k) == RecvEntry(st'.received, k in st'.deliveries, k, MsgOf(st', k))
    {
      var before := MsgOf(st, k);
      assert k in st'.deliveries <==> k in st'.deliveries.Keys;
    }
  }

  lemma {:induction false} MovedCounters(c: Config, st: State, st': State)
    requires Counters(c, st) && st' == st.(s := st.s.(rr := st'.s.rr)) && st'.s.rr < c.rails
    ensures Counters(c, st')
  {
    hide LowOf;
  }

  lemma {:induction false} SentCounters(c: Config, st: State, st': State)
    requires Counters(c, st) && st.s.inflight < MAX_REQUESTS && st.sent < st.sendLow + SLOTS
    requires st' == st.(s := st'.s, msgs := st'.msgs, sent := st.sent + 1, outbox := st'.outbox)
    requires |st'.outbox| == |st.outbox| + 1 && st'.s.inflight == st.s.inflight + 1 && st'.s.rr < c.rails
    requires st'.s.nextSeq == NextSeq(st.s.nextSeq)
    ensures Counters(c, st')
  {
    hide LowOf;
    NextSeqIs(st.sent);
  }

  lemma {:induction false} ReceivedCounters(c: Config, st: State, st': State)
    requires Counters(c, st) && st.r.inflight < MAX_REQUESTS && st.received < st.recvLow + SLOTS
    requires st' == st.(r := st'.r, msgs := st'.msgs, received := st.received + 1, rooms := st'.rooms)
    requires |st'.rooms| == |st.rooms| + 1 && st'.r.inflight == st.r.inflight + 1
    requires st'.r.nextSeq == NextSeq(st.r.nextSeq)
    ensures Counters(c, st')
  {
    hide LowOf;
    NextSeqIs(st.received);
  }

  lemma {:induction false} Numbering(c: Config, st: State)
    requires Counters(c, st)
    ensures ValidConfig(c) && st.s.rr < c.rails
    ensures st.s.nextSeq == st.sent % SEQ_SPAN && st.r.nextSeq == st.received % SEQ_SPAN
  {
    hide LowOf;
  }

  /** Only the choice of rails depends on the round-robin counter. */
  lemma {:induction false} MoveCounterSafe(c: Config, st: State, rr: nat)
    requires Inv(c, st)
    ensures Safe(c, MoveCounter(c, st, rr))
  {
    hide SendQueue, RecvQueue, RecvRing, SendRing, Memory, MsgOk, Messages, Reports, Counters;
    if rr < c.rails {
      var st' := MoveCounter(c, st, rr).st;
      UnchangedParts(st, st');
      RetiredMessages(c, st, st', st.sent);
      UnchangedReports(st, st');
      MovedCounters(c, st, st');
    }
  }
}

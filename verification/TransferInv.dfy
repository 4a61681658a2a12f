/** The invariant of the protocol and the frames its actions leave alone. */
module TransferInv {
  import opened Arithmetic
  import opened Collections
  import opened MsgBuff
  import opened MsgLedger
  import opened Scheduler
  import opened Wire
  import opened Transfer
  import opened TransferMsg
  import opened TransferRing

  // ---------------------------------------------------------------------------------------------
  // Parts

  /** The oldest message that is not handed back. */
  predicate LowOf(low: nat, back: set<nat>)
  {
    low !in back && forall k :: 0 <= k < low ==> k in back
  }

  /** Counters and windows: a side's calls stay within 256 of its oldest request. */
  predicate Counters(c: Config, st: State)
  {
    && ValidConfig(c) && st.s.rr < c.rails
    && st.sent <= st.sendLow + SLOTS && st.received <= st.recvLow + SLOTS
    && LowOf(st.sendLow, st.sizes.Keys) && LowOf(st.recvLow, st.deliveries.Keys)
    && st.s.inflight == st.sent - |st.sizes.Keys| && st.r.inflight == st.received - |st.deliveries.Keys|
    && st.s.inflight <= MAX_REQUESTS && st.r.inflight <= MAX_REQUESTS
    && st.s.nextSeq == st.sent % SEQ_SPAN && st.r.nextSeq == st.received % SEQ_SPAN
    && |st.outbox| == st.sent && |st.rooms| == st.received
  }

  /** Requests exist exactly for the calls made, and only completed ones have been handed back. */
  predicate Life(st: State, n: nat, m: Msg)
  {
    && (m.send.Some? <==> n < st.sent) && (m.recv.Some? <==> n < st.received)
    && (n in st.sizes ==> m.send.Some? && m.send.value.done)
    && (n in st.deliveries ==> m.recv.Some? && m.recv.value.done)
  }

  ghost predicate Messages(c: Config, st: State)
  {
    forall n {:trigger MsgOf(st, n)} :: n >= 0 ==> MsgOk(c, n, MsgOf(st, n)) && Life(st, n, MsgOf(st, n))
  }

  ghost function SendEntry(sent: nat, back: bool, n: nat, m: Msg): Option<Entry<Elem>>
  {
    if back then Some(Done)
    else if n < sent then Some(Live(Req, ReqOf(n)))
    else if CtrlIn(m) then Some(Live(Buff, HeldCtrl(m.ctrls[0].msg)))
    else None
  }

  ghost function RecvEntry(received: nat, back: bool, n: nat, m: Msg): Option<Entry<Elem>>
  {
    if back then Some(Done)
    else if n < received then Some(Live(Req, ReqOf(n)))
    else if EagerIn(m) then Some(Live(Buff, HeldEager(m.eagers[0].msg)))
    else None
  }

  /**
   Each message buffer holds the request of every live message, every early peer message, and a mark
   for every request handed back before an older one.
   */
  ghost predicate SendRing(st: State)
  {
    && GoodRing(st.s.ring) && Tracks(st.s.ring, st.sendLow)
    && forall n {:trigger MsgOf(st, n)} :: n >= st.sendLow ==>
         EntryOfMsg(st.s.ring, st.sendLow, n) == SendEntry(st.sent, n in st.sizes, n, MsgOf(st, n))
  }

  ghost predicate RecvRing(st: State)
  {
    && GoodRing(st.r.ring) && Tracks(st.r.ring, st.recvLow)
    && forall n {:trigger MsgOf(st, n)} :: n >= st.recvLow ==>
         EntryOfMsg(st.r.ring, st.recvLow, n) == RecvEntry(st.received, n in st.deliveries, n, MsgOf(st, n))
  }

  /** The pending queues hold, once each, exactly the requests with something left to post. */
  ghost predicate SendQueue(st: State)
  {
    NoDup(st.s.pending)
    && forall n {:trigger MsgOf(st, n)} :: n >= 0 ==> (n in st.s.pending <==> SendWaits(MsgOf(st, n)))
  }

  ghost predicate RecvQueue(st: State)
  {
    NoDup(st.r.pending)
    && forall n {:trigger MsgOf(st, n)} :: n >= 0 ==>
         && (CtrlPost(n) in st.r.pending <==> CtrlWaits(MsgOf(st, n)))
         && (CopyPost(n) in st.r.pending <==> CopyWaits(MsgOf(st, n)))
  }

  predicate RangeIs(b: Bytes, data: Bytes, from: nat, to: nat)
  {
    to <= |b| && to <= |data| && forall k :: from <= k < to ==> b[k] == data[k]
  }

  /** The bytes already placed for a message are the sender's bytes. */
  predicate BytesOk(m: Msg, b: Bytes)
  {
    m.send.Some? && m.recv.Some? ==>
      && (forall i :: 0 <= i < |m.writes| && m.writes[i].stage != Flying ==>
            RangeIs(b, m.send.value.data, m.writes[i].msg.offset, m.writes[i].msg.offset + |m.writes[i].msg.data|))
      && (forall i :: 0 <= i < |m.copies| && m.copies[i].finished ==> RangeIs(b, m.send.value.data, 0, Common(m)))
  }

  predicate BufferOk(mem: map<nat, Bytes>, m: Msg)
  {
    m.recv.Some? ==> var p := m.recv.value; p.buf in mem && p.dstLen <= |mem[p.buf]| && BytesOk(m, mem[p.buf])
  }

  /** Two live receives that can be written to never share a buffer. */
  predicate Apart(a: Msg, b: Msg)
  {
    a.recv.Some? && b.recv.Some? && a.recv.value.dstLen > 0 && b.recv.value.dstLen > 0 ==>
      a.recv.value.buf != b.recv.value.buf
  }

  ghost predicate Memory(st: State)
  {
    && FLUSH_BUF in st.mem
    && (forall n: nat {:trigger MsgOf(st, n)} :: n !in st.deliveries ==> BufferOk(st.mem, MsgOf(st, n)))
    && (forall n: nat, k: nat {:trigger MsgOf(st, n), MsgOf(st, k)} ::
          n !in st.deliveries && k !in st.deliveries && n != k ==> Apart(MsgOf(st, n), MsgOf(st, k)))
  }

  /** The common length of message n, in terms of what the applications asked for. */
  function Fitting(st: State, n: nat): nat
    requires n < |st.outbox| && n < |st.rooms|
  {
    Min(|st.outbox[n]|, st.rooms[n])
  }

  /** Requests carry what the applications passed in, and everything handed back so far was right. */
  ghost predicate Reports(st: State)
  {
    && (forall n {:trigger MsgOf(st, n)} :: 0 <= n < |st.outbox| ==>
          MsgOf(st, n).send.Some? && MsgOf(st, n).send.value.data == st.outbox[n])
    && (forall n {:trigger MsgOf(st, n)} :: 0 <= n < |st.rooms| ==>
          MsgOf(st, n).recv.Some? && MsgOf(st, n).recv.value.dstLen == st.rooms[n])
    && (forall n :: n in st.sizes ==> n < |st.outbox| && n < |st.rooms| && st.sizes[n] == Fitting(st, n))
    && (forall n :: n in st.deliveries ==>
          n < |st.outbox| && n < |st.rooms| && st.deliveries[n] == st.outbox[n][..Fitting(st, n)])
  }

  ghost predicate Inv(c: Config, st: State)
  {
    && Counters(c, st) && Messages(c, st)
    && SendRing(st) && RecvRing(st)
    && SendQueue(st) && RecvQueue(st)
    && Memory(st) && Reports(st)
  }

  // ---------------------------------------------------------------------------------------------
  // Frames: one message changes, the rest stays

  /** The state differs from `st` in message n, which becomes m. */
  predicate OneMessage(st: State, st': State, n: nat, m: Msg)
  {
    && st'.msgs == st.msgs[n := m]
    && st'.sent == st.sent && st'.received == st.received
    && st'.sendLow == st.sendLow && st'.recvLow == st.recvLow
    && st'.sizes == st.sizes && st'.deliveries == st.deliveries
    && st'.outbox == st.outbox && st'.rooms == st.rooms
  }

  lemma {:induction false} MsgsAfter(st: State, st': State, n: nat, m: Msg)
    requires st'.msgs == st.msgs[n := m]
    ensures forall k :: MsgOf(st', k) == if k == n then m else MsgOf(st, k)
  {
  }

  lemma {:induction false} MessagesFrame(c: Config, st: State, st': State, n: nat, m: Msg)
    requires Messages(c, st) && OneMessage(st, st', n, m)
    requires MsgOk(c, n, m) && Life(st, n, m)
    ensures Messages(c, st')
  {
    MsgsAfter(st, st', n, m);
    forall k: nat ensures MsgOk(c, k, MsgOf(st', k)) && Life(st', k, MsgOf(st', k)) {
      assert k != n ==> MsgOf(st', k) == MsgOf(st, k);
    }
  }

  lemma {:induction false} SendRingFrame(st: State, st': State, n: nat, m: Msg)
    requires SendRing(st) && OneMessage(st, st', n, m) && st'.s.ring == st.s.ring
    requires n >= st.sendLow ==> SendEntry(st.sent, n in st.sizes, n, m) == SendEntry(st.sent, n in st.sizes, n, MsgOf(st, n))
    ensures SendRing(st')
  {
    MsgsAfter(st, st', n, m);
    forall k | k >= st'.sendLow
      ensures EntryOfMsg(st'.s.ring, st'.sendLow, k) == SendEntry(st'.sent, k in st'.sizes, k, MsgOf(st', k))
    {
      var before := MsgOf(st, k);
    }
  }

  lemma {:induction false} RecvRingFrame(st: State, st': State, n: nat, m: Msg)
    requires RecvRing(st) && OneMessage(st, st', n, m) && st'.r.ring == st.r.ring
    requires n >= st.recvLow ==> RecvEntry(st.received, n in st.deliveries, n, m) == RecvEntry(st.received, n in st.deliveries, n, MsgOf(st, n))
    ensures RecvRing(st')
  {
    MsgsAfter(st, st', n, m);
    forall k | k >= st'.recvLow
      ensures EntryOfMsg(st'.r.ring, st'.recvLow, k) == RecvEntry(st'.received, k in st'.deliveries, k, MsgOf(st', k))
    {
      var before := MsgOf(st, k);
    }
  }

  lemma {:induction false} SendQueueFrame(st: State, st': State, n: nat, m: Msg)
    requires SendQueue(st) && st'.msgs == st.msgs[n := m] && st'.s.pending == st.s.pending
    requires SendWaits(m) <==> SendWaits(MsgOf(st, n))
    ensures SendQueue(st')
  {
    MsgsAfter(st, st', n, m);
    forall k: nat ensures k in st'.s.pending <==> SendWaits(MsgOf(st', k)) {
      var before := MsgOf(st, k);
    }
  }

  lemma {:induction false} RecvQueueFrame(st: State, st': State, n: nat, m: Msg)
    requires RecvQueue(st) && st'.msgs == st.msgs[n := m] && st'.r.pending == st.r.pending
    requires CtrlWaits(m) <==> CtrlWaits(MsgOf(st, n))
    requires CopyWaits(m) <==> CopyWaits(MsgOf(st, n))
    ensures RecvQueue(st')
  {
    MsgsAfter(st, st', n, m);
    forall k: nat
      ensures CtrlPost(k) in st'.r.pending <==> CtrlWaits(MsgOf(st', k))
      ensures CopyPost(k) in st'.r.pending <==> CopyWaits(MsgOf(st', k))
    {
      var before := MsgOf(st, k);
    }
  }

  /** A message that may start waiting joins the back of the queue. */
  lemma {:induction false} SendQueuePush(st: State, st': State, n: nat, m: Msg)
    requires SendQueue(st) && st'.msgs == st.msgs[n := m]
    requires !SendWaits(MsgOf(st, n))
    requires st'.s.pending == PushIf(st.s.pending, n, SendWaits(m))
    ensures SendQueue(st')
  {
    MsgsAfter(st, st', n, m);
    assert n !in st.s.pending by {
      var before := MsgOf(st, n);
    }
    forall k: nat ensures k in st'.s.pending <==> SendWaits(MsgOf(st', k)) {
      var before := MsgOf(st, k);
      assert k in st'.s.pending <==> k in st.s.pending || (k == n && SendWaits(m));
    }
  }

  lemma {:induction false} RecvQueuePush(st: State, st': State, n: nat, m: Msg)
    requires RecvQueue(st) && st'.msgs == st.msgs[n := m]
    requires !CopyWaits(MsgOf(st, n))
    requires CtrlWaits(m) <==> CtrlWaits(MsgOf(st, n))
    requires st'.r.pending == PushIf(st.r.pending, CopyPost(n), CopyWaits(m))
    ensures RecvQueue(st')
  {
    MsgsAfter(st, st', n, m);
    assert CopyPost(n) !in st.r.pending by {
      var before := MsgOf(st, n);
    }
    forall k: nat
      ensures CtrlPost(k) in st'.r.pending <==> CtrlWaits(MsgOf(st', k))
      ensures CopyPost(k) in st'.r.pending <==> CopyWaits(MsgOf(st', k))
    {
      var before := MsgOf(st, k);
      assert CtrlPost(k) in st'.r.pending <==> CtrlPost(k) in st.r.pending;
      assert CopyPost(k) in st'.r.pending <==> CopyPost(k) in st.r.pending || (k == n && CopyWaits(m));
    }
  }

  /** The front of the queue has posted everything. */
  lemma {:induction false} SendQueuePop(st: State, st': State, n: nat, m: Msg)
    requires SendQueue(st) && st'.msgs == st.msgs[n := m]
    requires st.s.pending != [] && st.s.pending[0] == n
    requires st'.s.pending == if SendWaits(m) then st.s.pending else st.s.pending[1..]
    ensures SendQueue(st')
  {
    MsgsAfter(st, st', n, m);
    assert st.s.pending == [n] + st.s.pending[1..];
    assert n !in st.s.pending[1..];
    forall k: nat ensures k in st'.s.pending <==> SendWaits(MsgOf(st', k)) {
      var before := MsgOf(st, k);
      assert k in st.s.pending <==> k == n || k in st.s.pending[1..];
    }
  }

  lemma {:induction false} RecvQueuePop(st: State, st': State, x: Pending, m: Msg)
    requires RecvQueue(st) && st'.msgs == st.msgs[x.n := m]
    requires st.r.pending != [] && st.r.pending[0] == x
    requires x.CtrlPost? ==> (CopyWaits(m) <==> CopyWaits(MsgOf(st, x.n)))
    requires x.CopyPost? ==> (CtrlWaits(m) <==> CtrlWaits(MsgOf(st, x.n)))
    requires st'.r.pending == if (if x.CtrlPost? then CtrlWaits(m) else CopyWaits(m)) then st.r.pending else st.r.pending[1..]
    ensures RecvQueue(st')
  {
    MsgsAfter(st, st', x.n, m);
    assert st.r.pending == [x] + st.r.pending[1..];
    assert x !in st.r.pending[1..];
    forall k: nat
      ensures CtrlPost(k) in st'.r.pending <==> CtrlWaits(MsgOf(st', k))
      ensures CopyPost(k) in st'.r.pending <==> CopyWaits(MsgOf(st', k))
    {
      var before := MsgOf(st, k);
      assert CtrlPost(k) in st.r.pending <==> CtrlPost(k) == x || CtrlPost(k) in st.r.pending[1..];
      assert CopyPost(k) in st.r.pending <==> CopyPost(k) == x || CopyPost(k) in st.r.pending[1..];
    }
  }

  /** Memory stays and the message keeps its buffer and gains no unjustified placement. */
  lemma {:induction false} MemoryFrame(st: State, st': State, n: nat, m: Msg)
    requires Memory(st) && OneMessage(st, st', n, m) && st'.mem == st.mem
    requires n !in st.deliveries ==> BufferOk(st.mem, m)
    requires m.recv.Some? ==> MsgOf(st, n).recv.Some?
                              && m.recv.value.buf == MsgOf(st, n).recv.value.buf
                              && m.recv.value.dstLen == MsgOf(st, n).recv.value.dstLen
    ensures Memory(st')
  {
    MsgsAfter(st, st', n, m);
    forall k: nat | k !in st'.deliveries ensures BufferOk(st'.mem, MsgOf(st', k)) {
      var before := MsgOf(st, k);
    }
    forall k: nat, j: nat | k !in st'.deliveries && j !in st'.deliveries && k != j
      ensures Apart(MsgOf(st', k), MsgOf(st', j))
    {
      assert Apart(MsgOf(st, k), MsgOf(st, j));
    }
  }

  /** A message keeps what its two calls passed in. */
  predicate SameCalls(m: Msg, m': Msg)
  {
    && (m.send.Some? ==> m'.send.Some? && m'.send.value.data == m.send.value.data)
    && (m.recv.Some? ==> m'.recv.Some? && m'.recv.value.dstLen == m.recv.value.dstLen)
  }

  lemma {:induction false} ReportsFrame(st: State, st': State, n: nat, m: Msg)
    requires Reports(st) && OneMessage(st, st', n, m) && SameCalls(MsgOf(st, n), m)
    ensures Reports(st')
  {
    MsgsAfter(st, st', n, m);
    forall k | 0 <= k < |st'.outbox|
      ensures MsgOf(st', k).send.Some? && MsgOf(st', k).send.value.data == st'.outbox[k]
    {
      var before := MsgOf(st, k);
    }
    forall k | 0 <= k < |st'.rooms|
      ensures MsgOf(st', k).recv.Some? && MsgOf(st', k).recv.value.dstLen == st'.rooms[k]
    {
      var before := MsgOf(st, k);
    }
  }

  lemma {:induction false} MsgHolds(c: Config, st: State, n: nat)
    requires Inv(c, st)
    ensures MsgOk(c, n, MsgOf(st, n)) && Life(st, n, MsgOf(st, n))
  {
  }

  lemma {:induction false} InvWellFormed(c: Config, st: State)
    requires Inv(c, st)
    ensures WellFormed(st)
  {
  }
}

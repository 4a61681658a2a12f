/**
 The RDMA send/receive protocol between one send communicator and its receive communicator.

 The receiver advertises a buffer in a ctrl message; the sender either writes the message in stripes
 or has already sent it eagerly. Both sides find the request of a message in their message buffer,
 from a 10-bit sequence number. The network posts or refuses every operation and completes posted
 operations in any order. A state holds both communicators, the receiver's memory and, per message,
 the log of network operations ever posted for it; a handler sees only what is on the wire.

 Each action is one locked section of the source. `Error` is any path on which the source returns an
 error or follows a stale reference; `Idle` means the action is not possible in that state.
 */
module Transfer {
  import opened Arithmetic
  import opened Collections
  import opened MsgBuff
  import opened Scheduler
  import opened Wire

  /** NCCL_OFI_RDMA_MSGBUFF_SIZE. */
  const SLOTS: nat := 256

  /** NCCL_OFI_MAX_REQUESTS and NCCL_OFI_MAX_SEND_REQUESTS. */
  const MAX_REQUESTS: nat := 128

  const MAX_RAILS: nat := 4

  type Bytes = seq<int>

  /** What both sides agree on; `commId` is the receive communicator's id. */
  datatype Config = Config(rails: nat, minStripe: nat, eagerMax: int, commId: nat)

  /** Checked at initialisation: topology group size, and EAGER_MAX_SIZE against MIN_STRIPE_SIZE. */
  predicate ValidConfig(c: Config)
  {
    1 <= c.rails <= MAX_RAILS && c.minStripe > 0 && c.eagerMax <= c.minStripe && c.commId < COMM_SPAN
  }

  // ---------------------------------------------------------------------------------------------
  // Wire messages and network operations

  datatype CtrlMsg = CtrlMsg(seqNum: nat, len: nat, buf: nat)

  datatype EagerMsg = EagerMsg(imm: nat, data: Bytes)

  datatype WriteMsg = WriteMsg(imm: nat, buf: nat, offset: nat, data: Bytes)

  /** `arrived`: handled by the peer. `acked`: the poster has handled its own completion. */
  datatype CtrlOp = CtrlOp(msg: CtrlMsg, arrived: bool, acked: bool)

  datatype EagerOp = EagerOp(msg: EagerMsg, arrived: bool, acked: bool)

  /** A write first reaches memory and later shows up as a completion at the receiver. */
  datatype Stage = Flying | Placed | Counted

  datatype WriteOp = WriteOp(msg: WriteMsg, stage: Stage, acked: bool)

  /** The receiver's local read from the eager buffer into the destination. */
  datatype CopyOp = CopyOp(len: nat, finished: bool)

  // ---------------------------------------------------------------------------------------------
  // Requests, communicators, states

  datatype SendReq = SendReq(
    seqNum: nat, data: Bytes, buffLen: nat, size: nat, eager: bool, remote: Option<CtrlMsg>,
    schedule: seq<Xfer>, wdata: nat, xferred: nat, total: nat, ncompls: nat, done: bool)

  /** The eager copy sub-request: the received bytes and how many of them to copy. */
  datatype CopyReq = CopyReq(data: Bytes, recvLen: nat)

  datatype RecvReq = RecvReq(
    seqNum: nat, buf: nat, dstLen: nat, size: nat, ncompls: nat, done: bool,
    segCompls: nat, segSize: nat, copy: Option<CopyReq>)

  /** Everything about one message: its two requests and its network operations. */
  datatype Msg = Msg(
    send: Option<SendReq>, recv: Option<RecvReq>,
    ctrls: seq<CtrlOp>, eagers: seq<EagerOp>, writes: seq<WriteOp>, copies: seq<CopyOp>)

  const NO_MSG: Msg := Msg(None, None, [], [], [], [])

  /** Message buffer elements: a request (named by its message) or a held receive buffer. */
  datatype Elem = ReqOf(n: nat) | HeldCtrl(ctrl: CtrlMsg) | HeldEager(eager: EagerMsg)

  datatype SendComm = SendComm(
    ring: Ring<Elem>, nextSeq: nat, inflight: nat, inflightWrites: int, pending: seq<nat>, rr: nat)

  datatype Pending = CtrlPost(n: nat) | CopyPost(n: nat)

  datatype RecvComm = RecvComm(ring: Ring<Elem>, nextSeq: nat, inflight: nat, pending: seq<Pending>)

  /**
   `sent`, `received`: calls accepted so far. `sendLow`, `recvLow`: the oldest request that `test` has
   not handed back. The rest is what the two applications see: `outbox`, the bytes passed to each
   `send`; `rooms`, the length passed to each `recv`; `sizes`, what `test` reported for each send it
   has handed back; `deliveries`, what the receive buffer held when `test` handed back each receive.
   */
  datatype State = State(
    s: SendComm, r: RecvComm, msgs: map<nat, Msg>, mem: map<nat, Bytes>,
    sent: nat, received: nat, sendLow: nat, recvLow: nat,
    outbox: seq<Bytes>, rooms: seq<nat>, sizes: map<nat, nat>, deliveries: map<nat, Bytes>)

  datatype Outcome = Next(st: State) | Error | Idle

  function MsgOf(st: State, n: nat): Msg
  {
    if n in st.msgs then st.msgs[n] else NO_MSG
  }

  function SetMsg(st: State, n: nat, m: Msg): State
  {
    st.(msgs := st.msgs[n := m])
  }

  // ---------------------------------------------------------------------------------------------
  // Requests

  function Slice(data: Bytes, offset: nat, size: nat): Bytes
  {
    if offset + size <= |data| then data[offset..offset + size] else []
  }

  /** inc_req_completion on a send request; its size is set elsewhere. */
  function AckSend(q: SendReq): SendReq
  {
    q.(ncompls := q.ncompls + 1, done := q.done || q.ncompls + 1 == q.total)
  }

  /** inc_req_completion on a receive request, which always waits for two completions. */
  function AckRecv(p: RecvReq, size: nat): RecvReq
  {
    p.(size := p.size + size, ncompls := p.ncompls + 1, done := p.done || p.ncompls + 1 == 2)
  }

  /** inc_recv_seg_completion: the last segment counts as one completion of the receive. */
  function AckSegment(p: RecvReq, size: nat, totalSegs: nat): RecvReq
  {
    var p1 := p.(segSize := p.segSize + size, segCompls := p.segCompls + 1);
    if p1.segCompls == totalSegs then AckRecv(p1, p1.segSize) else p1
  }

  function Truncated(q: SendReq, len: nat): SendReq
  {
    if len < q.buffLen then q.(size := len, buffLen := len) else q
  }

  /** update_send_data_from_remote. */
  function FromRemote(c: Config, q: SendReq, ctrl: CtrlMsg, rr: nat): SendReq
    requires ValidConfig(c)
  {
    var q1 := Truncated(q.(remote := Some(ctrl)), ctrl.len);
    var plan := Plan(rr, q1.buffLen, c.rails, c.minStripe);
    q1.(schedule := plan, total := |plan|, wdata := Imm(c.commId, q.seqNum, |plan|))
  }

  function Advance(c: Config, rr: nat, q: SendReq): nat
    requires ValidConfig(c)
  {
    (rr + |q.schedule|) % c.rails
  }

  function WriteOf(q: SendReq, x: Xfer): WriteMsg
    requires q.remote.Some?
  {
    WriteMsg(q.wdata, q.remote.value.buf, x.offset, Slice(q.data, x.offset, x.size))
  }

  /** The writes posted for stripes from .. from+k-1. */
  function NewWrites(q: SendReq, from: nat, k: nat): (ops: seq<WriteOp>)
    requires q.remote.Some? && from + k <= |q.schedule|
    ensures |ops| == k
  {
    seq(k, i requires 0 <= i < k => WriteOp(WriteOf(q, q.schedule[from + i]), Flying, false))
  }

  /**
   send_progress when the provider accepts `accept` posts before it refuses one. The flag tells
   whether the request still has something to post.
   */
  function Progress(m: Msg, accept: nat): (Msg, bool)
    requires m.send.Some?
  {
    var q := m.send.value;
    if q.eager then
      if accept > 0 && |q.schedule| > 0 then
        var x := q.schedule[0];
        (m.(eagers := m.eagers + [EagerOp(EagerMsg(q.wdata, Slice(q.data, x.offset, x.size)), false, false)]), false)
      else (m, true)
    else if q.remote.Some? && q.xferred <= |q.schedule| then
      var k := Min(accept, |q.schedule| - q.xferred);
      (m.(send := Some(q.(xferred := q.xferred + k)), writes := m.writes + NewWrites(q, q.xferred, k)),
       q.xferred + k < |q.schedule|)
    else (m, false)
  }

  /** The part of handle_ctrl_recv that runs once the send request has been found. */
  function CtrlToSend(c: Config, m: Msg, ctrl: CtrlMsg, rr: nat, accept: nat): (Msg, bool)
    requires ValidConfig(c) && m.send.Some?
  {
    var q := m.send.value;
    if q.eager then (m.(send := Some(AckSend(Truncated(q.(remote := Some(ctrl)), ctrl.len)))), false)
    else Progress(m.(send := Some(FromRemote(c, q, ctrl, rr))), accept)
  }

  /** The send request that `send` builds before it is posted. */
  function NewSend(c: Config, seqNum: nat, data: Bytes, ctrl: Option<CtrlMsg>, eager: bool, rr: nat): SendReq
    requires ValidConfig(c)
  {
    var q := SendReq(seqNum, data, |data|, |data|, eager, None, [], 0, 0, 0, 0, false);
    if eager then
      var plan := Plan(rr, |data|, c.rails, c.minStripe);
      q.(schedule := plan, total := |plan| + 1, wdata := Imm(c.commId, seqNum, |plan|))
    else if ctrl.Some? then FromRemote(c, q, ctrl.value, rr)
    else q
  }

  /** post_eager_copy: the copy is cut to the destination even when the post is refused. */
  function TryCopy(m: Msg, accept: bool): (Msg, bool)
    requires m.recv.Some? && m.recv.value.copy.Some?
  {
    var p := m.recv.value;
    var len := Min(p.copy.value.recvLen, p.dstLen);
    var m1 := m.(recv := Some(p.(copy := Some(p.copy.value.(recvLen := len)))));
    if accept then (m1.(copies := m1.copies + [CopyOp(len, false)]), false) else (m1, true)
  }

  /** An eager message meets its receive request: empty messages need no copy. */
  function EagerToRecv(m: Msg, e: EagerMsg, accept: bool): (Msg, bool)
    requires m.recv.Some?
  {
    var p := m.recv.value;
    if e.data == [] then (m.(recv := Some(AckRecv(p, 0))), false)
    else TryCopy(m.(recv := Some(p.(copy := Some(CopyReq(e.data, |e.data|))))), accept)
  }

  function TryCtrl(m: Msg, accept: bool): (Msg, bool)
    requires m.recv.Some?
  {
    var p := m.recv.value;
    if accept then (m.(ctrls := m.ctrls + [CtrlOp(CtrlMsg(p.seqNum, p.dstLen, p.buf), false, false)]), false)
    else (m, true)
  }

  // ---------------------------------------------------------------------------------------------
  // Sender actions

  function PushIf<T>(q: seq<T>, x: T, push: bool): seq<T>
  {
    if push then q + [x] else q
  }

  function NextSeq(seqNum: nat): nat
  {
    (seqNum + 1) % SEQ_SPAN
  }

  predicate GoodRing(r: Ring<Elem>)
  {
    Sized(r) && |r.slots| == SLOTS && r.fieldSize == SEQ_SPAN
  }

  /** The send request named by a message buffer element, unless it has been freed. */
  predicate LiveSend(st: State, n: nat)
  {
    n !in st.sizes && MsgOf(st, n).send.Some?
  }

  predicate LiveRecv(st: State, n: nat)
  {
    n !in st.deliveries && MsgOf(st, n).recv.Some?
  }

  /** What `send` learns about the next message from the message buffer. */
  datatype Found = Absent | Held(elem: Elem) | Trouble

  function LookUpNext(ring: Ring<Elem>, seqNum: nat): Found
    requires GoodRing(ring)
  {
    var (res, stat, found) := Retrieve(ring, seqNum);
    if res == Success then
      if found.Some? && found.value.0 == Buff && found.value.1.Some? then Held(found.value.1.value) else Trouble
    else if stat == NotStarted then Absent
    else Trouble
  }

  /** Store the request of the next message: replace a held buffer, or insert. */
  function Enter(ring: Ring<Elem>, seqNum: nat, elem: Elem, held: bool): (out: (Ring<Elem>, bool))
    requires GoodRing(ring) && seqNum < SEQ_SPAN
    ensures GoodRing(out.0)
  {
    var (ring', res, stat) := if held then Replace(ring, seqNum, elem, Req) else Insert(ring, seqNum, elem, Req);
    (ring', res == Success)
  }

  /** `send`, called with the bytes to send. */
  function DoSend(c: Config, st: State, data: Bytes, accept: nat): Outcome
    requires ValidConfig(c) && GoodRing(st.s.ring) && st.s.nextSeq < SEQ_SPAN
  {
    if st.s.inflight == MAX_REQUESTS || st.s.pending != [] then Idle
    else
      match LookUpNext(st.s.ring, st.s.nextSeq)
      case Absent => SendWith(c, st, data, None, accept)
      case Held(e) => if e.HeldCtrl? then SendWith(c, st, data, Some(e.ctrl), accept) else Error
      case Trouble => Error
  }

  /** The request of a new send, with the message it belongs to, after its first posts. */
  function SentMsg(c: Config, m: Msg, seqNum: nat, data: Bytes, ctrl: Option<CtrlMsg>, eager: bool, rr: nat, accept: nat): (Msg, bool)
    requires ValidConfig(c)
  {
    var m1 := m.(send := Some(NewSend(c, seqNum, data, ctrl, eager, rr)));
    if ctrl.Some? || eager then Progress(m1, accept) else (m1, false)
  }

  /** The rest of `send`, once it knows whether the ctrl message is there. */
  function SendWith(c: Config, st: State, data: Bytes, ctrl: Option<CtrlMsg>, accept: nat): Outcome
    requires ValidConfig(c) && GoodRing(st.s.ring) && st.s.nextSeq < SEQ_SPAN
  {
    var eager := ctrl.None? && |data| <= c.eagerMax && st.s.inflightWrites == 0;
    var (ring, ok) := Enter(st.s.ring, st.s.nextSeq, ReqOf(st.sent), ctrl.Some?);
    if !ok then Error
    else
      var (m, blocked) := SentMsg(c, MsgOf(st, st.sent), st.s.nextSeq, data, ctrl, eager, st.s.rr, accept);
      var s := SendComm(
        ring, NextSeq(st.s.nextSeq), st.s.inflight + 1, st.s.inflightWrites + (if eager then 0 else 1),
        PushIf(st.s.pending, st.sent, blocked),
        Advance(c, st.s.rr, NewSend(c, st.s.nextSeq, data, ctrl, eager, st.s.rr)));
      Next(SetMsg(st, st.sent, m).(s := s, sent := st.sent + 1, outbox := st.outbox + [data]))
  }

  /** The request a wrapped number leads to, if the message buffer holds one. */
  function FindReq(ring: Ring<Elem>, seqNum: nat): Option<nat>
    requires GoodRing(ring)
  {
    var (res, stat, found) := Retrieve(ring, seqNum);
    if found.Some? && found.value.0 == Req && found.value.1.Some? && found.value.1.value.ReqOf?
    then Some(found.value.1.value.n) else None
  }

  /** handle_ctrl_recv for the i-th ctrl operation of message n, which has reached the sender. */
  function CtrlArrives(c: Config, st: State, n: nat, i: nat, accept: nat): Outcome
    requires ValidConfig(c) && GoodRing(st.s.ring)
  {
    var origin := MsgOf(st, n);
    if i >= |origin.ctrls| || origin.ctrls[i].arrived then Idle
    else
      var ctrl := origin.ctrls[i].msg;
      if ctrl.seqNum >= SEQ_SPAN then Error
      else
        HandleCtrl(c, SetMsg(st, n, origin.(ctrls := origin.ctrls[i := origin.ctrls[i].(arrived := true)])), ctrl, accept)
  }

  function HandleCtrl(c: Config, st: State, ctrl: CtrlMsg, accept: nat): Outcome
    requires ValidConfig(c) && GoodRing(st.s.ring) && ctrl.seqNum < SEQ_SPAN
  {
    var (ring, res, stat) := Insert(st.s.ring, ctrl.seqNum, HeldCtrl(ctrl), Buff);
    if res == Success then Next(st.(s := st.s.(ring := ring)))
    else if stat != InProgress then Error
    else
      match FindReq(st.s.ring, ctrl.seqNum)
      case None => Error
      case Some(k) => if LiveSend(st, k) then CtrlFound(c, st, k, ctrl, accept) else Error
  }

  function CtrlFound(c: Config, st: State, k: nat, ctrl: CtrlMsg, accept: nat): Outcome
    requires ValidConfig(c) && MsgOf(st, k).send.Some?
  {
    var m := MsgOf(st, k);
    var (m', blocked) := CtrlToSend(c, m, ctrl, st.s.rr, accept);
    var rr := if m.send.value.eager then st.s.rr else Advance(c, st.s.rr, FromRemote(c, m.send.value, ctrl, st.s.rr));
    Next(SetMsg(st, k, m').(s := st.s.(pending := PushIf(st.s.pending, k, blocked), rr := rr)))
  }

  /** One turn of process_pending_reqs on the sender's endpoint. */
  function DrainSend(st: State, accept: nat): Outcome
  {
    if st.s.pending == [] then Idle
    else
      var n := st.s.pending[0];
      if !LiveSend(st, n) || MsgOf(st, n).send.value.schedule == [] then Error
      else
        var (m, blocked) := Progress(MsgOf(st, n), accept);
        Next(SetMsg(st, n, m).(s := st.s.(pending := if blocked then st.s.pending else st.s.pending[1..])))
  }

  /** Local completion of the i-th write of message n at the sender. */
  function WriteAcked(st: State, n: nat, i: nat): Outcome
  {
    var m := MsgOf(st, n);
    if i >= |m.writes| || m.writes[i].acked then Idle
    else if !LiveSend(st, n) then Error
    else Next(SetMsg(st, n, m.(send := Some(AckSend(m.send.value)), writes := m.writes[i := m.writes[i].(acked := true)])))
  }

  function EagerAcked(st: State, n: nat, i: nat): Outcome
  {
    var m := MsgOf(st, n);
    if i >= |m.eagers| || m.eagers[i].acked then Idle
    else if !LiveSend(st, n) then Error
    else Next(SetMsg(st, n, m.(send := Some(AckSend(m.send.value)), eagers := m.eagers[i := m.eagers[i].(acked := true)])))
  }

  /** The first number from `low` on that is not in `done`. */
  function Skip(low: nat, done: set<nat>): (next: nat)
    ensures low <= next && next !in done
    decreases |done|
  {
    if low in done then Skip(low + 1, done - {low}) else low
  }

  /** `test` on the send request of message n, which the application may pick in any order. */
  function TestSend(st: State, n: nat): Outcome
    requires GoodRing(st.s.ring)
  {
    var m := MsgOf(st, n);
    if n in st.sizes || m.send.None? || !m.send.value.done then Idle
    else
      var (ring, res, stat) := Complete(st.s.ring, m.send.value.seqNum);
      if res != Success || st.s.inflight == 0 then Error
      else
        var s := st.s.(
          ring := ring, inflight := st.s.inflight - 1,
          inflightWrites := st.s.inflightWrites - (if m.send.value.eager then 0 else 1));
        var sizes := st.sizes[n := m.send.value.size];
        Next(st.(s := s, sendLow := Skip(st.sendLow, sizes.Keys), sizes := sizes))
  }

  // ---------------------------------------------------------------------------------------------
  // Receiver actions

  /** The endpoint's own buffer, which stands in for the buffer of every empty receive. */
  const FLUSH_BUF: nat := 0

  function Destination(buf: nat, len: nat): nat
  {
    if len == 0 then FLUSH_BUF else buf
  }

  /** The application receives into memory it has, and shares no buffer between live receives. */
  predicate BufferFree(st: State, buf: nat, len: nat)
  {
    && buf in st.mem && len <= |st.mem[buf]|
    && (len > 0 ==> forall n :: 0 <= n < st.received && LiveRecv(st, n) ==>
          MsgOf(st, n).recv.value.dstLen == 0 || MsgOf(st, n).recv.value.buf != buf)
  }

  /** `recv`, called with a buffer and its length. */
  function DoRecv(st: State, buf: nat, len: nat, acceptCtrl: bool, acceptCopy: bool): Outcome
    requires GoodRing(st.r.ring) && st.r.nextSeq < SEQ_SPAN
  {
    var dest := Destination(buf, len);
    if st.r.inflight == MAX_REQUESTS || st.r.pending != [] || !BufferFree(st, dest, len) then Idle
    else
      match LookUpNext(st.r.ring, st.r.nextSeq)
      case Absent => RecvWith(st, dest, len, None, acceptCtrl, acceptCopy)
      case Held(e) => if e.HeldEager? then RecvWith(st, dest, len, Some(e.eager), acceptCtrl, acceptCopy) else Error
      case Trouble => Error
  }

  /** A new receive with its message, after posting the ctrl message and, if need be, the eager copy. */
  function ReceivedMsg(m: Msg, seqNum: nat, buf: nat, len: nat, held: Option<EagerMsg>, acceptCtrl: bool, acceptCopy: bool): (Msg, bool, bool)
  {
    var p := RecvReq(seqNum, buf, len, 0, 0, false, 0, 0, None);
    var (m1, ctrlBlocked) := TryCtrl(m.(recv := Some(p)), acceptCtrl);
    var (m2, copyBlocked) := if held.Some? then EagerToRecv(m1, held.value, acceptCopy) else (m1, false);
    (m2, ctrlBlocked, copyBlocked)
  }

  function RecvWith(st: State, buf: nat, len: nat, held: Option<EagerMsg>, acceptCtrl: bool, acceptCopy: bool): Outcome
    requires GoodRing(st.r.ring) && st.r.nextSeq < SEQ_SPAN
  {
    var n := st.received;
    var (ring, ok) := Enter(st.r.ring, st.r.nextSeq, ReqOf(n), held.Some?);
    if !ok then Error
    else
      var (m, ctrlBlocked, copyBlocked) := ReceivedMsg(MsgOf(st, n), st.r.nextSeq, buf, len, held, acceptCtrl, acceptCopy);
      var pending := PushIf(PushIf(st.r.pending, CtrlPost(n), ctrlBlocked), CopyPost(n), copyBlocked);
      Next(SetMsg(st, n, m).(r := RecvComm(ring, NextSeq(st.r.nextSeq), st.r.inflight + 1, pending),
                             received := n + 1, rooms := st.rooms + [len]))
  }

  /** handle_eager_recv for the i-th eager operation of message n. */
  function EagerArrives(c: Config, st: State, n: nat, i: nat, accept: bool): Outcome
    requires GoodRing(st.r.ring)
  {
    var origin := MsgOf(st, n);
    if i >= |origin.eagers| || origin.eagers[i].arrived then Idle
    else
      var e := origin.eagers[i].msg;
      if ImmComm(e.imm) != c.commId then Error
      else
        HandleEager(SetMsg(st, n, origin.(eagers := origin.eagers[i := origin.eagers[i].(arrived := true)])), e, accept)
  }

  function HandleEager(st: State, e: EagerMsg, accept: bool): Outcome
    requires GoodRing(st.r.ring)
  {
    var (ring, res, stat) := Insert(st.r.ring, ImmSeq(e.imm), HeldEager(e), Buff);
    if res == Success then Next(st.(r := st.r.(ring := ring)))
    else if stat != InProgress then Error
    else
      match FindReq(st.r.ring, ImmSeq(e.imm))
      case None => Error
      case Some(k) => if LiveRecv(st, k) then EagerFound(st, k, e, accept) else Error
  }

  function EagerFound(st: State, k: nat, e: EagerMsg, accept: bool): Outcome
    requires MsgOf(st, k).recv.Some?
  {
    var (m, blocked) := EagerToRecv(MsgOf(st, k), e, accept);
    Next(SetMsg(st, k, m).(r := st.r.(pending := PushIf(st.r.pending, CopyPost(k), blocked))))
  }

  /** Bytes written over a buffer from `offset` on. */
  function Overlay(b: Bytes, offset: nat, data: Bytes): (b': Bytes)
    requires offset + |data| <= |b|
    ensures |b'| == |b|
  {
    b[..offset] + data + b[offset + |data|..]
  }

  /** The network places the i-th write of message n in the receiver's memory. */
  function WriteLands(st: State, n: nat, i: nat): Outcome
  {
    var m := MsgOf(st, n);
    if i >= |m.writes| || m.writes[i].stage != Flying then Idle
    else
      var w := m.writes[i].msg;
      if w.buf !in st.mem || w.offset + |w.data| > |st.mem[w.buf]| then Error
      else
        var mem := st.mem[w.buf := Overlay(st.mem[w.buf], w.offset, w.data)];
        Next(SetMsg(st, n, m.(writes := m.writes[i := m.writes[i].(stage := Placed)])).(mem := mem))
  }

  /** handle_write_comp: the completion of a placed write reaches the receiver. */
  function WriteCounted(c: Config, st: State, n: nat, i: nat): Outcome
    requires GoodRing(st.r.ring)
  {
    var origin := MsgOf(st, n);
    if i >= |origin.writes| || origin.writes[i].stage != Placed then Idle
    else
      var w := origin.writes[i].msg;
      var st1 := SetMsg(st, n, origin.(writes := origin.writes[i := origin.writes[i].(stage := Counted)]));
      if ImmComm(w.imm) != c.commId then Error
      else
        match FindReq(st.r.ring, ImmSeq(w.imm))
        case None => Error
        case Some(k) =>
          if !LiveRecv(st1, k) then Error
          else
            var m := MsgOf(st1, k);
            Next(SetMsg(st1, k, m.(recv := Some(AckSegment(m.recv.value, |w.data|, ImmSegs(w.imm))))))
  }

  /** Local completion of the i-th ctrl message of message n at the receiver. */
  function CtrlAcked(st: State, n: nat, i: nat): Outcome
  {
    var m := MsgOf(st, n);
    if i >= |m.ctrls| || m.ctrls[i].acked then Idle
    else if !LiveRecv(st, n) then Error
    else Next(SetMsg(st, n, m.(recv := Some(AckRecv(m.recv.value, 0)), ctrls := m.ctrls[i := m.ctrls[i].(acked := true)])))
  }

  /** The local read of the i-th eager copy of message n is complete. */
  function CopyDone(st: State, n: nat, i: nat): Outcome
  {
    var m := MsgOf(st, n);
    if i >= |m.copies| || m.copies[i].finished then Idle
    else if !LiveRecv(st, n) || m.recv.value.copy.None? then Error
    else
      var p := m.recv.value;
      var len := m.copies[i].len;
      if p.buf !in st.mem || len > |st.mem[p.buf]| || len > |p.copy.value.data| then Error
      else
        var mem := st.mem[p.buf := Overlay(st.mem[p.buf], 0, p.copy.value.data[..len])];
        var m1 := m.(recv := Some(AckRecv(p, p.copy.value.recvLen)), copies := m.copies[i := m.copies[i].(finished := true)]);
        Next(SetMsg(st, n, m1).(mem := mem))
  }

  /** One turn of process_pending_reqs on the receiver's endpoint. */
  function DrainRecv(st: State, accept: bool): Outcome
  {
    if st.r.pending == [] then Idle
    else
      var x := st.r.pending[0];
      if !LiveRecv(st, x.n) || (x.CopyPost? && MsgOf(st, x.n).recv.value.copy.None?) then Error
      else
        var (m, blocked) := if x.CtrlPost? then TryCtrl(MsgOf(st, x.n), accept) else TryCopy(MsgOf(st, x.n), accept);
        Next(SetMsg(st, x.n, m).(r := st.r.(pending := if blocked then st.r.pending else st.r.pending[1..])))
  }

  /** `test` on the receive request of message n. */
  function TestRecv(st: State, n: nat): Outcome
    requires GoodRing(st.r.ring)
  {
    var m := MsgOf(st, n);
    if n in st.deliveries || m.recv.None? || !m.recv.value.done then Idle
    else
      var p := m.recv.value;
      var (ring, res, stat) := Complete(st.r.ring, p.seqNum);
      if res != Success || st.r.inflight == 0 || p.buf !in st.mem || p.size > |st.mem[p.buf]| then Error
      else
        var deliveries := st.deliveries[n := st.mem[p.buf][..p.size]];
        Next(st.(r := st.r.(ring := ring, inflight := st.r.inflight - 1),
                 recvLow := Skip(st.recvLow, deliveries.Keys), deliveries := deliveries))
  }

  // ---------------------------------------------------------------------------------------------
  // Runs

  datatype Action =
    | Send(data: Bytes, accept: nat)
    | Recv(buf: nat, len: nat, acceptCtrl: bool, acceptCopy: bool)
    | OnCtrl(n: nat, i: nat, accept: nat)
    | OnEager(n: nat, i: nat, copyAccepted: bool)
    | OnLanding(n: nat, i: nat)
    | OnWrite(n: nat, i: nat)
    | OnWriteAck(n: nat, i: nat)
    | OnEagerAck(n: nat, i: nat)
    | OnCtrlAck(n: nat, i: nat)
    | OnCopy(n: nat, i: nat)
    | PumpSend(accept: nat)
    | PumpRecv(accepted: bool)
    | RetireSend(n: nat)
    | RetireRecv(n: nat)
    | OtherTraffic(rr: nat)

  /** The scheduler belongs to the device: other communicators move its round-robin counter. */
  function MoveCounter(c: Config, st: State, rr: nat): Outcome
  {
    if rr < c.rails then Next(st.(s := st.s.(rr := rr))) else Idle
  }

  predicate WellFormed(st: State)
  {
    GoodRing(st.s.ring) && GoodRing(st.r.ring) && st.s.nextSeq < SEQ_SPAN && st.r.nextSeq < SEQ_SPAN
  }

  function Step(c: Config, st: State, a: Action): Outcome
    requires ValidConfig(c) && WellFormed(st)
  {
    match a
    case Send(data, accept) => DoSend(c, st, data, accept)
    case Recv(buf, len, acceptCtrl, acceptCopy) => DoRecv(st, buf, len, acceptCtrl, acceptCopy)
    case OnCtrl(n, i, accept) => CtrlArrives(c, st, n, i, accept)
    case OnEager(n, i, accepted) => EagerArrives(c, st, n, i, accepted)
    case OnLanding(n, i) => WriteLands(st, n, i)
    case OnWrite(n, i) => WriteCounted(c, st, n, i)
    case OnWriteAck(n, i) => WriteAcked(st, n, i)
    case OnEagerAck(n, i) => EagerAcked(st, n, i)
    case OnCtrlAck(n, i) => CtrlAcked(st, n, i)
    case OnCopy(n, i) => CopyDone(st, n, i)
    case PumpSend(accept) => DrainSend(st, accept)
    case PumpRecv(accepted) => DrainRecv(st, accepted)
    case RetireSend(n) => TestSend(st, n)
    case RetireRecv(n) => TestRecv(st, n)
    case OtherTraffic(rr) => MoveCounter(c, st, rr)
  }
}

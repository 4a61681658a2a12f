/**
 What holds after every run of the protocol.

 A run is any sequence of actions from the initial state: application calls on both sides, network
 steps in any order, and any pattern of accepted and refused posts.
 */
module TransferRun {
  import opened Arithmetic
  import opened Collections
  import opened MsgBuff
  import opened MsgLedger
  import opened Scheduler
  import opened Wire
  import opened Transfer
  import opened TransferMsg
  import opened TransferRing
  import opened TransferInv
  import opened TransferSteps
  import opened TransferCalls

  /** A fresh pair of communicators; the slots of both message buffers hold whatever was there. */
  function Init(c: Config, sendSlots: seq<Slot<Elem>>, recvSlots: seq<Slot<Elem>>, mem: map<nat, Bytes>): State
  {
    State(
      SendComm(Ring(sendSlots, SEQ_SPAN, 0, 0), 0, 0, 0, [], 0),
      RecvComm(Ring(recvSlots, SEQ_SPAN, 0, 0), 0, 0, []),
      map[], mem, 0, 0, 0, 0, [], [], map[], map[])
  }

  predicate Setup(c: Config, sendSlots: seq<Slot<Elem>>, recvSlots: seq<Slot<Elem>>, mem: map<nat, Bytes>)
  {
    ValidConfig(c) && |sendSlots| == SLOTS && |recvSlots| == SLOTS && FLUSH_BUF in mem
  }

  /** The outcome of a run; actions that are not possible when their turn comes are skipped. */
  function Run(c: Config, st: State, actions: seq<Action>): Outcome
    requires ValidConfig(c)
    decreases |actions|
  {
    if actions == [] then Next(st)
    else if !WellFormed(st) then Error
    else
      match Step(c, st, actions[0])
      case Next(st1) => Run(c, st1, actions[1..])
      case Idle => Run(c, st, actions[1..])
      case Error => Error
  }

  lemma {:induction false} InitInv(c: Config, sendSlots: seq<Slot<Elem>>, recvSlots: seq<Slot<Elem>>, mem: map<nat, Bytes>)
    requires Setup(c, sendSlots, recvSlots, mem)
    ensures Inv(c, Init(c, sendSlots, recvSlots, mem))
  {
    FreshTracks(sendSlots, SEQ_SPAN);
    FreshTracks(recvSlots, SEQ_SPAN);
    var st := Init(c, sendSlots, recvSlots, mem);
    assert forall n :: MsgOf(st, n) == NO_MSG;
    assert forall n :: MsgOk(c, n, NO_MSG);
  }

  /** The action concerns a message 256 or more past the oldest request of the side it happens on. */
  predicate Beyond(st: State, a: Action)
  {
    match a
    case Send(_, _) => FarSend(st)
    case Recv(buf, len, _, _) => FarRecv(st, buf, len)
    case OnCtrl(n, i, _) => FarCtrl(st, n, i)
    case OnEager(n, i, _) => FarEager(st, n, i)
    case _ => false
  }

  /** Every action keeps the invariant, and it fails if and only if it goes beyond the window. */
  lemma {:induction false} StepSafe(c: Config, st: State, a: Action)
    requires Inv(c, st)
    ensures WellFormed(st) && ValidConfig(c)
    ensures Step(c, st, a).Error? <==> Beyond(st, a)
    ensures Step(c, st, a).Next? ==> Inv(c, Step(c, st, a).st)
  {
    hide Inv, DoSend, DoRecv, CtrlArrives, EagerArrives, WriteLands, WriteCounted, WriteAcked, EagerAcked,
      CtrlAcked, CopyDone, DrainSend, DrainRecv, TestSend, TestRecv, MoveCounter, FarSend, FarRecv, FarCtrl, FarEager;
    InvWellFormed(c, st);
    InvConfig(c, st);
    match a
    case Send(data, accept) => SendSafe(c, st, data, accept);
    case Recv(buf, len, acceptCtrl, acceptCopy) => RecvSafe(c, st, buf, len, acceptCtrl, acceptCopy);
    case OnCtrl(n, i, accept) => CtrlArrivesSafe(c, st, n, i, accept);
    case OnEager(n, i, accepted) => EagerArrivesSafe(c, st, n, i, accepted);
    case OnLanding(n, i) => WriteLandsSafe(c, st, n, i);
    case OnWrite(n, i) => WriteCountedSafe(c, st, n, i);
    case OnWriteAck(n, i) => WriteAckedSafe(c, st, n, i);
    case OnEagerAck(n, i) => EagerAckedSafe(c, st, n, i);
    case OnCtrlAck(n, i) => CtrlAckedSafe(c, st, n, i);
    case OnCopy(n, i) => CopyDoneSafe(c, st, n, i);
    case PumpSend(accept) => DrainSendSafe(c, st, accept);
    case PumpRecv(accepted) => DrainRecvSafe(c, st, accepted);
    case RetireSend(n) => RetireSendSafe(c, st, n);
    case RetireRecv(n) => RetireRecvSafe(c, st, n);
    case OtherTraffic(rr) => MoveCounterSafe(c, st, rr);
  }

  lemma {:induction false} InvConfig(c: Config, st: State)
    requires Inv(c, st)
    ensures ValidConfig(c)
  {
  }

  /** The state after an action, or the same state if the action is not possible. */
  function After(c: Config, st: State, a: Action): State
    requires ValidConfig(c) && WellFormed(st)
  {
    var o := Step(c, st, a);
    if o.Next? then o.st else st
  }

  /** Some action of the run is beyond the window when its turn comes. */
  predicate GoesBeyond(c: Config, st: State, actions: seq<Action>)
    requires ValidConfig(c)
    decreases |actions|
  {
    actions != [] && WellFormed(st) && (Beyond(st, actions[0]) || GoesBeyond(c, After(c, st, actions[0]), actions[1..]))
  }

  lemma {:induction false} RunFrom(c: Config, st: State, actions: seq<Action>)
    requires ValidConfig(c) && Inv(c, st)
    ensures Run(c, st, actions).Next? ==> Inv(c, Run(c, st, actions).st)
    ensures Run(c, st, actions).Next? <==> !GoesBeyond(c, st, actions)
    ensures !Run(c, st, actions).Idle?
    decreases |actions|
  {
    hide Inv, Step, Beyond;
    if actions != [] {
      StepSafe(c, st, actions[0]);
      match Step(c, st, actions[0])
      case Next(st1) => RunFrom(c, st1, actions[1..]);
      case Idle => RunFrom(c, st, actions[1..]);
      case Error =>
    }
  }

  /** A state some run leads to. */
  ghost predicate Reachable(c: Config, st: State)
  {
    exists sendSlots: seq<Slot<Elem>>, recvSlots: seq<Slot<Elem>>, mem: map<nat, Bytes>, actions: seq<Action> ::
      Setup(c, sendSlots, recvSlots, mem) && Run(c, Init(c, sendSlots, recvSlots, mem), actions) == Next(st)
  }

  lemma {:induction false} ReachableInv(c: Config, st: State)
    requires Reachable(c, st)
    ensures Inv(c, st)
  {
    hide Inv, Run;
    var sendSlots: seq<Slot<Elem>>, recvSlots: seq<Slot<Elem>>, mem: map<nat, Bytes>, actions: seq<Action> :|
      Setup(c, sendSlots, recvSlots, mem) && Run(c, Init(c, sendSlots, recvSlots, mem), actions) == Next(st);
    InitInv(c, sendSlots, recvSlots, mem);
    RunFrom(c, Init(c, sendSlots, recvSlots, mem), actions);
  }

  // ---------------------------------------------------------------------------------------------
  // The theorems

  /**
   A run ends in an error if and only if one of its actions goes beyond the window: apart from that no
   handler returns one, no completion meets a freed request, no lookup is refused, no write leaves its
   buffer. It holds for any order in which the applications hand their requests to `test`.
   */
  lemma {:induction false} RunFailsIff(c: Config, sendSlots: seq<Slot<Elem>>, recvSlots: seq<Slot<Elem>>, mem: map<nat, Bytes>, actions: seq<Action>)
    requires Setup(c, sendSlots, recvSlots, mem)
    ensures var start := Init(c, sendSlots, recvSlots, mem);
            && (Run(c, start, actions).Error? <==> GoesBeyond(c, start, actions))
            && (Run(c, start, actions).Next? <==> !GoesBeyond(c, start, actions))
  {
    hide Inv, Run, GoesBeyond;
    InitInv(c, sendSlots, recvSlots, mem);
    RunFrom(c, Init(c, sendSlots, recvSlots, mem), actions);
  }

  /** Every call that is accepted is less than s (send) or r (receive) past its side's oldest request. */
  predicate Within(c: Config, st: State, actions: seq<Action>, s: nat, r: nat)
    requires ValidConfig(c)
    decreases |actions|
  {
    actions == [] || !WellFormed(st)
    || (&& (Step(c, st, actions[0]).Idle?
            || ((actions[0].Send? ==> st.sent < st.sendLow + s) && (actions[0].Recv? ==> st.received < st.recvLow + r)))
        && Within(c, After(c, st, actions[0]), actions[1..], s, r))
  }

  /** The calls accepted and the requests handed back are counted, and nothing else is. */
  predicate Tallied(st: State, o: Outcome, a: Action)
  {
    o.Next? ==>
      && o.st.sent == st.sent + (if a.Send? then 1 else 0) && o.st.received == st.received + (if a.Recv? then 1 else 0)
      && o.st.sendLow >= st.sendLow && o.st.recvLow >= st.recvLow
      && o.st.sizes.Keys == (if a.RetireSend? then st.sizes.Keys + {a.n} else st.sizes.Keys)
      && o.st.deliveries.Keys == (if a.RetireRecv? then st.deliveries.Keys + {a.n} else st.deliveries.Keys)
  }

  lemma {:induction false} Tally(c: Config, st: State, a: Action)
    requires ValidConfig(c) && WellFormed(st)
    ensures Tallied(st, Step(c, st, a), a)
  {
    hide Tallied, DoSend, DoRecv, CtrlArrives, EagerArrives, WriteLands, WriteCounted, WriteAcked, EagerAcked, CtrlAcked,
      CopyDone, DrainSend, DrainRecv, TestSend, TestRecv, MoveCounter;
    match a
    case Send(data, accept) => TallySend(c, st, a);
    case Recv(buf, len, acceptCtrl, acceptCopy) => TallyRecv(c, st, a);
    case OnCtrl(n, i, accept) => TallyCtrl(c, st, a);
    case OnEager(n, i, accepted) => TallyEager(c, st, a);
    case OnWrite(n, i) => TallyWrite(c, st, a);
    case RetireSend(n) => TallyTest(c, st, a);
    case RetireRecv(n) => TallyTest(c, st, a);
    case PumpSend(accept) => TallyPump(c, st, a);
    case PumpRecv(accepted) => TallyPump(c, st, a);
    case _ => TallyNetwork(c, st, a);
  }

  lemma {:induction false} TallySend(c: Config, st: State, a: Action)
    requires ValidConfig(c) && WellFormed(st) && a.Send?
    ensures Tallied(st, DoSend(c, st, a.data, a.accept), a)
  {
    hide LookUpNext, Enter, SentMsg, NewSend, Advance, PushIf;
  }

  lemma {:induction false} TallyRecv(c: Config, st: State, a: Action)
    requires ValidConfig(c) && WellFormed(st) && a.Recv?
    ensures Tallied(st, DoRecv(st, a.buf, a.len, a.acceptCtrl, a.acceptCopy), a)
  {
    hide LookUpNext, RecvWith, BufferFree, Tallied;
    forall held: Option<EagerMsg>
      ensures Tallied(st, RecvWith(st, Destination(a.buf, a.len), a.len, held, a.acceptCtrl, a.acceptCopy), a)
    {
      TallyRecvWith(c, st, a, held);
    }
    assert Tallied(st, Idle, a) && Tallied(st, Error, a) by {
      TallyNone(st, a);
    }
  }

  lemma {:induction false} TallyNone(st: State, a: Action)
    ensures Tallied(st, Idle, a) && Tallied(st, Error, a)
  {
  }

  lemma {:induction false} TallyRecvWith(c: Config, st: State, a: Action, held: Option<EagerMsg>)
    requires ValidConfig(c) && WellFormed(st) && a.Recv?
    ensures Tallied(st, RecvWith(st, Destination(a.buf, a.len), a.len, held, a.acceptCtrl, a.acceptCopy), a)
  {
    hide Enter, ReceivedMsg, PushIf;
  }

  lemma {:induction false} TallyCtrl(c: Config, st: State, a: Action)
    requires ValidConfig(c) && WellFormed(st) && a.OnCtrl?
    ensures Tallied(st, CtrlArrives(c, st, a.n, a.i, a.accept), a)
  {
    hide Insert, FindReq, CtrlToSend, FromRemote, Advance, PushIf;
  }

  lemma {:induction false} TallyEager(c: Config, st: State, a: Action)
    requires ValidConfig(c) && WellFormed(st) && a.OnEager?
    ensures Tallied(st, EagerArrives(c, st, a.n, a.i, a.copyAccepted), a)
  {
    hide Insert, FindReq, EagerToRecv, ImmComm, ImmSeq, PushIf;
  }

  lemma {:induction false} TallyWrite(c: Config, st: State, a: Action)
    requires ValidConfig(c) && WellFormed(st) && a.OnWrite?
    ensures Tallied(st, WriteCounted(c, st, a.n, a.i), a)
  {
    hide FindReq, AckSegment, ImmComm, ImmSeq, ImmSegs;
  }

  lemma {:induction false} TallyTest(c: Config, st: State, a: Action)
    requires ValidConfig(c) && WellFormed(st) && (a.RetireSend? || a.RetireRecv?)
    ensures Tallied(st, Step(c, st, a), a)
  {
    hide Complete, Skip;
  }

  lemma {:induction false} TallyPump(c: Config, st: State, a: Action)
    requires ValidConfig(c) && WellFormed(st) && (a.PumpSend? || a.PumpRecv?)
    ensures Tallied(st, Step(c, st, a), a)
  {
    hide Progress, TryCtrl, TryCopy;
  }

  lemma {:induction false} TallyNetwork(c: Config, st: State, a: Action)
    requires ValidConfig(c) && WellFormed(st)
    requires a.OnLanding? || a.OnWriteAck? || a.OnEagerAck? || a.OnCtrlAck? || a.OnCopy? || a.OtherTraffic?
    ensures Tallied(st, Step(c, st, a), a)
  {
    hide Overlay, AckSend, AckRecv;
  }

  lemma {:induction false} InReach(c: Config, st: State, a: Action, s: nat, r: nat)
    requires Inv(c, st) && s + r <= SLOTS && st.sent <= st.sendLow + s && st.received <= st.recvLow + r
    requires (a.Send? ==> st.sent < st.sendLow + s) && (a.Recv? ==> st.received < st.recvLow + r)
    ensures !Beyond(st, a)
  {
    hide Inv;
    Lows(c, st);
    if a.OnCtrl? && FarCtrl(st, a.n, a.i) {
      CtrlIsNear(c, st, a.n, a.i);
    }
    if a.OnEager? && FarEager(st, a.n, a.i) {
      EagerIsNear(c, st, a.n, a.i);
    }
  }

  lemma {:induction false} WithinFrom(c: Config, st: State, actions: seq<Action>, s: nat, r: nat)
    requires ValidConfig(c) && Inv(c, st) && s + r <= SLOTS && st.sent <= st.sendLow + s && st.received <= st.recvLow + r
    requires Within(c, st, actions, s, r)
    ensures !GoesBeyond(c, st, actions)
    decreases |actions|
  {
    hide Inv, Step, Beyond;
    if actions != [] {
      var a := actions[0];
      StepSafe(c, st, a);
      if !Step(c, st, a).Idle? {
        InReach(c, st, a, s, r);
        Tally(c, st, a);
      }
      WithinFrom(c, After(c, st, a), actions[1..], s, r);
    }
  }

  /**
   The condition for callers: if sends stay less than s past the oldest send that `test` has not
   handed back, receives less than r past the oldest receive, and s + r is at most 256, no run fails,
   in whatever order `test` is called.
   */
  lemma {:induction false} NarrowRunsSucceed(c: Config, sendSlots: seq<Slot<Elem>>, recvSlots: seq<Slot<Elem>>, mem: map<nat, Bytes>, actions: seq<Action>, s: nat, r: nat)
    requires Setup(c, sendSlots, recvSlots, mem) && s + r <= SLOTS
    requires Within(c, Init(c, sendSlots, recvSlots, mem), actions, s, r)
    ensures Run(c, Init(c, sendSlots, recvSlots, mem), actions).Next?
  {
    hide Inv, Run, GoesBeyond, Within;
    InitInv(c, sendSlots, recvSlots, mem);
    WithinFrom(c, Init(c, sendSlots, recvSlots, mem), actions, s, r);
    RunFailsIff(c, sendSlots, recvSlots, mem, actions);
  }

  /** Each side hands back its oldest request first. */
  predicate InOrder(c: Config, st: State, actions: seq<Action>)
    requires ValidConfig(c)
    decreases |actions|
  {
    actions == [] || !WellFormed(st)
    || (&& (actions[0].RetireSend? ==> actions[0].n == st.sendLow)
        && (actions[0].RetireRecv? ==> actions[0].n == st.recvLow)
        && InOrder(c, After(c, st, actions[0]), actions[1..]))
  }

  predicate NoGaps(st: State)
  {
    st.sizes.Keys == Below(st.sendLow) && st.deliveries.Keys == Below(st.recvLow)
  }

  /** With no gaps, the limit on outstanding requests is a limit on the distance to the oldest one. */
  lemma {:induction false} GaplessCalls(c: Config, st: State, a: Action)
    requires Inv(c, st) && ValidConfig(c) && WellFormed(st) && NoGaps(st) && !Step(c, st, a).Idle?
    ensures a.Send? ==> st.sent < st.sendLow + MAX_REQUESTS
    ensures a.Recv? ==> st.received < st.recvLow + MAX_REQUESTS
  {
    hide Messages, SendRing, RecvRing, SendQueue, RecvQueue, Memory, Reports, LookUpNext, SendWith, RecvWith, BufferFree;
    assert |st.sizes.Keys| == st.sendLow && |st.deliveries.Keys| == st.recvLow;
  }

  lemma {:induction false} StillNoGaps(c: Config, st: State, a: Action)
    requires Inv(c, st) && ValidConfig(c) && WellFormed(st) && NoGaps(st)
    requires (a.RetireSend? ==> a.n == st.sendLow) && (a.RetireRecv? ==> a.n == st.recvLow)
    requires Step(c, st, a).Next? && Inv(c, Step(c, st, a).st)
    ensures NoGaps(Step(c, st, a).st)
  {
    hide Step, Inv, LowOf, Below;
    Tally(c, st, a);
    var st' := Step(c, st, a).st;
    LowsAre(c, st');
    LowIsNext(st.sendLow, st'.sendLow, st.sizes.Keys, st'.sizes.Keys);
    LowIsNext(st.recvLow, st'.recvLow, st.deliveries.Keys, st'.deliveries.Keys);
  }

  lemma {:induction false} LowsAre(c: Config, st: State)
    requires Inv(c, st)
    ensures LowOf(st.sendLow, st.sizes.Keys) && LowOf(st.recvLow, st.deliveries.Keys)
  {
  }

  lemma {:induction false} LowIsNext(low: nat, low': nat, back: set<nat>, back': set<nat>)
    requires back == Below(low) && (back' == back || back' == back + {low}) && LowOf(low', back')
    ensures back' == Below(low')
  {
    var next := if back' == back then low else low + 1;
    assert back' == Below(next);
    assert low' < next ==> low' in back';
    assert next < low' ==> next in back';
  }

  lemma {:induction false} InOrderIsNarrow(c: Config, st: State, actions: seq<Action>)
    requires ValidConfig(c) && Inv(c, st) && NoGaps(st) && InOrder(c, st, actions)
    ensures Within(c, st, actions, MAX_REQUESTS, MAX_REQUESTS)
    decreases |actions|
  {
    hide Inv, Step, Beyond, NoGaps;
    if actions != [] {
      var a := actions[0];
      StepSafe(c, st, a);
      if !Step(c, st, a).Idle? {
        GaplessCalls(c, st, a);
        if Step(c, st, a).Next? {
          StillNoGaps(c, st, a);
        }
      }
      InOrderIsNarrow(c, After(c, st, a), actions[1..]);
    }
  }

  /** In particular, no run in which both applications hand back their requests in order ends in an error. */
  lemma {:induction false} NoRunFails(c: Config, sendSlots: seq<Slot<Elem>>, recvSlots: seq<Slot<Elem>>, mem: map<nat, Bytes>, actions: seq<Action>)
    requires Setup(c, sendSlots, recvSlots, mem) && InOrder(c, Init(c, sendSlots, recvSlots, mem), actions)
    ensures Run(c, Init(c, sendSlots, recvSlots, mem), actions).Next?
  {
    hide Inv, Run, Within, InOrder;
    var start := Init(c, sendSlots, recvSlots, mem);
    InitInv(c, sendSlots, recvSlots, mem);
    assert NoGaps(start);
    InOrderIsNarrow(c, start, actions);
    NarrowRunsSucceed(c, sendSlots, recvSlots, mem, actions, MAX_REQUESTS, MAX_REQUESTS);
  }

  /**
   End-to-end delivery. After any run, what the receiving application got back for a message is the
   front of what the sending application sent under the same number, cut to the shorter of the two
   lengths; and every size reported to the sending application is that length.
   */
  lemma {:induction false} Delivery(c: Config, st: State)
    requires Reachable(c, st)
    ensures forall n :: n in st.deliveries ==>
              && n < |st.outbox| && n < |st.rooms|
              && st.deliveries[n] == st.outbox[n][..Min(|st.outbox[n]|, st.rooms[n])]
    ensures forall n :: n in st.sizes ==>
              n < |st.outbox| && n < |st.rooms| && st.sizes[n] == Min(|st.outbox[n]|, st.rooms[n])
  {
    ReachableInv(c, st);
  }

  /**
   Agreement before hand-back: as soon as a message's receive request is complete its buffer already
   holds the bytes, and both requests, once complete, report the same size.
   */
  lemma {:induction false} CompletionMeansArrival(c: Config, st: State, n: nat)
    requires Reachable(c, st) && n !in st.deliveries
    requires MsgOf(st, n).recv.Some? && MsgOf(st, n).recv.value.done
    ensures n < |st.outbox| && n < |st.rooms|
    ensures var p := MsgOf(st, n).recv.value;
            var len := Min(|st.outbox[n]|, st.rooms[n]);
            && p.size == len && p.buf in st.mem && len <= |st.mem[p.buf]|
            && st.mem[p.buf][..len] == st.outbox[n][..len]
    ensures MsgOf(st, n).send.Some? && MsgOf(st, n).send.value.done ==>
              MsgOf(st, n).send.value.size == MsgOf(st, n).recv.value.size
  {
    ReachableInv(c, st);
    RecvDone(c, st, n);
    if MsgOf(st, n).send.value.done {
      SendDone(c, st, n);
    }
  }

  /**
   Sequence numbers at the sender. The 10-bit number of a ctrl message under way is read right: there
   is no room for it if its message is 256 or more past the oldest send, it is not started if the send
   has not been called, and otherwise it leads to the send request of the very message that the ctrl
   message was sent for. It is never taken for a completed one or for another message's.
   */
  lemma {:induction false} CtrlNumbersAreSafe(c: Config, st: State, n: nat, i: nat)
    requires Reachable(c, st) && i < |MsgOf(st, n).ctrls| && !MsgOf(st, n).ctrls[i].arrived
    ensures GoodRing(st.s.ring)
    ensures var x := MsgOf(st, n).ctrls[i].msg.seqNum;
            var status := IdxStatus(st.s.ring, x);
            && status == (if n >= st.sendLow + SLOTS then Unavailable else if n >= st.sent then NotStarted else InProgress)
            && (status == InProgress ==> FindReq(st.s.ring, x) == Some(n))
  {
    hide Messages, RecvRing, SendQueue, RecvQueue, Memory, Reports, Reachable;
    ReachableInv(c, st);
    CtrlIsNear(c, st, n, i);
    var m := MsgOf(st, n);
    MsgHolds(c, st, n);
    if n >= st.sendLow + SLOTS {
      InsertFar(st.s.ring, st.sendLow, n, ReqOf(n), Req);
    } else {
      StatusAgrees(st.s.ring, st.sendLow, n);
      assert EntryOfMsg(st.s.ring, st.sendLow, n) == SendEntry(st.sent, n in st.sizes, n, m);
      if n < st.sent {
        FindSend(c, st, n);
      }
    }
  }

  /** Sequence numbers at the receiver, for eager messages under way. */
  lemma {:induction false} EagerNumbersAreSafe(c: Config, st: State, n: nat, i: nat)
    requires Reachable(c, st) && i < |MsgOf(st, n).eagers| && !MsgOf(st, n).eagers[i].arrived
    ensures GoodRing(st.r.ring)
    ensures var x := ImmSeq(MsgOf(st, n).eagers[i].msg.imm);
            var status := IdxStatus(st.r.ring, x);
            && status == (if n >= st.recvLow + SLOTS then Unavailable else if n >= st.received then NotStarted else InProgress)
            && (status == InProgress ==> FindReq(st.r.ring, x) == Some(n))
  {
    hide Messages, SendRing, SendQueue, RecvQueue, Memory, Reports, Reachable, ImmSeq;
    ReachableInv(c, st);
    EagerIsNear(c, st, n, i);
    ImmRoundTrip(c.commId, n % SEQ_SPAN, 1);
    var m := MsgOf(st, n);
    MsgHolds(c, st, n);
    if n >= st.recvLow + SLOTS {
      InsertFar(st.r.ring, st.recvLow, n, ReqOf(n), Req);
    } else {
      StatusAgrees(st.r.ring, st.recvLow, n);
      assert EntryOfMsg(st.r.ring, st.recvLow, n) == RecvEntry(st.received, n in st.deliveries, n, m);
      if n < st.received {
        FindRecv(c, st, n);
      }
    }
  }

  /**
   Writes stay where they belong: a write that has not been placed yet targets the buffer of a receive
   that is still live and incomplete, and lies inside the part of it that the message may fill.
   */
  lemma {:induction false} WritesHitLiveBuffers(c: Config, st: State, n: nat, i: nat)
    requires Reachable(c, st) && i < |MsgOf(st, n).writes| && MsgOf(st, n).writes[i].stage == Flying
    ensures LiveRecv(st, n) && !MsgOf(st, n).recv.value.done
    ensures var w, p := MsgOf(st, n).writes[i].msg, MsgOf(st, n).recv.value;
            w.buf == p.buf && w.offset + |w.data| <= p.dstLen
  {
    ReachableInv(c, st);
    var m := MsgOf(st, n);
    WriteCarries(c, n, m, i);
    NotAllIn(c, n, m, i);
  }

  /**
   Exactly-once striping: whatever posts were refused on the way, the writes posted for a message are
   a prefix of its schedule in order, the schedule cuts the message into contiguous stripes, and the
   send completes exactly when every stripe has been posted and acknowledged once.
   */
  lemma {:induction false} StripesPostedOnce(c: Config, st: State, n: nat)
    requires Reachable(c, st) && MsgOf(st, n).writes != []
    ensures n < |st.outbox| && n < |st.rooms| && MsgOf(st, n).send.Some?
    ensures var m, q := MsgOf(st, n), MsgOf(st, n).send.value;
            && |m.writes| <= |q.schedule| && q.remote.Some?
            && Contiguous(q.schedule, 0, Min(|st.outbox[n]|, st.rooms[n]))
            && (forall i :: 0 <= i < |m.writes| ==> m.writes[i].msg == WriteOf(q, q.schedule[i]))
            && (q.done <==> |m.writes| == |q.schedule| && Acked(m.writes) == |m.writes|)
  {
    ReachableInv(c, st);
    WriteCarries(c, n, MsgOf(st, n), 0);
  }

  /** Nothing is queued, under way or waiting to be handled for this message. */
  predicate Settled(m: Msg)
  {
    && (forall i :: 0 <= i < |m.ctrls| ==> m.ctrls[i].arrived && m.ctrls[i].acked)
    && (forall i :: 0 <= i < |m.eagers| ==> m.eagers[i].arrived && m.eagers[i].acked)
    && (forall i :: 0 <= i < |m.writes| ==> m.writes[i].stage == Counted && m.writes[i].acked)
    && (forall i :: 0 <= i < |m.copies| ==> m.copies[i].finished)
  }

  lemma {:induction false} AllSettledCounts(ops: seq<WriteOp>)
    requires forall i :: 0 <= i < |ops| ==> ops[i].stage == Counted && ops[i].acked
    ensures Acked(ops) == |ops| && CountedOps(ops) == |ops|
  {
    if ops != [] {
      AllSettledCounts(ops[..|ops| - 1]);
    }
  }

  /**
   No message is forgotten: once the network has nothing left to do, every message that was both sent
   and received is complete on both sides.
   */
  lemma {:induction false} QuietMeansComplete(c: Config, st: State, n: nat)
    requires Reachable(c, st) && st.s.pending == [] && st.r.pending == []
    requires Settled(MsgOf(st, n)) && n < |st.outbox| && n < |st.rooms|
    ensures MsgOf(st, n).send.Some? && MsgOf(st, n).send.value.done
    ensures MsgOf(st, n).recv.Some? && MsgOf(st, n).recv.value.done
  {
    ReachableInv(c, st);
    QuietDone(c, st, n);
  }

  lemma {:induction false} QuietDone(c: Config, st: State, n: nat)
    requires Inv(c, st) && st.s.pending == [] && st.r.pending == []
    requires Settled(MsgOf(st, n)) && n < st.sent && n < st.received
    ensures MsgOf(st, n).send.Some? && MsgOf(st, n).send.value.done
    ensures MsgOf(st, n).recv.Some? && MsgOf(st, n).recv.value.done
  {
    var m := MsgOf(st, n);
    assert n !in st.s.pending && CtrlPost(n) !in st.r.pending && CopyPost(n) !in st.r.pending;
    assert CtrlIn(m) && CtrlAckIn(m);
    AllSettledCounts(m.writes);
    if m.send.value.eager {
      assert EagerIn(m) && EagerAckIn(m);
    }
  }
}

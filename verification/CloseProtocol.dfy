/**
 Deferred close: when may a send communicator and its comm id go away?

 A device hands out comm ids and keeps a table from ids to open communicators; incoming ctrl and
 close messages carry nothing but an id. The receive communicator counts the ctrl messages it sent
 and tells the number in its close message; the send communicator is destroyed, and its id recycled,
 once it has handled that many. Messages may overtake each other freely.
 */
module CloseProtocol {

  /** Progress of a receive communicator's close message. */
  datatype CloseReq = NotSent | Sent | Delivered

  /**
   One connection: both communicators and the messages between them. `queued` ctrl messages wait for a
   post, `flying` ones for the sender, `unacked` ones for their local completion. `closes` holds the
   counters of close messages under way.
   */
  datatype Conn = Conn(
    id: nat,
    active: bool, sent: nat, delivered: nat, closeReq: CloseReq, queued: nat, unacked: nat,
    flying: nat, closes: seq<nat>,
    received: nat, closeSeen: bool, expected: nat, finalizing: bool, destroyed: bool)

  /** What a comm id of the device stands for: the send communicator of a connection, or something else. */
  datatype Owner = SendComm(k: nat) | Other

  datatype Device = Device(conns: seq<Conn>, comms: map<nat, Owner>)

  datatype Outcome = Next(d: Device) | Error | Idle

  function SetConn(d: Device, k: nat, c: Conn): Device
    requires k < |d.conns|
  {
    d.(conns := d.conns[k := c])
  }

  // ---------------------------------------------------------------------------------------------
  // Opening communicators

  /** A connection is set up with an id taken from the pool. */
  function Connect(d: Device, id: nat): Outcome
  {
    if id in d.comms then Idle
    else
      var c := Conn(id, true, 0, 0, NotSent, 0, 0, 0, [], 0, false, 0, false, false);
      Next(Device(d.conns + [c], d.comms[id := SendComm(|d.conns|)]))
  }

  /** Listen and receive communicators take ids from the same pool. */
  function OpenOther(d: Device, id: nat): Outcome
  {
    if id in d.comms then Idle else Next(d.(comms := d.comms[id := Other]))
  }

  function CloseOther(d: Device, id: nat): Outcome
  {
    if id in d.comms && d.comms[id].Other? then Next(d.(comms := d.comms - {id})) else Idle
  }

  // ---------------------------------------------------------------------------------------------
  // The receive communicator

  /** `recv` counts its ctrl message before it tries to post it. */
  function RecvCall(d: Device, k: nat): Outcome
  {
    if k >= |d.conns| || !d.conns[k].active then Idle
    else Next(SetConn(d, k, d.conns[k].(sent := d.conns[k].sent + 1, queued := d.conns[k].queued + 1)))
  }

  function CtrlPosted(d: Device, k: nat): Outcome
  {
    if k >= |d.conns| || d.conns[k].queued == 0 then Idle
    else
      var c := d.conns[k];
      Next(SetConn(d, k, c.(queued := c.queued - 1, flying := c.flying + 1, unacked := c.unacked + 1)))
  }

  /** set_send_ctrl_completed. */
  function CtrlAcked(d: Device, k: nat): Outcome
  {
    if k >= |d.conns| || d.conns[k].unacked == 0 then Idle
    else Next(SetConn(d, k, d.conns[k].(unacked := d.conns[k].unacked - 1, delivered := d.conns[k].delivered + 1)))
  }

  /** recv_close_deferred. */
  function RecvClose(d: Device, k: nat): Outcome
  {
    if k >= |d.conns| || !d.conns[k].active then Idle
    else Next(SetConn(d, k, d.conns[k].(active := false)))
  }

  /** recv_comm_process_all_finalizing, before the close message has been sent. */
  function RecvFinalize(d: Device, k: nat): Outcome
  {
    if k >= |d.conns| || d.conns[k].active || !d.conns[k].closeReq.NotSent? then Idle
    else if d.conns[k].delivered != d.conns[k].sent then Idle
    else
      var c := d.conns[k];
      Next(SetConn(d, k, c.(closeReq := Sent, closes := c.closes + [c.delivered])))
  }

  function CloseAcked(d: Device, k: nat): Outcome
  {
    if k >= |d.conns| || !d.conns[k].closeReq.Sent? then Idle
    else Next(SetConn(d, k, d.conns[k].(closeReq := Delivered)))
  }

  // ---------------------------------------------------------------------------------------------
  // The send communicator: handlers are led by the id alone

  /** A ctrl message of connection k arrives: the communicator found under its id counts it. */
  function CtrlHandled(d: Device, k: nat): Outcome
  {
    if k >= |d.conns| || d.conns[k].flying == 0 then Idle
    else
      var d1 := SetConn(d, k, d.conns[k].(flying := d.conns[k].flying - 1));
      var id := d.conns[k].id;
      if id !in d.comms || !d.comms[id].SendComm? || d.comms[id].k >= |d.conns| then Error
      else
        var j := d.comms[id].k;
        Next(SetConn(d1, j, d1.conns[j].(received := d1.conns[j].received + 1)))
  }

  /** handle_close_msg_recv for the i-th close message under way of connection k. */
  function CloseHandled(d: Device, k: nat, i: nat): Outcome
  {
    if k >= |d.conns| || i >= |d.conns[k].closes| then Idle
    else
      var c := d.conns[k];
      var counter := c.closes[i];
      var d1 := SetConn(d, k, c.(closes := c.closes[..i] + c.closes[i + 1..]));
      if c.id !in d.comms || !d.comms[c.id].SendComm? || d.comms[c.id].k >= |d.conns| then Error
      else
        var j := d.comms[c.id].k;
        if d1.conns[j].closeSeen then Error
        else Next(SetConn(d1, j, d1.conns[j].(closeSeen := true, expected := counter)))
  }

  /** send_close_deferred. */
  function SendClose(d: Device, k: nat): Outcome
  {
    if k >= |d.conns| || d.conns[k].finalizing then Idle
    else Next(SetConn(d, k, d.conns[k].(finalizing := true)))
  }

  /** The test of send_comm_process_all_finalizing. */
  predicate ReadyToDestroy(c: Conn)
  {
    c.closeSeen && c.received == c.expected
  }

  /** send_comm_destroy: the table entry is cleared and the id goes back to the pool. */
  function SendFinalize(d: Device, k: nat): Outcome
  {
    if k >= |d.conns| || !d.conns[k].finalizing || d.conns[k].destroyed || !ReadyToDestroy(d.conns[k]) then Idle
    else Next(Device(d.conns[k := d.conns[k].(destroyed := true)], d.comms - {d.conns[k].id}))
  }

  datatype Action =
    | DoConnect(id: nat) | DoOpenOther(id: nat) | DoCloseOther(id: nat)
    | DoRecvCall(k: nat) | DoCtrlPosted(k: nat) | DoCtrlAcked(k: nat)
    | DoRecvClose(k: nat) | DoRecvFinalize(k: nat) | DoCloseAcked(k: nat)
    | DoCtrlHandled(k: nat) | DoCloseHandled(k: nat, i: nat)
    | DoSendClose(k: nat) | DoSendFinalize(k: nat)

  function Step(d: Device, a: Action): Outcome
  {
    match a
    case DoConnect(id) => Connect(d, id)
    case DoOpenOther(id) => OpenOther(d, id)
    case DoCloseOther(id) => CloseOther(d, id)
    case DoRecvCall(k) => RecvCall(d, k)
    case DoCtrlPosted(k) => CtrlPosted(d, k)
    case DoCtrlAcked(k) => CtrlAcked(d, k)
    case DoRecvClose(k) => RecvClose(d, k)
    case DoRecvFinalize(k) => RecvFinalize(d, k)
    case DoCloseAcked(k) => CloseAcked(d, k)
    case DoCtrlHandled(k) => CtrlHandled(d, k)
    case DoCloseHandled(k, i) => CloseHandled(d, k, i)
    case DoSendClose(k) => SendClose(d, k)
    case DoSendFinalize(k) => SendFinalize(d, k)
  }

  function Run(d: Device, actions: seq<Action>): Outcome
    decreases |actions|
  {
    if actions == [] then Next(d)
    else
      match Step(d, actions[0])
      case Next(d1) => Run(d1, actions[1..])
      case Idle => Run(d, actions[1..])
      case Error => Error
  }

  const FRESH: Device := Device([], map[])

  // ---------------------------------------------------------------------------------------------
  // Invariant

  /** Every ctrl message ever counted is queued, under way or handled; and the close message is the last word. */
  predicate ConnOk(c: Conn)
  {
    && c.sent == c.queued + c.flying + c.received
    && c.sent == c.queued + c.unacked + c.delivered
    && (c.closeReq.NotSent? ==> c.closes == [] && !c.closeSeen)
    && (!c.closeReq.NotSent? ==>
          !c.active && c.delivered == c.sent && |c.closes| + (if c.closeSeen then 1 else 0) == 1)
    && (forall i :: 0 <= i < |c.closes| ==> c.closes[i] == c.sent)
    && (c.closeSeen ==> c.expected == c.sent)
    && (c.destroyed ==> ReadyToDestroy(c))
  }

  /** The table leads from an id to the one communicator that still owns it. */
  ghost predicate TableOk(d: Device)
  {
    && (forall k :: 0 <= k < |d.conns| && !d.conns[k].destroyed ==>
          d.conns[k].id in d.comms && d.comms[d.conns[k].id] == SendComm(k))
    && (forall id :: id in d.comms && d.comms[id].SendComm? ==>
          d.comms[id].k < |d.conns| && !d.conns[d.comms[id].k].destroyed && d.conns[d.comms[id].k].id == id)
  }

  ghost predicate Inv(d: Device)
  {
    (forall k :: 0 <= k < |d.conns| ==> ConnOk(d.conns[k])) && TableOk(d)
  }

  /** A connection with anything under way has not been destroyed, so its id still leads to it. */
  lemma {:induction false} UnderWayIsOpen(d: Device, k: nat)
    requires Inv(d) && k < |d.conns| && (d.conns[k].flying > 0 || d.conns[k].closes != [])
    ensures !d.conns[k].destroyed && d.conns[k].id in d.comms && d.comms[d.conns[k].id] == SendComm(k)
  {
    assert ConnOk(d.conns[k]);
  }

  /** A step that changes one connection and leaves ids and table alone. */
  lemma {:induction false} OneConn(d: Device, d': Device, k: nat, c: Conn)
    requires Inv(d) && k < |d.conns| && d' == d.(conns := d.conns[k := c])
    requires ConnOk(c) && c.id == d.conns[k].id && c.destroyed == d.conns[k].destroyed
    ensures Inv(d')
  {
    forall j | 0 <= j < |d'.conns| ensures ConnOk(d'.conns[j]) {
      assert j != k ==> d'.conns[j] == d.conns[j];
    }
  }

  lemma {:induction false} ConnectSafe(d: Device, id: nat)
    requires Inv(d) && id !in d.comms
    ensures Inv(Connect(d, id).d)
  {
    var d' := Connect(d, id).d;
    forall j | 0 <= j < |d'.conns| ensures ConnOk(d'.conns[j]) {
      assert j < |d.conns| ==> d'.conns[j] == d.conns[j];
    }
  }

  lemma {:induction false} CtrlHandledSafe(d: Device, k: nat)
    requires Inv(d)
    ensures !CtrlHandled(d, k).Error? && (CtrlHandled(d, k).Next? ==> Inv(CtrlHandled(d, k).d))
  {
    if k < |d.conns| && d.conns[k].flying > 0 {
      UnderWayIsOpen(d, k);
      var c := d.conns[k];
      var c' := c.(flying := c.flying - 1, received := c.received + 1);
      assert CtrlHandled(d, k).d.conns == d.conns[k := c'];
      OneConn(d, CtrlHandled(d, k).d, k, c');
    }
  }

  lemma {:induction false} CloseHandledSafe(d: Device, k: nat, i: nat)
    requires Inv(d)
    ensures !CloseHandled(d, k, i).Error? && (CloseHandled(d, k, i).Next? ==> Inv(CloseHandled(d, k, i).d))
  {
    if k < |d.conns| && i < |d.conns[k].closes| {
      UnderWayIsOpen(d, k);
      var c := d.conns[k];
      assert ConnOk(c);
      var c' := c.(closes := c.closes[..i] + c.closes[i + 1..], closeSeen := true, expected := c.closes[i]);
      assert c'.closes == [];
      assert CloseHandled(d, k, i).d.conns == d.conns[k := c'];
      OneConn(d, CloseHandled(d, k, i).d, k, c');
    }
  }

  /** Destroying a communicator takes exactly its own entry out of the table. */
  lemma {:induction false} SendFinalizeSafe(d: Device, k: nat)
    requires Inv(d)
    ensures SendFinalize(d, k).Next? ==> Inv(SendFinalize(d, k).d)
  {
    if SendFinalize(d, k).Next? {
      var d' := SendFinalize(d, k).d;
      assert ConnOk(d.conns[k]);
      forall j | 0 <= j < |d'.conns| ensures ConnOk(d'.conns[j]) {
        assert j != k ==> d'.conns[j] == d.conns[j];
      }
      forall j | 0 <= j < |d'.conns| && !d'.conns[j].destroyed
        ensures d'.conns[j].id in d'.comms && d'.comms[d'.conns[j].id] == SendComm(j)
      {
        assert d'.conns[j] == d.conns[j];
      }
    }
  }

  lemma {:induction false} RecvSideSafe(d: Device, a: Action)
    requires Inv(d)
    requires a.DoRecvCall? || a.DoCtrlPosted? || a.DoCtrlAcked? || a.DoRecvClose? || a.DoRecvFinalize?
             || a.DoCloseAcked? || a.DoSendClose?
    ensures !Step(d, a).Error? && (Step(d, a).Next? ==> Inv(Step(d, a).d))
  {
    if Step(d, a).Next? {
      assert ConnOk(d.conns[a.k]);
      OneConn(d, Step(d, a).d, a.k, Step(d, a).d.conns[a.k]);
    }
  }

  lemma {:induction false} StepSafe(d: Device, a: Action)
    requires Inv(d)
    ensures !Step(d, a).Error? && (Step(d, a).Next? ==> Inv(Step(d, a).d))
  {
    match a
    case DoConnect(id) =>
      if id !in d.comms {
        ConnectSafe(d, id);
      }
    case DoOpenOther(id) =>
    case DoCloseOther(id) =>
    case DoCtrlHandled(k) => CtrlHandledSafe(d, k);
    case DoCloseHandled(k, i) => CloseHandledSafe(d, k, i);
    case DoSendFinalize(k) => SendFinalizeSafe(d, k);
    case _ => RecvSideSafe(d, a);
  }

  lemma {:induction false} RunSafe(d: Device, actions: seq<Action>)
    requires Inv(d)
    ensures Run(d, actions).Next? && Inv(Run(d, actions).d)
    decreases |actions|
  {
    if actions != [] {
      StepSafe(d, actions[0]);
      match Step(d, actions[0])
      case Next(d1) => RunSafe(d1, actions[1..]);
      case Idle => RunSafe(d, actions[1..]);
      case Error =>
    }
  }

  // ---------------------------------------------------------------------------------------------
  // The theorems

  /**
   Close safety: after any run, in any order of arrival, a destroyed send communicator has nothing
   queued or under way any more, it has handled every ctrl message of its connection, and its peer
   will never send another one.
   */
  lemma {:induction false} DestroyedIsSilent(actions: seq<Action>, k: nat)
    ensures Run(FRESH, actions).Next?
    ensures var d := Run(FRESH, actions).d;
            k < |d.conns| && d.conns[k].destroyed ==>
              var c := d.conns[k];
              c.queued == 0 && c.flying == 0 && c.closes == [] && c.received == c.sent && !c.active
  {
    RunSafe(FRESH, actions);
    var d := Run(FRESH, actions).d;
    if k < |d.conns| {
      assert ConnOk(d.conns[k]);
    }
  }

  /**
   The test on the two counters is exact: after any run it holds of a send communicator if and only if
   its peer has closed and everything the peer ever sent, the close message included, has been handled.
   */
  lemma {:induction false} ReadyIffSilent(actions: seq<Action>, k: nat)
    ensures Run(FRESH, actions).Next?
    ensures var d := Run(FRESH, actions).d;
            k < |d.conns| ==>
              var c := d.conns[k];
              ReadyToDestroy(c) <==> !c.closeReq.NotSent? && c.queued == 0 && c.flying == 0 && c.closes == []
  {
    RunSafe(FRESH, actions);
    var d := Run(FRESH, actions).d;
    if k < |d.conns| {
      assert ConnOk(d.conns[k]);
    }
  }

  /**
   Routing: after any run, a message under way carries an id whose current owner is the communicator
   the message was meant for, however often the id has been recycled; so no handler ever fails or
   credits a message to another connection.
   */
  lemma {:induction false} MessagesReachTheirOwner(actions: seq<Action>, k: nat)
    ensures Run(FRESH, actions).Next?
    ensures var d := Run(FRESH, actions).d;
            k < |d.conns| && (d.conns[k].flying > 0 || d.conns[k].closes != []) ==>
              d.conns[k].id in d.comms && d.comms[d.conns[k].id] == SendComm(k)
  {
    RunSafe(FRESH, actions);
    var d := Run(FRESH, actions).d;
    if k < |d.conns| && (d.conns[k].flying > 0 || d.conns[k].closes != []) {
      UnderWayIsOpen(d, k);
    }
  }

  /** Two live send communicators never share an id. */
  lemma {:induction false} LiveIdsDistinct(actions: seq<Action>, j: nat, k: nat)
    ensures Run(FRESH, actions).Next?
    ensures var d := Run(FRESH, actions).d;
            j < k < |d.conns| && !d.conns[j].destroyed && !d.conns[k].destroyed ==> d.conns[j].id != d.conns[k].id
  {
    RunSafe(FRESH, actions);
  }

  /** A device whose only connection is c, under id 7. */
  function Single(c: Conn): Device
  {
    Device([c], map[7 := SendComm(0)])
  }

  lemma {:induction false} Unroll(d: Device, d1: Device, a: Action, rest: seq<Action>)
    requires Step(d, a) == Next(d1)
    ensures Run(d, [a] + rest) == Run(d1, rest)
  {
    hide Step;
    assert ([a] + rest)[1..] == rest;
  }

  /** One ctrl message is posted and completed locally, then the receiver closes. */
  lemma {:induction false} PostThenClose(c: Conn, rest: seq<Action>)
    requires c == Conn(7, true, 0, 0, NotSent, 0, 0, 0, [], 0, false, 0, false, false)
    ensures Run(Single(c), [DoRecvCall(0)] + ([DoCtrlPosted(0)] + ([DoCtrlAcked(0)] + ([DoRecvClose(0)] + rest))))
         == Run(Single(c.(active := false, sent := 1, delivered := 1, flying := 1)), rest)
  {
    var c1 := c.(sent := 1, queued := 1);
    var c2 := c1.(queued := 0, flying := 1, unacked := 1);
    var c3 := c2.(unacked := 0, delivered := 1);
    var c4 := c3.(active := false);
    assert [c][0 := c1] == [c1] && [c1][0 := c2] == [c2] && [c2][0 := c3] == [c3] && [c3][0 := c4] == [c4];
    Unroll(Single(c), Single(c1), DoRecvCall(0), [DoCtrlPosted(0)] + ([DoCtrlAcked(0)] + ([DoRecvClose(0)] + rest)));
    Unroll(Single(c1), Single(c2), DoCtrlPosted(0), [DoCtrlAcked(0)] + ([DoRecvClose(0)] + rest));
    Unroll(Single(c2), Single(c3), DoCtrlAcked(0), [DoRecvClose(0)] + rest);
    Unroll(Single(c3), Single(c4), DoRecvClose(0), rest);
  }

  lemma {:induction false} CloseArrives(c: Conn)
    requires c.id == 7 && !c.active && c.sent == c.delivered && c.closeReq == NotSent && c.closes == [] && !c.closeSeen
    ensures Run(Single(c), [DoRecvFinalize(0)] + ([DoCloseHandled(0, 0)] + []))
         == Next(Single(c.(closeReq := Sent, closeSeen := true, expected := c.delivered)))
  {
    var c1 := c.(closeReq := Sent, closes := [c.delivered]);
    var c2 := c1.(closes := [], closeSeen := true, expected := c.delivered);
    assert c.closes + [c.delivered] == c1.closes;
    assert [c][0 := c1] == [c1];
    Unroll(Single(c), Single(c1), DoRecvFinalize(0), [DoCloseHandled(0, 0)] + []);
    assert c1.closes[..0] + c1.closes[1..] == [];
    assert CloseHandled(Single(c1), 0, 0).d.conns == [c2];
    Unroll(Single(c1), Single(c2), DoCloseHandled(0, 0), []);
  }

  /**
   The counter is needed: a send communicator destroyed as soon as it has seen the close message would
   leave its id to receive a stray ctrl message, because the close message may overtake ctrl messages.
   */
  lemma {:induction false} CloseMayOvertake()
    ensures exists actions :: var o := Run(FRESH, actions);
              o.Next? && |o.d.conns| == 1 && o.d.conns[0].closeSeen && o.d.conns[0].flying == 1
  {
    hide Run;
    var c := Conn(7, true, 0, 0, NotSent, 0, 0, 0, [], 0, false, 0, false, false);
    var end := [DoRecvFinalize(0)] + ([DoCloseHandled(0, 0)] + []);
    var rest := [DoRecvCall(0)] + ([DoCtrlPosted(0)] + ([DoCtrlAcked(0)] + ([DoRecvClose(0)] + end)));
    Unroll(FRESH, Single(c), DoConnect(7), rest);
    PostThenClose(c, end);
    CloseArrives(c.(active := false, sent := 1, delivered := 1, flying := 1));
  }

  // ---------------------------------------------------------------------------------------------
  // A closed connection does go away

  /** The steps that a closed connection still needs until its send communicator is destroyed. */
  function ConnWork(c: Conn): nat
  {
    3 * c.queued + c.unacked + c.flying + (if c.closeReq.NotSent? then 2 else 0) + |c.closes| + (if c.destroyed then 0 else 1)
  }

  predicate BothClosed(d: Device, k: nat)
  {
    k < |d.conns| && !d.conns[k].active && d.conns[k].finalizing
  }

  /** Steps of connection k after both sides have closed it: no opening, no receive call, no other connection. */
  predicate OwnStep(a: Action, k: nat)
  {
    match a
    case DoCtrlPosted(j) => j == k
    case DoCtrlAcked(j) => j == k
    case DoCtrlHandled(j) => j == k
    case DoRecvFinalize(j) => j == k
    case DoCloseHandled(j, _) => j == k
    case DoSendFinalize(j) => j == k
    case _ => false
  }

  /** As long as a closed connection is not destroyed, one of its own steps is possible. */
  lemma {:induction false} ClosingCanStep(d: Device, k: nat) returns (a: Action)
    requires Inv(d) && BothClosed(d, k) && !d.conns[k].destroyed
    ensures OwnStep(a, k) && Step(d, a).Next? && Inv(Step(d, a).d) && BothClosed(Step(d, a).d, k)
    ensures ConnWork(Step(d, a).d.conns[k]) < ConnWork(d.conns[k])
  {
    var c := d.conns[k];
    assert ConnOk(c);
    if c.queued > 0 {
      a := DoCtrlPosted(k);
    } else if c.unacked > 0 {
      a := DoCtrlAcked(k);
    } else if c.flying > 0 {
      a := DoCtrlHandled(k);
      UnderWayIsOpen(d, k);
    } else if c.closeReq.NotSent? {
      a := DoRecvFinalize(k);
    } else if c.closes != [] {
      a := DoCloseHandled(k, 0);
      UnderWayIsOpen(d, k);
    } else {
      a := DoSendFinalize(k);
    }
    StepSafe(d, a);
  }

  lemma {:induction false} ClosingEnds(d: Device, k: nat) returns (actions: seq<Action>)
    requires Inv(d) && BothClosed(d, k)
    ensures forall i :: 0 <= i < |actions| ==> OwnStep(actions[i], k)
    ensures Run(d, actions).Next? && BothClosed(Run(d, actions).d, k) && Run(d, actions).d.conns[k].destroyed
    decreases ConnWork(d.conns[k])
  {
    hide Step, Inv, ConnWork;
    if d.conns[k].destroyed {
      actions := [];
    } else {
      var a := ClosingCanStep(d, k);
      var rest := ClosingEnds(Step(d, a).d, k);
      Unroll(d, Step(d, a).d, a, rest);
      actions := [a] + rest;
    }
  }

  /**
   Nothing is leaked: after any run, a connection that both sides have closed can be brought to an end
   by steps of its own, and its send communicator is destroyed.
   */
  lemma {:induction false} ClosedConnectionEnds(before: seq<Action>, k: nat) returns (actions: seq<Action>)
    requires Run(FRESH, before).Next? && BothClosed(Run(FRESH, before).d, k)
    ensures forall i :: 0 <= i < |actions| ==> OwnStep(actions[i], k)
    ensures var end := Run(Run(FRESH, before).d, actions);
            end.Next? && k < |end.d.conns| && end.d.conns[k].destroyed
  {
    RunSafe(FRESH, before);
    actions := ClosingEnds(Run(FRESH, before).d, k);
  }
}

/**
 Send and receive requests as objects whose fields the completion handlers update in place.

 Each method is proved against the function by which the protocol model changes the same request: one
 update of an object is one update of the value that the model of the protocol keeps for it.
 */
module Requests {
  import opened Arithmetic
  import opened Collections
  import opened MsgBuff
  import opened Scheduler
  import opened Wire
  import opened Transfer

  class SendRequest {
    const seqNum: nat
    const data: Bytes
    const eager: bool
    var buffLen: nat
    var size: nat
    var remote: Option<CtrlMsg>
    var schedule: seq<Xfer>
    var wdata: nat
    var xferred: nat
    var total: nat
    var ncompls: nat
    var done: bool
    ghost var writes: seq<WriteOp>
    ghost var eagers: seq<EagerOp>

    /** The request as the protocol model sees it. */
    ghost function Value(): SendReq
      reads this
    {
      SendReq(seqNum, data, buffLen, size, eager, remote, schedule, wdata, xferred, total, ncompls, done)
    }

    /** A request that is created before its ctrl message is known and is not sent eagerly. */
    constructor (seqNum: nat, data: Bytes, eager: bool)
      ensures Value() == SendReq(seqNum, data, |data|, |data|, eager, None, [], 0, 0, 0, 0, false)
      ensures writes == [] && eagers == []
    {
      this.seqNum, this.data, this.eager := seqNum, data, eager;
      buffLen, size, remote, schedule, wdata := |data|, |data|, None, [], 0;
      xferred, total, ncompls, done, writes, eagers := 0, 0, 0, false, [], [];
    }

    /** inc_req_completion; sends pass no size. */
    method IncCompletion()
      modifies this`ncompls, this`done
      ensures Value() == AckSend(old(Value()))
    {
      ncompls := ncompls + 1;
      if ncompls == total {
        done := true;
      }
    }

    /** The receiver's buffer is shorter than what is to be sent. */
    method Truncate(len: nat)
      modifies this`size, this`buffLen
      ensures Value() == Truncated(old(Value()), len)
    {
      if len < buffLen {
        size := len;
        buffLen := len;
      }
    }

    /** update_send_data_from_remote: the ctrl message fixes length, schedule and immediate data. */
    method UpdateFromRemote(c: Config, ctrl: CtrlMsg, scheduler: ThresholdScheduler)
      requires ValidConfig(c) && scheduler.rrCounter < c.rails && scheduler.minStripeSize == c.minStripe
      modifies this`remote, this`size, this`buffLen, this`schedule, this`total, this`wdata, scheduler
      ensures Value() == FromRemote(c, old(Value()), ctrl, old(scheduler.rrCounter))
      ensures scheduler.rrCounter == Advance(c, old(scheduler.rrCounter), Value())
    {
      remote := Some(ctrl);
      Truncate(ctrl.len);
      schedule := scheduler.GetSchedule(buffLen, c.rails);
      total := |schedule|;
      wdata := Imm(c.commId, seqNum, |schedule|);
    }

    /** A message that holds this request and its posts. */
    ghost predicate Of(m: Msg)
      reads this
    {
      m.send == Some(Value()) && m.writes == writes && m.eagers == eagers
    }

    /** send_progress: posts what is left until the network, which accepts `accept` posts, refuses. */
    method Progress(accept: nat, ghost m: Msg) returns (blocked: bool)
      requires Of(m) && (eager ==> schedule != []) && (!eager ==> remote.Some? && xferred <= |schedule|)
      modifies this`xferred, this`writes, this`eagers
      ensures Transfer.Progress(m, accept) == (m.(send := Some(Value()), writes := writes, eagers := eagers), blocked)
    {
      if eager {
        blocked := accept == 0;
        if !blocked {
          ghost var x := schedule[0];
          eagers := eagers + [EagerOp(EagerMsg(wdata, Slice(data, x.offset, x.size)), false, false)];
        }
      } else {
        blocked := PostWrites(accept);
      }
    }

    /** The loop over the stripes that are not posted yet. */
    method PostWrites(accept: nat) returns (blocked: bool)
      requires !eager && remote.Some? && xferred <= |schedule|
      modifies this`xferred, this`writes
      ensures var q := old(Value());
              var k := Min(accept, |q.schedule| - q.xferred);
              && Value() == q.(xferred := q.xferred + k)
              && writes == old(writes) + NewWrites(q, q.xferred, k)
              && blocked == (xferred < |schedule|)
    {
      ghost var q := Value();
      var left := accept;
      while xferred < |schedule|
        invariant q.xferred <= xferred <= |schedule| && left == accept - (xferred - q.xferred)
        invariant writes == old(writes) + NewWrites(q, q.xferred, xferred - q.xferred)
        decreases |schedule| - xferred
      {
        if left == 0 {
          return true;
        }
        ghost var k := xferred - q.xferred;
        assert NewWrites(q, q.xferred, k + 1) == NewWrites(q, q.xferred, k) + [WriteOp(WriteOf(q, schedule[xferred]), Flying, false)];
        writes := writes + [WriteOp(WriteOf(q, schedule[xferred]), Flying, false)];
        xferred := xferred + 1;
        left := left - 1;
      }
      return false;
    }
  }

  class RecvRequest {
    const seqNum: nat
    const buf: nat
    const dstLen: nat
    var size: nat
    var ncompls: nat
    var done: bool
    var segCompls: nat
    var segSize: nat
    var copy: Option<CopyReq>

    ghost function Value(): RecvReq
      reads this
    {
      RecvReq(seqNum, buf, dstLen, size, ncompls, done, segCompls, segSize, copy)
    }

    constructor (seqNum: nat, buf: nat, dstLen: nat)
      ensures Value() == RecvReq(seqNum, buf, dstLen, 0, 0, false, 0, 0, None)
    {
      this.seqNum, this.buf, this.dstLen := seqNum, buf, dstLen;
      size, ncompls, done, segCompls, segSize, copy := 0, 0, false, 0, 0, None;
    }

    /** inc_req_completion with the two completions that every receive waits for. */
    method IncCompletion(bytes: nat)
      modifies this`size, this`ncompls, this`done
      ensures Value() == AckRecv(old(Value()), bytes)
    {
      size := size + bytes;
      ncompls := ncompls + 1;
      if ncompls == 2 {
        done := true;
      }
    }

    /** inc_recv_seg_completion: the last segment passes the sum of the segments on. */
    method IncSegment(bytes: nat, totalSegs: nat)
      modifies this
      ensures Value() == AckSegment(old(Value()), bytes, totalSegs)
    {
      segSize := segSize + bytes;
      segCompls := segCompls + 1;
      if segCompls == totalSegs {
        IncCompletion(segSize);
      }
    }
  }
}

/**
 Accounting of receive buffers. Each rail counts the buffers it has promised to the network: those
 posted, those waiting for the network to accept them, and those completed but not yet handled. A
 buffer held for a message that is not matched yet is not counted.

 The number is changed before, after and between the posts it stands for, and posting may be refused
 in the middle. Between handler steps it always equals the buffers it should count. Buffers wait in the
 same queue as every other request of the endpoint: each time a buffer is promised it enters `Pending`
 as a request of one post, under a new number, and it waits exactly while that request does.
 */
module RxBuffers {
  import opened Arithmetic
  import opened Pending

  /** Promised under the number of its request, completed, or held for a message. */
  datatype Place = Promised(req: nat) | Arrived | Held

  datatype Buff = Buff(rail: nat, place: Place)

  predicate CountsFor(b: Buff, r: nat)
  {
    b.rail == r && b.place != Held
  }

  ghost function Active(bufs: map<nat, Buff>, r: nat): set<nat>
  {
    set b | b in bufs && CountsFor(bufs[b], r)
  }

  function One(c: bool): nat { if c then 1 else 0 }

  lemma {:induction false} Without(s: set<nat>, b: nat)
    ensures |s - {b}| == |s| - One(b in s)
  {
    if b in s {
      assert s == (s - {b}) + {b};
    } else {
      assert s == s - {b};
    }
  }

  lemma {:induction false} InActive(bufs: map<nat, Buff>, r: nat, b: nat)
    ensures b in Active(bufs, r) <==> b in bufs && CountsFor(bufs[b], r)
  {
  }

  lemma {:induction false} SameOthers(bufs: map<nat, Buff>, b: nat, v: Buff, r: nat)
    ensures Active(bufs, r) - {b} == Active(bufs[b := v], r) - {b}
  {
    hide Active, CountsFor;
    forall x: nat ensures x in Active(bufs, r) - {b} <==> x in Active(bufs[b := v], r) - {b} {
      InActive(bufs, r, x);
      InActive(bufs[b := v], r, x);
    }
  }

  lemma {:induction false} ActiveSet(bufs: map<nat, Buff>, b: nat, v: Buff, r: nat)
    ensures |Active(bufs[b := v], r)| == |Active(bufs, r)| - One(b in bufs && CountsFor(bufs[b], r)) + One(CountsFor(v, r))
  {
    hide Active, CountsFor;
    InActive(bufs, r, b);
    InActive(bufs[b := v], r, b);
    Without(Active(bufs, r), b);
    Without(Active(bufs[b := v], r), b);
    SameOthers(bufs, b, v, r);
  }

  lemma {:induction false} ActiveDrop(bufs: map<nat, Buff>, b: nat, r: nat)
    requires b in bufs
    ensures |Active(bufs - {b}, r)| == |Active(bufs, r)| - One(CountsFor(bufs[b], r))
  {
    Without(Active(bufs, r), b);
    assert Active(bufs, r) - {b} == Active(bufs - {b}, r);
  }

  lemma {:induction false} ActiveSome(bufs: map<nat, Buff>, b: nat)
    requires b in bufs && bufs[b].place != Held
    ensures |Active(bufs, bufs[b].rail)| > 0
  {
    assert b in Active(bufs, bufs[b].rail);
  }

  /** Every rail's number is its promised buffers. */
  ghost predicate Counted(bufs: map<nat, Buff>, num: seq<nat>)
  {
    forall r :: 0 <= r < |num| ==> |Active(bufs, r)| == num[r]
  }

  /** The same with rail r ahead by `extra`. */
  ghost predicate CountedBut(bufs: map<nat, Buff>, num: seq<nat>, r: nat, extra: int)
  {
    forall q :: 0 <= q < |num| ==> |Active(bufs, q)| == num[q] - if q == r then extra else 0
  }

  /** Every promised buffer has a request of one post of its own, and numbers from `next` on are unused. */
  ghost predicate Ticketed(bufs: map<nat, Buff>, reqs: map<nat, Req>, next: nat)
  {
    && (forall q :: q in reqs ==> q < next)
    && (forall b :: b in bufs && bufs[b].place.Promised? ==> bufs[b].place.req in reqs && reqs[bufs[b].place.req].total == 1)
    && (forall a, b :: a in bufs && b in bufs && a != b && bufs[a].place.Promised? && bufs[b].place.Promised? ==>
                         bufs[a].place.req != bufs[b].place.req)
  }

  lemma {:induction false} SetCounted(bufs: map<nat, Buff>, num: seq<nat>, r: nat, extra: int, b: nat, v: Buff)
    requires CountedBut(bufs, num, r, extra) && v.rail == r && (b in bufs ==> bufs[b].rail == r)
    ensures CountedBut(bufs[b := v], num, r, extra + One(b in bufs && CountsFor(bufs[b], r)) - One(CountsFor(v, r)))
  {
    hide Active;
    forall q | 0 <= q < |num| ensures |Active(bufs[b := v], q)| == |Active(bufs, q)| - One(b in bufs && CountsFor(bufs[b], q)) + One(CountsFor(v, q)) {
      ActiveSet(bufs, b, v, q);
    }
  }

  lemma {:induction false} NumCounted(bufs: map<nat, Buff>, num: seq<nat>, r: nat, extra: int, n: nat)
    requires r < |num| && CountedBut(bufs, num, r, extra)
    ensures CountedBut(bufs, num[r := n], r, extra + n - num[r])
  {
    hide Active;
  }

  lemma {:induction false} Even(bufs: map<nat, Buff>, num: seq<nat>, r: nat)
    ensures CountedBut(bufs, num, r, 0) <==> Counted(bufs, num)
  {
    hide Active;
  }

  /** The endpoint took one more request, or none. */
  ghost predicate Grown(reqs: map<nat, Req>, reqs': map<nat, Req>, added: set<nat>)
  {
    reqs'.Keys == reqs.Keys + added && forall q :: q in reqs ==> reqs'[q].total == reqs[q].total
  }

  lemma {:induction false} NewTicket(bufs: map<nat, Buff>, reqs: map<nat, Req>, reqs': map<nat, Req>, next: nat, b: nat, rail: nat)
    requires Ticketed(bufs, reqs, next) && Grown(reqs, reqs', {next}) && reqs'[next].total == 1
    ensures Ticketed(bufs[b := Buff(rail, Promised(next))], reqs', next + 1)
  {
  }

  lemma {:induction false} NoTicket(bufs: map<nat, Buff>, reqs: map<nat, Req>, next: nat, b: nat, v: Buff)
    requires Ticketed(bufs, reqs, next) && !v.place.Promised?
    ensures Ticketed(bufs[b := v], reqs, next) && Ticketed(bufs - {b}, reqs, next)
  {
  }

  lemma {:induction false} OtherTicket(bufs: map<nat, Buff>, reqs: map<nat, Req>, reqs': map<nat, Req>, next: nat)
    requires Ticketed(bufs, reqs, next)
    ensures Grown(reqs, reqs', {next}) ==> Ticketed(bufs, reqs', next + 1)
    ensures Grown(reqs, reqs', {}) ==> Ticketed(bufs, reqs', next)
  {
  }

  class Endpoint {
    const min: seq<nat>
    const max: seq<nat>
    const pending: Pending.Endpoint
    var num: seq<nat>
    var bufs: map<nat, Buff>
    var nextId: nat
    var nextReq: nat

    ghost predicate Shape()
      reads this, pending
    {
      && |num| == |max| == |min|
      && (forall r :: 0 <= r < |num| ==> num[r] <= max[r])
      && (forall b :: b in bufs ==> b < nextId && bufs[b].rail < |num|)
      && pending.Valid() && Ticketed(bufs, pending.reqs, nextReq)
    }

    ghost predicate Valid()
      reads this, pending
    {
      Shape() && Counted(bufs, num)
    }

    constructor (min: seq<nat>, max: seq<nat>)
      requires |min| == |max|
      ensures Valid() && fresh(pending) && bufs == map[] && pending.queue == [] && this.min == min && this.max == max
    {
      this.min, this.max := min, max;
      pending := new Pending.Endpoint();
      num, bufs, nextId, nextReq := seq(|max|, _ => 0), map[], 0, 0;
      new;
      forall r | 0 <= r < |num| ensures |Active(bufs, r)| == num[r] {
        assert Active(bufs, r) == {};
      }
    }

    /** Waiting in the endpoint's queue for the network to accept it. */
    ghost predicate Waits(b: nat)
      reads this, pending
    {
      b in bufs && bufs[b].place.Promised? && bufs[b].place.req in pending.queue
    }

    /** A promised buffer has been given to the network once, unless it waits, and then not at all. */
    lemma {:induction false} PromisedOnce(b: nat)
      requires Valid() && b in bufs && bufs[b].place.Promised?
      ensures var q := bufs[b].place.req; Of(pending.trace, q) == if Waits(b) then [] else [Post(q, 0)]
    {
      hide Of, Stripes;
      var q := bufs[b].place.req;
      if Waits(b) {
        NoStripes(q, 0);
      } else {
        OneStripe(q, 0);
      }
    }

    /** Buffers that existed before, other than those in `but`, are as they were, and new ones are promised on rail r. */
    twostate predicate Kept(r: nat, but: set<nat>)
      reads this
    {
      && (forall b :: b in old(bufs) && b !in but ==> b in bufs && bufs[b] == old(bufs)[b])
      && (forall b :: b in bufs && b !in old(bufs) ==> bufs[b].rail == r && bufs[b].place.Promised?)
    }

    /** Any other request of the endpoint: a send of several stripes, or one post of another kind. */
    method Submit(total: nat, budget: nat)
      requires Valid() && total > 0
      modifies this`nextReq, pending
      ensures Valid() && nextReq == old(nextReq) + 1
      ensures old(nextReq) in pending.reqs && pending.reqs[old(nextReq)] == Req(total, Min(budget, total))
      ensures pending.queue == if budget < total then old(pending.queue) + [old(nextReq)] else old(pending.queue)
      ensures pending.trace == old(pending.trace) + Stripes(old(nextReq), 0, Min(budget, total))
    {
      hide Counted, Active, QueueOk, Traced, Stripes;
      ghost var reqs0 := pending.reqs;
      pending.Submit(nextReq, total, budget);
      assert Grown(reqs0, pending.reqs, {nextReq});
      OtherTicket(bufs, reqs0, pending.reqs, nextReq);
      nextReq := nextReq + 1;
    }

    /** Promises buffer b, new or not, to the network, which accepts it now or refuses it. */
    method Promise(b: nat, r: nat, accepted: bool)
      requires Shape() && r < |num| && b < nextId
      modifies this`bufs, this`nextReq, pending
      ensures Shape() && bufs == old(bufs)[b := Buff(r, Promised(old(nextReq)))]
      ensures Waits(b) <==> !accepted
      ensures pending.queue == if accepted then old(pending.queue) else old(pending.queue) + [old(nextReq)]
      ensures |pending.trace| == |old(pending.trace)| + One(accepted)
    {
      hide QueueOk, Traced, Stripes, Active;
      QueueHas(pending.reqs, pending.queue, NONE);
      ghost var reqs0 := pending.reqs;
      pending.Submit(nextReq, 1, if accepted then 1 else 0);
      assert Grown(reqs0, pending.reqs, {nextReq});
      NewTicket(bufs, reqs0, pending.reqs, nextReq, b, r);
      bufs := bufs[b := Buff(r, Promised(nextReq))];
      nextReq := nextReq + 1;
    }

    /** A new buffer, posted or, if the network refuses, queued. */
    method NewBuffer(r: nat, accepted: bool, ghost extra: int)
      requires Shape() && r < |num| && CountedBut(bufs, num, r, extra)
      modifies this`bufs, this`nextId, this`nextReq, pending
      ensures Shape() && Kept(r, {}) && CountedBut(bufs, num, r, extra - 1)
      ensures |pending.queue| == |old(pending.queue)| + One(!accepted) && old(pending.queue) <= pending.queue
      ensures |pending.trace| == |old(pending.trace)| + One(accepted)
    {
      hide CountedBut, Active, Ticketed, QueueOk, Traced;
      var b := nextId;
      nextId := b + 1;
      SetCounted(bufs, num, r, extra, b, Buff(r, Promised(nextReq)));
      Promise(b, r, accepted);
    }

    /** Fills a rail up to its maximum; the network accepts `budget` posts. */
    method PostOnRail(r: nat, budget: nat)
      requires Valid() && r < |num|
      modifies this, pending
      ensures Valid() && Kept(r, {})
      ensures num == old(num)[r := if budget < max[r] - old(num[r]) then old(num[r]) + budget + 1 else max[r]]
      ensures old(pending.queue) <= pending.queue
      ensures |pending.queue| == |old(pending.queue)| + One(budget < max[r] - old(num[r]))
      ensures |pending.trace| == |old(pending.trace)| + Min(budget, max[r] - old(num[r]))
    {
      hide CountedBut, Counted, Ticketed, Active, QueueOk, Traced;
      var needed := max[r] - num[r];
      Even(bufs, num, r);
      NumCounted(bufs, num, r, 0, max[r]);
      num := num[r := max[r]];
      var i := 0;
      while i < needed && i < budget
        invariant 0 <= i <= needed && i <= budget && num == old(num)[r := max[r]]
        invariant Shape() && Kept(r, {}) && CountedBut(bufs, num, r, needed - i)
        invariant old(pending.queue) <= pending.queue && |pending.queue| == |old(pending.queue)|
        invariant |pending.trace| == |old(pending.trace)| + i
      {
        NewBuffer(r, true, needed - i);
        i := i + 1;
      }
      if i < needed {
        NewBuffer(r, false, needed - i);
        var failed := needed - i - 1;
        NumCounted(bufs, num, r, failed, num[r] - failed);
        num := num[r := num[r] - failed];
      }
      Even(bufs, num, r);
    }

    /** Tops a rail up if it has fallen below its minimum. */
    method CheckRail(r: nat, budget: nat)
      requires Valid() && r < |num|
      modifies this, pending
      ensures Valid() && Kept(r, {}) && old(pending.queue) <= pending.queue
      ensures old(num[r]) >= min[r] ==>
                bufs == old(bufs) && num == old(num) && pending.queue == old(pending.queue) && pending.trace == old(pending.trace)
    {
      if num[r] < min[r] {
        PostOnRail(r, budget);
      }
    }

    /** The network completes a posted buffer. */
    method Arrive(b: nat)
      requires Valid() && b in bufs && bufs[b].place.Promised? && !Waits(b)
      modifies this`bufs
      ensures Valid() && bufs == old(bufs)[b := old(bufs)[b].(place := Arrived)]
    {
      hide CountedBut, Counted, Ticketed, Active, QueueOk, Traced;
      var r := bufs[b].rail;
      var v := bufs[b].(place := Arrived);
      Even(bufs, num, r);
      SetCounted(bufs, num, r, 0, b, v);
      NoTicket(bufs, pending.reqs, nextReq, b, v);
      bufs := bufs[b := v];
      Even(bufs, num, r);
    }

    /** Posts a handled buffer again; it never left the count. */
    method Repost(b: nat, budget: nat)
      requires Valid() && b in bufs && bufs[b].place == Arrived
      modifies this, pending
      ensures Valid() && b in bufs && bufs[b] == Buff(old(bufs)[b].rail, Promised(old(nextReq)))
      ensures Kept(old(bufs)[b].rail, {b}) && old(pending.queue) <= pending.queue
      ensures budget == 0 ==> Waits(b) && num == old(num) && pending.queue == old(pending.queue) + [old(nextReq)]
    {
      hide CountedBut, Counted, Ticketed, Active, QueueOk, Traced;
      var r := bufs[b].rail;
      Even(bufs, num, r);
      SetCounted(bufs, num, r, 0, b, Buff(r, Promised(nextReq)));
      Promise(b, r, budget > 0);
      Even(bufs, num, r);
      if budget > 0 {
        CheckRail(r, budget - 1);
      }
    }

    /** A handled buffer is held back for its message and leaves the count. */
    method Hold(b: nat, budget: nat)
      requires Valid() && b in bufs && bufs[b].place == Arrived
      modifies this, pending
      ensures Valid() && b in bufs && bufs[b] == old(bufs)[b].(place := Held)
      ensures Kept(old(bufs)[b].rail, {b}) && old(pending.queue) <= pending.queue
    {
      hide CountedBut, Counted, Ticketed, Active, QueueOk, Traced;
      var r := bufs[b].rail;
      CountPositive(b);
      var v := bufs[b].(place := Held);
      Even(bufs, num, r);
      SetCounted(bufs, num, r, 0, b, v);
      NoTicket(bufs, pending.reqs, nextReq, b, v);
      bufs := bufs[b := v];
      NumCounted(bufs, num, r, 1, num[r] - 1);
      num := num[r := num[r] - 1];
      Even(bufs, num, r);
      CheckRail(r, budget);
    }

    /** A counted buffer's rail counts at least one. */
    lemma {:induction false} CountPositive(b: nat)
      requires Valid() && b in bufs && bufs[b].place != Held
      ensures num[bufs[b].rail] > 0
    {
      ActiveSome(bufs, b);
    }

    /** A held buffer is no longer needed: it is posted again if its rail has room, and freed otherwise. */
    method CheckPost(b: nat, budget: nat)
      requires Valid() && b in bufs && bufs[b].place == Held
      modifies this, pending
      ensures Valid() && old(pending.queue) <= pending.queue
      ensures var r := old(bufs)[b].rail;
              && (b in bufs <==> old(num)[r] < max[r])
              && (b in bufs ==> bufs[b] == Buff(r, Promised(old(nextReq))))
              && (b in bufs && budget == 0 ==> Waits(b))
              && Kept(r, {b})
              && (b !in bufs ==> num == old(num) && pending.queue == old(pending.queue))
    {
      hide CountedBut, Counted, Ticketed, Active, QueueOk, Traced;
      var r := bufs[b].rail;
      if num[r] < max[r] {
        Even(bufs, num, r);
        SetCounted(bufs, num, r, 0, b, Buff(r, Promised(nextReq)));
        Promise(b, r, budget > 0);
        NumCounted(bufs, num, r, -1, num[r] + 1);
        num := num[r := num[r] + 1];
        Even(bufs, num, r);
        if budget > 0 {
          CheckRail(r, budget - 1);
        }
      } else {
        Release(b);
      }
    }

    method Release(b: nat)
      requires Valid() && b in bufs && bufs[b].place == Held
      modifies this`bufs
      ensures Valid() && bufs == old(bufs) - {b}
    {
      hide Ticketed, Active, QueueOk, Traced;
      forall r | 0 <= r < |num| ensures |Active(bufs - {b}, r)| == num[r] {
        ActiveDrop(bufs, b, r);
      }
      NoTicket(bufs, pending.reqs, nextReq, b, bufs[b]);
      bufs := bufs - {b};
    }

    /**
     Drains the queue, whatever kinds of requests are in it, from the front until the network refuses.
     No buffer is counted or discounted by it, however far it gets.
     */
    method ProcessPending(budget: nat)
      requires Valid()
      modifies pending
      ensures Valid() && pending.queued == old(pending.queued)
      ensures var owed := old(Owed(pending.queue, pending.reqs));
              pending.trace == old(pending.trace) + owed[..Min(budget, |owed|)]
      ensures exists k :: 0 <= k <= old(|pending.queue|) && pending.queue == old(pending.queue)[k..]
    {
      hide Counted, Active, QueueOk, Traced, Stripes, Owed, Ticketed;
      ghost var reqs0 := pending.reqs;
      var ret := pending.ProcessPending(budget);
      assert Grown(reqs0, pending.reqs, {});
      OtherTicket(bufs, reqs0, pending.reqs, nextReq);
    }
  }
}

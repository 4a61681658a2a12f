/**
 Posting under back-pressure: a request's stripes are posted one by one, the network may refuse at any
 point, and refused requests wait in a queue that later calls drain from the front. Striped sends, and
 ctrl messages, copies and receive buffers, which are one post each, share the queue.

 `trace` records every accepted post. A refusal ends the call it happens in, so the behaviour of the
 network within one call is the number of posts it still accepts.
 */
module Pending {
  import opened Arithmetic
  import opened Collections

  const EAGAIN := 11

  /** One accepted post: which request, and which of its stripes. */
  datatype Post = Post(req: nat, stripe: nat)

  /** A request with `total` stripes, of which the first `next` are posted. */
  datatype Req = Req(total: nat, next: nat)

  // What is still to be posted

  /** The posts of stripes [lo, hi) of one request. */
  ghost function Stripes(req: nat, lo: nat, hi: nat): (s: seq<Post>)
    ensures |s| == (if lo < hi then hi - lo else 0)
    decreases hi - lo
  {
    if lo >= hi then [] else [Post(req, lo)] + Stripes(req, lo + 1, hi)
  }

  lemma {:induction false} StripesSplit(req: nat, lo: nat, mid: nat, hi: nat)
    requires lo <= mid <= hi
    ensures Stripes(req, lo, hi) == Stripes(req, lo, mid) + Stripes(req, mid, hi)
    decreases hi - lo
  {
    if lo < mid {
      StripesSplit(req, lo + 1, mid, hi);
    }
  }

  lemma {:induction false} NoStripes(req: nat, lo: nat)
    ensures Stripes(req, lo, lo) == []
  {
  }

  lemma {:induction false} OneStripe(req: nat, lo: nat)
    ensures Stripes(req, lo, lo + 1) == [Post(req, lo)]
  {
  }

  /** The posts that the queued requests still need, in queue order. */
  ghost function Owed(queue: seq<nat>, reqs: map<nat, Req>): seq<Post>
    requires forall i :: 0 <= i < |queue| ==> queue[i] in reqs
  {
    if queue == [] then []
    else Stripes(queue[0], reqs[queue[0]].next, reqs[queue[0]].total) + Owed(queue[1..], reqs)
  }

  lemma {:induction false} OwedFrame(queue: seq<nat>, a: map<nat, Req>, b: map<nat, Req>)
    requires forall i :: 0 <= i < |queue| ==> queue[i] in a && queue[i] in b && a[queue[i]] == b[queue[i]]
    ensures Owed(queue, a) == Owed(queue, b)
  {
    if queue != [] {
      OwedFrame(queue[1..], a, b);
    }
  }

  /** The posts of one request in a trace. */
  ghost function Of(trace: seq<Post>, req: nat): seq<Post>
  {
    if trace == [] then []
    else Of(trace[..|trace| - 1], req) + if trace[|trace| - 1].req == req then [trace[|trace| - 1]] else []
  }

  lemma {:induction false} OfNext(trace: seq<Post>, p: Post, req: nat)
    ensures Of(trace + [p], req) == Of(trace, req) + if p.req == req then [p] else []
  {
    assert (trace + [p])[..|trace|] == trace;
  }

  const NONE := -1

  /** The requests with stripes left are the waiting ones, each once, except the one being posted, if any. */
  ghost predicate QueueOk(reqs: map<nat, Req>, queue: seq<nat>, active: int)
  {
    && NoDup(queue)
    && (forall i :: 0 <= i < |queue| ==> queue[i] in reqs && queue[i] != active)
    && (active == NONE || active in reqs)
    && (forall r :: r in reqs ==> reqs[r].next <= reqs[r].total)
    && (forall r :: r in reqs && r != active ==> (r in queue <==> reqs[r].next < reqs[r].total))
  }

  /** Every request's posts so far are its stripes from zero up, once and in order. */
  ghost predicate Traced(reqs: map<nat, Req>, trace: seq<Post>)
  {
    forall r: nat :: Of(trace, r) == Stripes(r, 0, if r in reqs then reqs[r].next else 0)
  }

  lemma {:induction false} QueueHas(reqs: map<nat, Req>, queue: seq<nat>, active: int)
    requires QueueOk(reqs, queue, active)
    ensures forall i :: 0 <= i < |queue| ==> queue[i] in reqs
    ensures active != NONE ==> active in reqs && reqs[active].next <= reqs[active].total
    ensures NoDup(queue)
  {
  }

  lemma {:induction false} TakeNew(reqs: map<nat, Req>, queue: seq<nat>, r: nat, total: nat)
    requires QueueOk(reqs, queue, NONE) && r !in reqs
    ensures QueueOk(reqs[r := Req(total, 0)], queue, r)
  {
  }

  lemma {:induction false} TakeFront(reqs: map<nat, Req>, queue: seq<nat>)
    requires QueueOk(reqs, queue, NONE) && queue != []
    ensures QueueOk(reqs, queue[1..], queue[0])
  {
    assert queue == [queue[0]] + queue[1..];
  }

  lemma {:induction false} Advance(reqs: map<nat, Req>, queue: seq<nat>, r: nat)
    requires QueueOk(reqs, queue, r) && r in reqs && reqs[r].next < reqs[r].total
    ensures QueueOk(reqs[r := Req(reqs[r].total, reqs[r].next + 1)], queue, r)
  {
  }

  lemma {:induction false} PutBack(reqs: map<nat, Req>, queue: seq<nat>, r: nat)
    requires QueueOk(reqs, queue, r) && r in reqs
    ensures reqs[r].next < reqs[r].total ==> QueueOk(reqs, queue + [r], NONE) && QueueOk(reqs, [r] + queue, NONE)
    ensures reqs[r].next == reqs[r].total ==> QueueOk(reqs, queue, NONE)
  {
  }

  lemma {:induction false} TraceNew(reqs: map<nat, Req>, trace: seq<Post>, r: nat, total: nat)
    requires Traced(reqs, trace) && r !in reqs
    ensures Traced(reqs[r := Req(total, 0)], trace)
  {
    hide Of, Stripes;
  }

  lemma {:induction false} TraceNext(reqs: map<nat, Req>, trace: seq<Post>, r: nat)
    requires Traced(reqs, trace) && r in reqs
    ensures Traced(reqs[r := Req(reqs[r].total, reqs[r].next + 1)], trace + [Post(r, reqs[r].next)])
  {
    hide Of, Stripes;
    var n := reqs[r].next;
    forall q: nat ensures Of(trace + [Post(r, n)], q) == Of(trace, q) + if q == r then [Post(r, n)] else [] {
      OfNext(trace, Post(r, n), q);
    }
    StripesSplit(r, 0, n, n + 1);
    OneStripe(r, n);
  }

  class Endpoint {
    var reqs: map<nat, Req>
    var queue: seq<nat>
    ghost var trace: seq<Post>
    ghost var queued: seq<nat>
    ghost var drained: seq<nat>

    /** Requests leave the queue in the order they entered it. */
    ghost predicate Valid()
      reads this
    {
      QueueOk(reqs, queue, NONE) && Traced(reqs, trace) && queued == drained + queue
    }

    constructor ()
      ensures Valid() && reqs == map[] && queue == [] && trace == [] && queued == []
    {
      reqs, queue, trace, queued, drained := map[], [], [], [], [];
    }

    /** While r is being posted. */
    ghost predicate Posting(r: nat)
      reads this
    {
      QueueOk(reqs, queue, r) && Traced(reqs, trace) && r in reqs && reqs[r].next <= reqs[r].total
    }

    /** Posts stripes from where the request stopped; the network accepts `budget` more. */
    method SendProgress(r: nat, budget: nat) returns (ret: int, left: nat)
      requires Posting(r)
      modifies this`reqs, this`trace
      ensures Posting(r) && reqs.Keys == old(reqs.Keys) && reqs[r].total == old(reqs[r].total)
      ensures forall q :: q in reqs && q != r ==> reqs[q] == old(reqs[q])
      ensures reqs[r].next == Min(old(reqs[r].next) + budget, reqs[r].total)
      ensures trace == old(trace) + Stripes(r, old(reqs[r].next), reqs[r].next)
      ensures left == budget - (reqs[r].next - old(reqs[r].next))
      ensures ret == if reqs[r].next == reqs[r].total then 0 else -EAGAIN
    {
      hide QueueOk, Traced, Stripes;
      ret, left := 0, budget;
      ghost var first := reqs[r].next;
      NoStripes(r, first);
      while reqs[r].next < reqs[r].total
        invariant Posting(r) && reqs.Keys == old(reqs.Keys) && reqs[r].total == old(reqs[r].total)
        invariant forall q :: q in reqs && q != r ==> reqs[q] == old(reqs[q])
        invariant first <= reqs[r].next && left == budget - (reqs[r].next - first) && ret == 0
        invariant trace == old(trace) + Stripes(r, first, reqs[r].next)
        decreases reqs[r].total - reqs[r].next
      {
        if left == 0 {
          ret := -EAGAIN;
          break;
        }
        var n := reqs[r].next;
        StripesSplit(r, first, n, n + 1);
        OneStripe(r, n);
        Advance(reqs, queue, r);
        TraceNext(reqs, trace, r);
        trace := trace + [Post(r, n)];
        reqs := reqs[r := Req(reqs[r].total, n + 1)];
        left := left - 1;
      }
    }

    /** A new request is posted as far as the network lets it; the rest waits at the back of the queue. */
    method Submit(r: nat, total: nat, budget: nat)
      requires Valid() && r !in reqs && total > 0
      modifies this
      ensures Valid() && reqs.Keys == old(reqs.Keys) + {r}
      ensures forall q :: q in old(reqs) ==> reqs[q] == old(reqs[q])
      ensures reqs[r] == Req(total, Min(budget, total))
      ensures trace == old(trace) + Stripes(r, 0, Min(budget, total))
      ensures queue == if budget < total then old(queue) + [r] else old(queue)
    {
      hide QueueOk, Traced, Stripes;
      TakeNew(reqs, queue, r, total);
      TraceNew(reqs, trace, r, total);
      reqs := reqs[r := Req(total, 0)];
      var ret, left := SendProgress(r, budget);
      PutBack(reqs, queue, r);
      if ret == -EAGAIN {
        queue := queue + [r];
        queued := queued + [r];
      }
    }

    /** Takes the front request and posts it as far as possible; it goes back to the front if that is not all. */
    method DrainFront(budget: nat) returns (ret: int, left: nat)
      requires Valid() && queue != []
      modifies this
      ensures Valid() && reqs.Keys == old(reqs.Keys) && queued == old(queued)
      ensures ret == 0 || (ret == -EAGAIN && left == 0)
      ensures queue == if ret == 0 then old(queue)[1..] else old(queue)
      ensures forall q :: q in reqs && q != old(queue)[0] ==> reqs[q] == old(reqs[q])
      ensures var r := old(queue)[0];
              && r in reqs && reqs[r].total == old(reqs)[r].total
              && old(reqs)[r].next <= reqs[r].next <= reqs[r].total
              && trace == old(trace) + Stripes(r, old(reqs)[r].next, reqs[r].next)
              && left == budget - (reqs[r].next - old(reqs)[r].next)
              && (ret == 0 <==> reqs[r].next == reqs[r].total)
    {
      hide QueueOk, Traced, Stripes;
      QueueHas(reqs, queue, NONE);
      var r := queue[0];
      TakeFront(reqs, queue);
      QueueHas(reqs, queue[1..], r);
      queue := queue[1..];
      ret, left := SendProgress(r, budget);
      PutBack(reqs, queue, r);
      if ret == -EAGAIN {
        queue := [r] + queue;
      } else {
        drained := drained + [r];
      }
    }

    /** A request that is not waiting has been posted stripe by stripe, each stripe once, so it will see `total` completions. */
    lemma {:induction false} PostedExactly(r: nat)
      requires Valid() && r in reqs && r !in queue
      ensures Of(trace, r) == Stripes(r, 0, reqs[r].total) && |Of(trace, r)| == reqs[r].total
    {
      hide Of, Stripes;
      assert reqs[r].next == reqs[r].total;
    }

    /** Drains the queue from the front until it is empty or the network refuses. */
    method ProcessPending(budget: nat) returns (ret: int)
      requires Valid()
      modifies this
      ensures Valid() && ret == 0 && queued == old(queued) && reqs.Keys == old(reqs.Keys)
      ensures forall q :: q in reqs ==> reqs[q].total == old(reqs)[q].total
      ensures var owed := old(Owed(queue, reqs)); trace == old(trace) + owed[..Min(budget, |owed|)]
      ensures exists k :: 0 <= k <= old(|queue|) && queue == old(queue)[k..]
    {
      hide QueueOk, Traced, Stripes, Owed, NoDup;
      QueueHas(reqs, queue, NONE);
      ghost var owed := Owed(queue, reqs);
      ghost var done: seq<Post> := [];
      ghost var k := 0;
      var left := budget;
      ret := 0;
      while queue != []
        invariant Valid() && queued == old(queued) && reqs.Keys == old(reqs.Keys) && ret == 0
        invariant forall i :: 0 <= i < |queue| ==> queue[i] in reqs
        invariant forall q :: q in reqs ==> reqs[q].total == old(reqs)[q].total
        invariant trace == old(trace) + done && done + Owed(queue, reqs) == owed && left == budget - |done|
        invariant 0 <= k <= old(|queue|) && queue == old(queue)[k..]
        decreases |queue|
      {
        ghost var reqs0, queue0 := reqs, queue;
        QueueHas(reqs0, queue0, NONE);
        ret, left := DrainFront(left);
        QueueHas(reqs, queue, NONE);
        TailOfTail(old(queue), k);
        OwedStep(queue0, reqs0, queue, reqs);
        ghost var posted := Stripes(queue0[0], reqs0[queue0[0]].next, reqs[queue0[0]].next);
        Shift(done, posted, Owed(queue, reqs));
        done := done + posted;
        if ret == -EAGAIN {
          ret := 0;
          break;
        }
        k := k + 1;
      }
      if queue == [] {
        OwedNone(reqs);
      }
      TakenPrefix(owed, done, Owed(queue, reqs), left);
    }
  }

  lemma {:induction false} TailOfTail(s: seq<nat>, k: nat)
    requires k < |s|
    ensures s[k..][1..] == s[k + 1..]
  {
  }

  lemma {:induction false} TakenPrefix(all: seq<Post>, done: seq<Post>, rest: seq<Post>, left: nat)
    requires done + rest == all && (rest == [] || left == 0)
    ensures all[..Min(|done| + left, |all|)] == done
  {
  }

  lemma {:induction false} Shift(a: seq<Post>, b: seq<Post>, c: seq<Post>)
    ensures a + (b + c) == (a + b) + c
  {
  }

  lemma {:induction false} OwedNone(reqs: map<nat, Req>)
    ensures Owed([], reqs) == []
  {
  }

  /** Posting part or all of the front request moves those posts from what is owed. */
  lemma {:induction false} OwedStep(queue: seq<nat>, reqs: map<nat, Req>, queue': seq<nat>, reqs': map<nat, Req>)
    requires queue != [] && NoDup(queue) && forall i :: 0 <= i < |queue| ==> queue[i] in reqs && queue[i] in reqs'
    requires forall q :: q in reqs' && q != queue[0] ==> q in reqs && reqs'[q] == reqs[q]
    requires reqs'[queue[0]].total == reqs[queue[0]].total && reqs[queue[0]].next <= reqs'[queue[0]].next <= reqs[queue[0]].total
    requires queue' == if reqs'[queue[0]].next == reqs'[queue[0]].total then queue[1..] else queue
    ensures Owed(queue, reqs) == Stripes(queue[0], reqs[queue[0]].next, reqs'[queue[0]].next) + Owed(queue', reqs')
  {
    var r := queue[0];
    StripesSplit(r, reqs[r].next, reqs'[r].next, reqs[r].total);
    OwedFrame(queue[1..], reqs, reqs');
    NoStripes(r, reqs[r].total);
  }
}

/**
 The threshold scheduler: how one message is cut into stripes and how stripes are dealt to rails.

 `Plan` is the specification of `set_schedule_by_threshold`; the class below runs the source's loops
 and is proved against it. A rail's load over a whole run of messages is studied at the end.
 */
module Scheduler {
  import opened Arithmetic

  /** One transfer of a schedule: `size` bytes at `offset`, sent over rail `rail`. */
  datatype Xfer = Xfer(rail: nat, offset: nat, size: nat)

  /** Stripes start at multiples of this many bytes (the LL128 requirement). */
  const ALIGN: nat := 128

  // ---------------------------------------------------------------------------------------------
  // Number of stripes

  predicate Divides(d: nat, n: nat)
  {
    d > 0 && n % d == 0
  }

  /** The number of stripes the message size asks for: ceil(size / minStripe), between 1 and `rails`. */
  function WantedStripes(size: nat, rails: nat, minStripe: nat): (k: nat)
    requires rails > 0 && minStripe > 0
  {
    Max(1, Min(DivCeil(size, minStripe), rails))
  }

  /** The largest divisor of `rails` in [2, k], or `none` when there is none. */
  function LargestDivisor(rails: nat, k: nat, none: nat): (d: nat)
    ensures (forall i :: 2 <= i <= k ==> !Divides(i, rails)) ==> d == none
    ensures (exists i :: 2 <= i <= k && Divides(i, rails)) ==>
              2 <= d <= k && Divides(d, rails) && forall i :: d < i <= k ==> !Divides(i, rails)
    decreases k
  {
    if k <= 1 then none
    else if Divides(k, rails) then k
    else LargestDivisor(rails, k - 1, none)
  }

  function NumStripes(size: nat, rails: nat, minStripe: nat): (k: nat)
    requires rails > 0 && minStripe > 0
  {
    var k := WantedStripes(size, rails, minStripe);
    LargestDivisor(rails, k, k)
  }

  /**
   The stripe count divides the number of rails exactly when one stripe is wanted or some divisor of
   `rails` other than 1 is within reach. The doc comment of `get_num_stripes` promises a factor
   unconditionally; `OddRailsMiss` is an input on which the code does not deliver one.
   */
  lemma {:induction false} StripesDivideRailsIff(size: nat, rails: nat, minStripe: nat)
    requires rails > 0 && minStripe > 0
    ensures
      var k := WantedStripes(size, rails, minStripe);
      && 1 <= NumStripes(size, rails, minStripe) <= k <= rails
      && (Divides(NumStripes(size, rails, minStripe), rails)
          <==> k == 1 || exists d :: 2 <= d <= k && Divides(d, rails))
  {
    var k := WantedStripes(size, rails, minStripe);
    if forall i :: 2 <= i <= k ==> !Divides(i, rails) {
      assert NumStripes(size, rails, minStripe) == k;
      if k > 1 {
        assert !Divides(k, rails);
      }
    }
  }

  lemma {:induction false} EvenRailsStripesDivide(size: nat, rails: nat, minStripe: nat)
    requires rails > 0 && rails % 2 == 0 && minStripe > 0
    ensures Divides(NumStripes(size, rails, minStripe), rails)
  {
    StripesDivideRailsIff(size, rails, minStripe);
    assert Divides(2, rails);
  }

  lemma {:induction false} OddRailsMiss()
    ensures NumStripes(2, 3, 1) == 2 && !Divides(NumStripes(2, 3, 1), 3)
  {
    assert !Divides(2, 3);
  }

  // ---------------------------------------------------------------------------------------------
  // Schedules

  function MaxStripeSize(size: nat, stripes: nat): (m: nat)
    requires stripes > 0
    ensures m * stripes >= size && m % ALIGN == 0
  {
    var m := DivCeil(DivCeil(size, stripes), ALIGN) * ALIGN;
    assert m * stripes >= DivCeil(size, stripes) * stripes;
    m
  }

  function NextRail(rail: nat, rails: nat): nat
    requires rails > 0
  {
    (rail + 1) % rails
  }

  /** Stripes i .. stripes-1 of a message, the first of them on rail `rail` at byte `offset`. */
  function Stripes(rail: nat, offset: nat, left: nat, maxSize: nat, rails: nat, count: nat): (xs: seq<Xfer>)
    requires rails > 0
    ensures |xs| == count
    decreases count
  {
    if count == 0 then []
    else
      var size := Min(left, maxSize);
      [Xfer(rail, offset, size)]
      + Stripes(NextRail(rail, rails), offset + size, left - size, maxSize, rails, count - 1)
  }

  /** The schedule of a message of `size` bytes when the round-robin counter stands at `rr`. */
  function Plan(rr: nat, size: nat, rails: nat, minStripe: nat): (xs: seq<Xfer>)
    requires rails > 0 && minStripe > 0
    ensures |xs| == NumStripes(size, rails, minStripe)
  {
    var k := NumStripes(size, rails, minStripe);
    StripesDivideRailsIff(size, rails, minStripe);
    Stripes(rr, 0, size, MaxStripeSize(size, k), rails, k)
  }

  /** Stripes follow each other without gap or overlap from `from` and end at `to`. */
  predicate Contiguous(xs: seq<Xfer>, from: nat, to: nat)
  {
    if xs == [] then from == to
    else xs[0].offset == from && Contiguous(xs[1..], from + xs[0].size, to)
  }

  /** The k-th stripe goes to the k-th rail after `rr`, counting modulo the number of rails. */
  predicate Dealt(xs: seq<Xfer>, rr: nat, rails: nat)
    requires rails > 0
  {
    forall i :: 0 <= i < |xs| ==> xs[i].rail == (rr + i) % rails
  }

  predicate Aligned(xs: seq<Xfer>)
  {
    forall i :: 0 <= i < |xs| && xs[i].size > 0 ==> xs[i].offset % ALIGN == 0
  }

  lemma {:induction false} StripesContiguous(rail: nat, offset: nat, left: nat, maxSize: nat, rails: nat, count: nat)
    requires rails > 0 && left <= maxSize * count
    ensures Contiguous(Stripes(rail, offset, left, maxSize, rails, count), offset, offset + left)
    decreases count
  {
    if count > 0 {
      var size := Min(left, maxSize);
      var next := NextRail(rail, rails);
      var rest := Stripes(next, offset + size, left - size, maxSize, rails, count - 1);
      assert maxSize * count == maxSize * (count - 1) + maxSize;
      MulNonNegative(maxSize, count - 1);
      StripesContiguous(next, offset + size, left - size, maxSize, rails, count - 1);
      assert Stripes(rail, offset, left, maxSize, rails, count)[1..] == rest;
    }
  }

  lemma {:induction false} StripesAligned(rail: nat, offset: nat, left: nat, maxSize: nat, rails: nat, count: nat)
    requires rails > 0 && maxSize % ALIGN == 0
    requires left > 0 ==> offset % ALIGN == 0
    ensures Aligned(Stripes(rail, offset, left, maxSize, rails, count))
    decreases count
  {
    if count > 0 {
      var size := Min(left, maxSize);
      StripesAligned(NextRail(rail, rails), offset + size, left - size, maxSize, rails, count - 1);
    }
  }

  lemma {:induction false} StripesDealt(rail: nat, offset: nat, left: nat, maxSize: nat, rails: nat, count: nat)
    requires rail < rails
    ensures Dealt(Stripes(rail, offset, left, maxSize, rails, count), rail, rails)
    decreases count
  {
    if count > 0 {
      var size := Min(left, maxSize);
      var next := NextRail(rail, rails);
      var rest := Stripes(next, offset + size, left - size, maxSize, rails, count - 1);
      StripesDealt(next, offset + size, left - size, maxSize, rails, count - 1);
      DealtCons(Xfer(rail, offset, size), rest, rails);
    }
  }

  lemma {:induction false} DealtCons(x: Xfer, rest: seq<Xfer>, rails: nat)
    requires x.rail < rails && Dealt(rest, NextRail(x.rail, rails), rails)
    ensures Dealt([x] + rest, x.rail, rails)
  {
    var xs := [x] + rest;
    forall i | 0 <= i < |xs| ensures xs[i].rail == (x.rail + i) % rails {
      if i == 0 {
        ModSmall(x.rail, rails);
      } else {
        assert xs[i] == rest[i - 1];
        ModAddLeft(x.rail + 1, i - 1, rails);
      }
    }
  }

  /**
   Scheduler partition: for every size, rail count and counter value, the stripes of a schedule are
   contiguous from offset 0 and add up to the message, no two of them share a rail, and every
   non-empty stripe starts at a multiple of 128.
   */
  lemma {:induction false} PlanPartitions(rr: nat, size: nat, rails: nat, minStripe: nat)
    requires rr < rails && minStripe > 0
    ensures var xs := Plan(rr, size, rails, minStripe);
            && 1 <= |xs| <= rails
            && Contiguous(xs, 0, size)
            && Aligned(xs)
            && Dealt(xs, rr, rails)
            && (forall i, j :: 0 <= i < j < |xs| ==> xs[i].rail != xs[j].rail)
  {
    StripesDivideRailsIff(size, rails, minStripe);
    var k := NumStripes(size, rails, minStripe);
    var m := MaxStripeSize(size, k);
    StripesContiguous(rr, 0, size, m, rails, k);
    StripesAligned(rr, 0, size, m, rails, k);
    StripesDealt(rr, 0, size, m, rails, k);
    var xs := Plan(rr, size, rails, minStripe);
    forall i, j | 0 <= i < j < |xs| ensures xs[i].rail != xs[j].rail {
      ModDistinct(rr + i, rr + j, rails);
    }
  }

  lemma {:induction false} ContiguousBounds(xs: seq<Xfer>, from: nat, to: nat, i: nat)
    requires Contiguous(xs, from, to) && i < |xs|
    ensures from <= xs[i].offset && xs[i].offset + xs[i].size <= to
  {
    ContiguousGrows(xs[1..], from + xs[0].size, to);
    if i > 0 {
      ContiguousBounds(xs[1..], from + xs[0].size, to, i - 1);
    }
  }

  lemma {:induction false} ContiguousGrows(xs: seq<Xfer>, from: nat, to: nat)
    requires Contiguous(xs, from, to)
    ensures from <= to
  {
    if xs != [] {
      ContiguousGrows(xs[1..], from + xs[0].size, to);
    }
  }

  /** Every byte of the message lies in exactly one stripe. */
  lemma {:induction false} ContiguousCovers(xs: seq<Xfer>, from: nat, to: nat, b: nat)
    returns (i: nat)
    requires Contiguous(xs, from, to) && from <= b < to
    ensures i < |xs| && xs[i].offset <= b < xs[i].offset + xs[i].size
    ensures forall j :: 0 <= j < |xs| && xs[j].offset <= b < xs[j].offset + xs[j].size ==> j == i
  {
    var rest := xs[1..];
    if b < from + xs[0].size {
      i := 0;
      forall j | 1 <= j < |xs| ensures b < xs[j].offset {
        ContiguousBounds(rest, from + xs[0].size, to, j - 1);
        assert rest[j - 1] == xs[j];
      }
    } else {
      var k := ContiguousCovers(rest, from + xs[0].size, to, b);
      i := k + 1;
      forall j | 1 <= j < |xs| && xs[j].offset <= b < xs[j].offset + xs[j].size ensures j == i {
        assert rest[j - 1] == xs[j];
      }
    }
  }

  function TotalSize(xs: seq<Xfer>): nat
  {
    if xs == [] then 0 else xs[0].size + TotalSize(xs[1..])
  }

  lemma {:induction false} ContiguousTotal(xs: seq<Xfer>, from: nat, to: nat)
    requires Contiguous(xs, from, to)
    ensures from + TotalSize(xs) == to
  {
    if xs != [] {
      ContiguousTotal(xs[1..], from + xs[0].size, to);
    }
  }

  /** A message of at most `minStripe` bytes is never cut: eager messages rely on it. */
  lemma {:induction false} SmallMessageOneStripe(rr: nat, size: nat, rails: nat, minStripe: nat)
    requires rr < rails && minStripe > 0 && size <= minStripe
    ensures Plan(rr, size, rails, minStripe) == [Xfer(rr, 0, size)]
  {
    if size > 0 {
      ModSmall(size - 1, minStripe);
      assert DivCeil(size, minStripe) == 1;
    }
    assert NumStripes(size, rails, minStripe) == 1;
    PlanPartitions(rr, size, rails, minStripe);
    var xs := Plan(rr, size, rails, minStripe);
    ContiguousTotal(xs, 0, size);
    assert xs[1..] == [];
    ModSmall(rr, rails);
    assert xs[0].rail == (rr + 0) % rails;
  }

  // ---------------------------------------------------------------------------------------------
  // The scheduler object

  class ThresholdScheduler {
    var rrCounter: nat
    const minStripeSize: nat

    constructor (minStripe: nat)
      requires minStripe > 0
      ensures rrCounter == 0 && minStripeSize == minStripe
    {
      rrCounter := 0;
      minStripeSize := minStripe;
    }

    method GetNumStripes(size: nat, numRails: nat) returns (numStripes: nat)
      requires numRails > 0 && minStripeSize > 0
      ensures numStripes == NumStripes(size, numRails, minStripeSize)
    {
      numStripes := Max(1, Min(DivCeil(size, minStripeSize), numRails));
      var i := numStripes;
      while i > 1
        invariant 0 <= i <= numStripes
        invariant numStripes == WantedStripes(size, numRails, minStripeSize)
        invariant LargestDivisor(numRails, i, numStripes) == NumStripes(size, numRails, minStripeSize)
      {
        if numRails % i == 0 {
          numStripes := i;
          return;
        }
        i := i - 1;
      }
    }

    method GetSchedule(size: nat, numRails: nat) returns (schedule: seq<Xfer>)
      requires rrCounter < numRails && minStripeSize > 0
      modifies this
      ensures schedule == Plan(old(rrCounter), size, numRails, minStripeSize)
      ensures rrCounter == (old(rrCounter) + |schedule|) % numRails
    {
      var numStripes := GetNumStripes(size, numRails);
      StripesDivideRailsIff(size, numRails, minStripeSize);
      var currRail := rrCounter;
      rrCounter := (currRail + numStripes) % numRails;
      var maxStripeSize := DivCeil(DivCeil(size, numStripes), ALIGN) * ALIGN;
      schedule := FillSchedule(currRail, size, maxStripeSize, numRails, numStripes);
    }

    /** The stripe loop of `set_schedule_by_threshold`. */
    static method FillSchedule(firstRail: nat, size: nat, maxStripeSize: nat, numRails: nat, numStripes: nat)
      returns (schedule: seq<Xfer>)
      requires numRails > 0
      ensures schedule == Stripes(firstRail, 0, size, maxStripeSize, numRails, numStripes)
    {
      var currRail, left, offset := firstRail, size, 0;
      schedule := [];
      for idx := 0 to numStripes
        invariant schedule + Stripes(currRail, offset, left, maxStripeSize, numRails, numStripes - idx)
               == Stripes(firstRail, 0, size, maxStripeSize, numRails, numStripes)
      {
        var stripeSize := Min(left, maxStripeSize);
        schedule := schedule + [Xfer(currRail, offset, stripeSize)];
        offset := offset + stripeSize;
        left := left - stripeSize;
        currRail := NextRail(currRail, numRails);
      }
    }
  }

  // ---------------------------------------------------------------------------------------------
  // Fairness over runs

  function RailsOf(xs: seq<Xfer>): seq<nat>
  {
    seq(|xs|, i requires 0 <= i < |xs| => xs[i].rail)
  }

  /** The rails used by a run of messages of the given sizes, stripe by stripe, from counter `rr`. */
  function RailsUsed(sizes: seq<nat>, rr: nat, rails: nat, minStripe: nat): (used: seq<nat>)
    requires rr < rails && minStripe > 0
  {
    if sizes == [] then []
    else
      var xs := Plan(rr, sizes[0], rails, minStripe);
      RailsOf(xs) + RailsUsed(sizes[1..], (rr + |xs|) % rails, rails, minStripe)
  }

  function Load(used: seq<nat>, rail: nat): nat
  {
    if used == [] then 0
    else Load(used[..|used| - 1], rail) + if used[|used| - 1] == rail then 1 else 0
  }

  predicate Cyclic(used: seq<nat>, rr: nat, rails: nat)
    requires rails > 0
  {
    forall i :: 0 <= i < |used| ==> used[i] == Nth(rr, i, rails)
  }

  function Nth(rr: nat, i: nat, rails: nat): nat
    requires rails > 0
  {
    (rr + i) % rails
  }

  lemma {:induction false} NthShift(rr: nat, n: nat, i: nat, rails: nat)
    requires rails > 0
    ensures Nth((rr + n) % rails, i, rails) == Nth(rr, n + i, rails)
  {
    var start := rr + n;
    ModAddLeft(start, i, rails);
    assert start + i == rr + (n + i);
  }

  /** Over a whole run the rails are used cyclically, across message boundaries. */
  lemma {:induction false} RunIsCyclic(sizes: seq<nat>, rr: nat, rails: nat, minStripe: nat)
    requires rr < rails && minStripe > 0
    ensures Cyclic(RailsUsed(sizes, rr, rails, minStripe), rr, rails)
  {
    if sizes != [] {
      var xs := Plan(rr, sizes[0], rails, minStripe);
      PlanPartitions(rr, sizes[0], rails, minStripe);
      RunIsCyclic(sizes[1..], (rr + |xs|) % rails, rails, minStripe);
      CyclicAppend(RailsOf(xs), RailsUsed(sizes[1..], (rr + |xs|) % rails, rails, minStripe), rr, rails);
    }
  }

  lemma {:induction false} CyclicAppend(xs: seq<nat>, ys: seq<nat>, rr: nat, rails: nat)
    requires rails > 0 && Cyclic(xs, rr, rails) && Cyclic(ys, (rr + |xs|) % rails, rails)
    ensures Cyclic(xs + ys, rr, rails)
  {
    hide Nth;
    forall i | 0 <= i < |xs + ys| ensures (xs + ys)[i] == Nth(rr, i, rails) {
      if i >= |xs| {
        NthShift(rr, |xs|, i - |xs|, rails);
      }
    }
  }

  /** The load of a rail under cyclic use is settled by division: q full rounds plus at most one. */
  lemma {:induction false} CyclicLoad(used: seq<nat>, rails: nat, rail: nat)
    requires rail < rails
    requires Cyclic(used, 0, rails)
    ensures Load(used, rail) == |used| / rails + if rail < |used| % rails then 1 else 0
  {
    if used != [] {
      var n := |used| - 1;
      CyclicLoad(used[..n], rails, rail);
      ModSucc(n, rails);
    } else {
      ModSmall(0, rails);
    }
  }

  /**
   Fairness: after any run of messages of any sizes the numbers of stripes given to two rails differ
   by at most one.
   */
  lemma {:induction false} LoadsBalanced(sizes: seq<nat>, rails: nat, minStripe: nat, a: nat, b: nat)
    requires a < rails && b < rails && minStripe > 0
    ensures var used := RailsUsed(sizes, 0, rails, minStripe);
            -1 <= Load(used, a) - Load(used, b) <= 1
  {
    var used := RailsUsed(sizes, 0, rails, minStripe);
    RunIsCyclic(sizes, 0, rails, minStripe);
    CyclicLoad(used, rails, a);
    CyclicLoad(used, rails, b);
  }
}

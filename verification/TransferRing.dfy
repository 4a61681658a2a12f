/** The protocol's two message buffers (256 slots, 10-bit numbers) read as maps on unbounded numbers. */
module TransferRing {
  import opened Arithmetic
  import opened Collections
  import opened MsgBuff
  import opened MsgLedger
  import opened Wire
  import opened Transfer

  ghost function EntryAt(a: Ledger<Elem>, n: nat): Option<Entry<Elem>>
  {
    if n in a.entries then Some(a.entries[n]) else None
  }

  /** The entry of message n, seen from oldest incomplete message `low`. */
  ghost function EntryOfMsg(r: Ring<Elem>, low: nat, n: nat): Option<Entry<Elem>>
    requires Tracks(r, low)
  {
    EntryAt(Abs(r, low), n)
  }

  predicate Near(low: nat, n: nat)
  {
    low <= n < low + SLOTS
  }

  lemma {:induction false} RingsDivide(r: Ring<Elem>)
    requires GoodRing(r)
    ensures Divisible(r)
  {
  }

  /** Entries exist inside the window only. */
  lemma {:induction false} EntriesNear(r: Ring<Elem>, low: nat, n: nat)
    requires GoodRing(r) && Tracks(r, low) && EntryOfMsg(r, low, n).Some?
    ensures Near(low, n)
  {
  }

  lemma {:induction false} InsertFresh(r: Ring<Elem>, low: nat, n: nat, elem: Elem, kind: Kind)
    requires GoodRing(r) && Tracks(r, low) && Near(low, n) && EntryOfMsg(r, low, n).None?
    ensures var (r', res, st) := Insert(r, n % SEQ_SPAN, elem, kind);
            && res == Success && GoodRing(r') && Tracks(r', low)
            && (forall k :: EntryOfMsg(r', low, k) == if k == n then Some(Live(kind, elem)) else EntryOfMsg(r, low, k))
  {
    RingsDivide(r);
    InsertAgrees(r, low, n, elem, kind);
  }

  lemma {:induction false} InsertTaken(r: Ring<Elem>, low: nat, n: nat, elem: Elem, kind: Kind)
    requires GoodRing(r) && Tracks(r, low) && Near(low, n)
    requires EntryOfMsg(r, low, n).Some? && EntryOfMsg(r, low, n).value.Live?
    ensures var (r', res, st) := Insert(r, n % SEQ_SPAN, elem, kind);
            res == InvalidIdx && st == InProgress
  {
    RingsDivide(r);
    InsertAgrees(r, low, n, elem, kind);
  }

  lemma {:induction false} RetrieveIs(r: Ring<Elem>, low: nat, n: nat)
    requires GoodRing(r) && Tracks(r, low) && Near(low, n)
    ensures EntryOfMsg(r, low, n).None? ==> Retrieve(r, n % SEQ_SPAN) == (InvalidIdx, NotStarted, None)
    ensures EntryOfMsg(r, low, n).Some? && EntryOfMsg(r, low, n).value.Live? ==>
              var e := EntryOfMsg(r, low, n).value;
              Retrieve(r, n % SEQ_SPAN) == (Success, InProgress, Some((e.kind, Some(e.elem))))
  {
    RetrieveAgrees(r, low, n);
  }

  lemma {:induction false} ReplaceHeld(r: Ring<Elem>, low: nat, n: nat, elem: Elem, kind: Kind)
    requires GoodRing(r) && Tracks(r, low) && Near(low, n)
    requires EntryOfMsg(r, low, n).Some? && EntryOfMsg(r, low, n).value.Live?
    ensures var (r', res, st) := Replace(r, n % SEQ_SPAN, elem, kind);
            && res == Success && GoodRing(r') && Tracks(r', low)
            && (forall k :: EntryOfMsg(r', low, k) == if k == n then Some(Live(kind, elem)) else EntryOfMsg(r, low, k))
  {
    RingsDivide(r);
    ReplaceAgrees(r, low, n, elem, kind);
  }

  /** A number past the window, but not a whole turn past it, finds no room. */
  lemma {:induction false} InsertFar(r: Ring<Elem>, low: nat, n: nat, elem: Elem, kind: Kind)
    requires GoodRing(r) && Tracks(r, low) && low + SLOTS <= n < low + 3 * SLOTS
    ensures IdxStatus(r, n % SEQ_SPAN) == Unavailable
    ensures Insert(r, n % SEQ_SPAN, elem, kind) == (r, InvalidIdx, Unavailable)
    ensures Retrieve(r, n % SEQ_SPAN) == (InvalidIdx, NotStarted, None)
  {
    forall k {:trigger InWindow(r, low, k)} | InWindow(r, low, k) ensures k % SEQ_SPAN != n % SEQ_SPAN {
      ModEqual(n, k, SEQ_SPAN);
    }
    OutsideUnavailable(r, low, n % SEQ_SPAN);
  }

  lemma {:induction false} SkipPasses(low: nat, done: set<nat>, k: nat)
    requires low <= k < Skip(low, done)
    ensures k in done
    decreases |done|
  {
    if low < k {
      SkipPasses(low + 1, done - {low}, k);
    }
  }

  /** Trimming a ledger skips what is done from its low end on. */
  lemma {:induction false} TrimSkips(a: Ledger<Elem>, done: set<nat>)
    requires forall k :: k >= a.low ==> (k in done <==> k in a.entries && a.entries[k].Done?)
    requires forall k :: k in a.entries ==> k >= a.low
    ensures Trim(a).low == Skip(a.low, done)
    ensures forall k: nat :: EntryAt(Trim(a), k) == if k < Trim(a).low then None else EntryAt(a, k)
    decreases |a.entries|
  {
    if a.low in a.entries && a.entries[a.low].Done? {
      var a1 := Ledger(a.low + 1, a.entries - {a.low});
      TrimSkips(a1, done - {a.low});
      assert Trim(a) == Trim(a1);
    }
  }

  /** The ring r' is r with message n marked as done, seen from low' on. */
  ghost predicate Marked(r: Ring<Elem>, low: nat, r': Ring<Elem>, low': nat, n: nat)
  {
    && Tracks(r, low) && GoodRing(r') && Tracks(r', low')
    && forall k: nat :: EntryOfMsg(r', low', k)
                     == if k < low' then None else if k == n then Some(Done) else EntryOfMsg(r, low, k)
  }

  /** Completing any live message marks it, and moves the window past everything done at its low end. */
  lemma {:induction false} CompleteAny(r: Ring<Elem>, low: nat, n: nat, done: set<nat>)
    requires GoodRing(r) && Tracks(r, low) && Near(low, n)
    requires EntryOfMsg(r, low, n).Some? && EntryOfMsg(r, low, n).value.Live?
    requires forall k :: k >= low ==> (k in done <==> k == n || EntryOfMsg(r, low, k) == Some(Done))
    ensures var (r', res, st) := Complete(r, n % SEQ_SPAN);
            res == Success && Marked(r, low, r', Skip(low, done), n)
  {
    hide Complete, Tracks, GoodRing, Trim, Skip;
    RingsDivide(r);
    CompleteEntries(r, low, n);
    var a := Abs(r, low);
    var a1 := a.(entries := a.entries[n := Done]);
    forall k | k in a1.entries ensures k >= low {
      if k != n {
        EntriesNear(r, low, k);
      }
    }
    forall k | k >= low ensures k in done <==> k in a1.entries && a1.entries[k].Done? {
      assert EntryAt(a, k) == EntryOfMsg(r, low, k);
    }
    TrimSkips(a1, done);
  }

  lemma {:induction false} CompleteEntries(r: Ring<Elem>, low: nat, n: nat)
    requires GoodRing(r) && Tracks(r, low) && Near(low, n)
    requires EntryOfMsg(r, low, n).Some? && EntryOfMsg(r, low, n).value.Live?
    ensures var (r', res, st) := Complete(r, n % SEQ_SPAN);
            var a := Abs(r, low);
            var a' := Trim(a.(entries := a.entries[n := Done]));
            res == Success && GoodRing(r') && Tracks(r', a'.low) && Abs(r', a'.low) == a' && a.low == low
  {
    hide Complete, Trim;
    RingsDivide(r);
    CompleteAgrees(r, low, n);
    CompleteKeepsSize(r, n % SEQ_SPAN);
  }

  lemma {:induction false} CompleteKeepsSize(r: Ring<Elem>, idx: nat)
    requires GoodRing(r) && idx < SEQ_SPAN
    ensures GoodRing(Complete(r, idx).0)
  {
  }
}

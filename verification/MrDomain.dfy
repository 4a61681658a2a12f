/**
 Whole runs of the registration cache, first under arbitrary callers and then under the domain's
 register and deregister calls.

 Reference counts are conserved: what an entry counts is what was inserted and found minus what was
 deleted. So a registration lives exactly as long as it has holders. Whether its holders may also use
 it for the bytes they asked for depends on the page size alone.
 */
module MrDomain {
  import opened Arithmetic
  import opened Collections
  import opened MrCache

  // Sums over the cache

  /** The references to h that the entries count. */
  ghost function Refs(s: seq<Entry>, h: Handle): int
  {
    if s == [] then 0 else (if s[0].handle == h then s[0].refcnt else 0) + Refs(s[1..], h)
  }

  /** The number of entries for h. */
  ghost function Live(s: seq<Entry>, h: Handle): nat
  {
    if s == [] then 0 else (if s[0].handle == h then 1 else 0) + Live(s[1..], h)
  }

  lemma {:induction false} SumsAppend(a: seq<Entry>, b: seq<Entry>, h: Handle)
    ensures Refs(a + b, h) == Refs(a, h) + Refs(b, h)
    ensures Live(a + b, h) == Live(a, h) + Live(b, h)
  {
    if a == [] {
      assert a + b == b;
    } else {
      assert (a + b)[1..] == a[1..] + b;
      SumsAppend(a[1..], b, h);
    }
  }

  lemma {:induction false} SumsInsert(a: seq<Entry>, e: Entry, b: seq<Entry>, h: Handle)
    ensures Refs(a + [e] + b, h) == Refs(a + b, h) + if e.handle == h then e.refcnt else 0
    ensures Live(a + [e] + b, h) == Live(a + b, h) + if e.handle == h then 1 else 0
  {
    SumsAppend(a, b, h);
    SumsAppend(a + [e], b, h);
    SumsAppend(a, [e], h);
    assert [e][1..] == [];
  }

  lemma {:induction false} SumsUpdate(s: seq<Entry>, i: nat, e: Entry, h: Handle)
    requires i < |s| && e.handle == s[i].handle
    ensures Refs(s[i := e], h) == Refs(s, h) + if e.handle == h then e.refcnt - s[i].refcnt else 0
    ensures Live(s[i := e], h) == Live(s, h)
  {
    var a, b := s[..i], s[i + 1..];
    assert s == a + [s[i]] + b && s[i := e] == a + [e] + b;
    SumsInsert(a, s[i], b, h);
    SumsInsert(a, e, b, h);
  }

  lemma {:induction false} SumsRemove(s: seq<Entry>, i: nat, h: Handle)
    requires i < |s|
    ensures Refs(s[..i] + s[i + 1..], h) == Refs(s, h) - if s[i].handle == h then s[i].refcnt else 0
    ensures Live(s[..i] + s[i + 1..], h) == Live(s, h) - if s[i].handle == h then 1 else 0
  {
    assert s == s[..i] + [s[i]] + s[i + 1..];
    SumsInsert(s[..i], s[i], s[i + 1..], h);
  }

  lemma {:induction false} LiveIff(s: seq<Entry>, h: Handle)
    ensures Live(s, h) > 0 <==> IndexOf(s, h) < |s|
    ensures Live(s, h) > 0 <==> exists i :: 0 <= i < |s| && s[i].handle == h
  {
    if s != [] {
      LiveIff(s[1..], h);
      if s[0].handle != h && exists i :: 0 <= i < |s| && s[i].handle == h {
        var i :| 0 <= i < |s| && s[i].handle == h;
        assert s[1..][i - 1].handle == h;
      }
    }
  }

  /** With every count positive, references and entries vanish together. */
  lemma {:induction false} RefsPositive(s: seq<Entry>, h: Handle, page: nat)
    requires page > 0 && Ordered(s, page)
    ensures Refs(s, h) >= Live(s, h)
    ensures Refs(s, h) == 0 ==> Live(s, h) == 0
  {
    if s != [] {
      RefsPositive(s[1..], h, page);
    }
  }

  // Arbitrary callers

  datatype Op = Lookup(key: Key) | Insert(key: Key, handle: Handle) | Delete(handle: Handle)

  ghost function Next(s: seq<Entry>, op: Op, page: nat): seq<Entry>
    requires page > 0
  {
    match op
    case Lookup(key) => AfterLookup(s, key, page)
    case Insert(key, handle) => AfterInsert(s, key, handle, page)
    case Delete(handle) => AfterDel(s, handle)
  }

  ghost function Run(s: seq<Entry>, ops: seq<Op>, page: nat): seq<Entry>
    requires page > 0
    decreases |ops|
  {
    if ops == [] then s else Run(Next(s, ops[0], page), ops[1..], page)
  }

  /** References to h given out by one call (one found or inserted) or handed back by it. */
  ghost function Gain(s: seq<Entry>, op: Op, h: Handle, page: nat): int
    requires page > 0
  {
    match op
    case Lookup(key) => if LookupResult(s, key, page) == Some(h) then 1 else 0
    case Insert(key, handle) => if handle == h && InsertResult(s, key, page) == 0 then 1 else 0
    case Delete(handle) => if handle == h && DelResult(s, handle) >= 0 then -1 else 0
  }

  ghost function Added(s: seq<Entry>, op: Op, h: Handle, page: nat): nat
    requires page > 0
  {
    if op.Insert? && op.handle == h && InsertResult(s, op.key, page) == 0 then 1 else 0
  }

  /** A delete that tells its caller to deregister h. */
  ghost function Ended(s: seq<Entry>, op: Op, h: Handle): nat
  {
    if op.Delete? && op.handle == h && DelResult(s, h) == 1 then 1 else 0
  }

  ghost function Balance(s: seq<Entry>, ops: seq<Op>, h: Handle, page: nat): int
    requires page > 0
    decreases |ops|
  {
    if ops == [] then 0 else Gain(s, ops[0], h, page) + Balance(Next(s, ops[0], page), ops[1..], h, page)
  }

  ghost function Inserted(s: seq<Entry>, ops: seq<Op>, h: Handle, page: nat): nat
    requires page > 0
    decreases |ops|
  {
    if ops == [] then 0 else Added(s, ops[0], h, page) + Inserted(Next(s, ops[0], page), ops[1..], h, page)
  }

  ghost function Dropped(s: seq<Entry>, ops: seq<Op>, h: Handle, page: nat): nat
    requires page > 0
    decreases |ops|
  {
    if ops == [] then 0 else Ended(s, ops[0], h) + Dropped(Next(s, ops[0], page), ops[1..], h, page)
  }

  lemma {:induction false} StepOrdered(s: seq<Entry>, op: Op, page: nat)
    requires page > 0 && Ordered(s, page)
    ensures Ordered(Next(s, op, page), page)
  {
    match op
    case Lookup(key) => LookupOrdered(s, key, page);
    case Insert(key, handle) => InsertOrdered(s, key, handle, page);
    case Delete(handle) => DelOrdered(s, handle, page);
  }

  lemma {:induction false} LookupConserves(s: seq<Entry>, key: Key, h: Handle, page: nat)
    requires page > 0
    ensures Refs(AfterLookup(s, key, page), h) == Refs(s, h) + if LookupResult(s, key, page) == Some(h) then 1 else 0
    ensures Live(AfterLookup(s, key, page), h) == Live(s, h)
  {
    hide Refs, Live, FirstFor;
    var i := FirstFor(s, key, page);
    if i < |s| {
      SumsUpdate(s, i, Counted(s[i], 1), h);
    }
  }

  lemma {:induction false} InsertConserves(s: seq<Entry>, key: Key, handle: Handle, h: Handle, page: nat)
    requires page > 0
    ensures var d := if handle == h && InsertResult(s, key, page) == 0 then 1 else 0;
            && Refs(AfterInsert(s, key, handle, page), h) == Refs(s, h) + d
            && Live(AfterInsert(s, key, handle, page), h) == Live(s, h) + d
  {
    hide Refs, Live, FirstFor, Place, PageAddr, Pages;
    var q := PageAddr(BaseAddr(key), page);
    var at := Place(s, q);
    assert s[..at] + s[at..] == s;
    SumsInsert(s[..at], Entry(q, Pages(BaseAddr(key), Len(key), page), 1, handle), s[at..], h);
  }

  lemma {:induction false} DelConserves(s: seq<Entry>, handle: Handle, h: Handle)
    ensures Refs(AfterDel(s, handle), h) == Refs(s, h) - if handle == h && DelResult(s, h) >= 0 then 1 else 0
    ensures Live(AfterDel(s, handle), h) == Live(s, h) - if handle == h && DelResult(s, h) == 1 then 1 else 0
  {
    hide Refs, Live;
    var i := IndexOf(s, handle);
    if i < |s| {
      SumsUpdate(s, i, Counted(s[i], -1), h);
      SumsRemove(s, i, h);
    }
  }

  lemma {:induction false} StepConserves(s: seq<Entry>, op: Op, h: Handle, page: nat)
    requires page > 0
    ensures Refs(Next(s, op, page), h) == Refs(s, h) + Gain(s, op, h, page)
    ensures Live(Next(s, op, page), h) == Live(s, h) + Added(s, op, h, page) - Ended(s, op, h)
  {
    hide Refs, Live, AfterLookup, AfterInsert, AfterDel, LookupResult, InsertResult, DelResult;
    match op
    case Lookup(key) => LookupConserves(s, key, h, page);
    case Insert(key, handle) => InsertConserves(s, key, handle, h, page);
    case Delete(handle) => DelConserves(s, handle, h);
  }

  /** Over any run, an entry counts one plus its hits minus its deletes, and is dropped once per insertion. */
  lemma {:induction false} RunConserves(s: seq<Entry>, ops: seq<Op>, h: Handle, page: nat)
    requires page > 0 && Ordered(s, page)
    ensures Ordered(Run(s, ops, page), page)
    ensures Refs(Run(s, ops, page), h) == Refs(s, h) + Balance(s, ops, h, page)
    ensures Live(Run(s, ops, page), h) == Live(s, h) + Inserted(s, ops, h, page) - Dropped(s, ops, h, page)
    decreases |ops|
  {
    if ops != [] {
      StepOrdered(s, ops[0], page);
      StepConserves(s, ops[0], h, page);
      RunConserves(Next(s, ops[0], page), ops[1..], h, page);
    }
  }

  // The domain's calls

  const CACHE_PAGE_SIZE: nat := 4096

  /** Plain buffers are grown to this alignment before they are registered or looked up. */
  function Alignment(page: nat): nat
  {
    Min(page, CACHE_PAGE_SIZE)
  }

  /** The key under which a caller's buffer is looked up and, on a miss, registered. */
  function KeyFor(asked: Key, page: nat): (key: Key)
    requires page > 0
    ensures BaseAddr(key) <= BaseAddr(asked) && End(asked) <= End(key)
  {
    match asked
    case IoVec(base, len) => MakeVec(base, len, Alignment(page))
    case DmaBuf(_, _, _, _) => asked
  }

  datatype Grant = Grant(handle: Handle, asked: Key)

  /** `registered` maps each handle known to the device to the byte range registered for it. */
  datatype Domain = Domain(entries: seq<Entry>, registered: map<Handle, (nat, nat)>, holders: seq<Grant>)

  /** `minted` is the handle a registration with the device would return. */
  datatype Call = Register(asked: Key, minted: Handle) | Release(i: nat)

  /** A new handle is a new allocation; callers hand back what they hold. */
  ghost predicate Enabled(d: Domain, call: Call)
  {
    match call
    case Register(_, minted) => minted !in d.registered
    case Release(i) => i < |d.holders|
  }

  ghost function RegMr(d: Domain, asked: Key, minted: Handle, page: nat): Domain
    requires page > 0
  {
    var key := KeyFor(asked, page);
    var found := LookupResult(d.entries, key, page);
    var s := AfterLookup(d.entries, key, page);
    if found.Some? then d.(entries := s, holders := d.holders + [Grant(found.value, asked)])
    else if InsertResult(s, key, page) != 0 then d.(entries := s)
    else Domain(AfterInsert(s, key, minted, page), d.registered[minted := (BaseAddr(key), End(key))],
                d.holders + [Grant(minted, asked)])
  }

  ghost function DeregMr(d: Domain, i: nat): Domain
    requires i < |d.holders|
  {
    var h := d.holders[i].handle;
    Domain(AfterDel(d.entries, h),
           if DelResult(d.entries, h) == 0 then d.registered else d.registered - {h},
           d.holders[..i] + d.holders[i + 1..])
  }

  ghost function Do(d: Domain, call: Call, page: nat): Domain
    requires page > 0 && Enabled(d, call)
  {
    match call
    case Register(asked, minted) => RegMr(d, asked, minted, page)
    case Release(i) => DeregMr(d, i)
  }

  ghost predicate Feasible(d: Domain, calls: seq<Call>, page: nat)
    requires page > 0
    decreases |calls|
  {
    calls == [] || (Enabled(d, calls[0]) && Feasible(Do(d, calls[0], page), calls[1..], page))
  }

  ghost function DoAll(d: Domain, calls: seq<Call>, page: nat): Domain
    requires page > 0 && Feasible(d, calls, page)
    decreases |calls|
  {
    if calls == [] then d else DoAll(Do(d, calls[0], page), calls[1..], page)
  }

  const EMPTY := Domain([], map[], [])

  ghost function Holds(g: seq<Grant>, h: Handle): nat
  {
    if g == [] then 0 else (if g[0].handle == h then 1 else 0) + Holds(g[1..], h)
  }

  lemma {:induction false} HoldsAppend(a: seq<Grant>, b: seq<Grant>, h: Handle)
    ensures Holds(a + b, h) == Holds(a, h) + Holds(b, h)
  {
    if a == [] {
      assert a + b == b;
    } else {
      assert (a + b)[1..] == a[1..] + b;
      HoldsAppend(a[1..], b, h);
    }
  }

  lemma {:induction false} HoldsInsert(a: seq<Grant>, g: Grant, b: seq<Grant>, h: Handle)
    ensures Holds(a + [g] + b, h) == Holds(a + b, h) + if g.handle == h then 1 else 0
  {
    HoldsAppend(a, b, h);
    HoldsAppend(a + [g], b, h);
    HoldsAppend(a, [g], h);
    assert [g][1..] == [];
  }

  lemma {:induction false} HoldsIff(g: seq<Grant>, h: Handle)
    ensures Holds(g, h) > 0 <==> exists i :: 0 <= i < |g| && g[i].handle == h
  {
    if g != [] {
      HoldsIff(g[1..], h);
      if g[0].handle != h && exists i :: 0 <= i < |g| && g[i].handle == h {
        var i :| 0 <= i < |g| && g[i].handle == h;
        assert g[1..][i - 1].handle == h;
      }
    }
  }

  /** One entry per registration, and one reference per holder. */
  ghost predicate Balanced(d: Domain, h: Handle)
  {
    && Live(d.entries, h) == (if h in d.registered then 1 else 0)
    && Refs(d.entries, h) == Holds(d.holders, h)
  }

  ghost predicate Inv(d: Domain, page: nat)
    requires page > 0
  {
    Ordered(d.entries, page) && forall h :: Balanced(d, h)
  }

  lemma {:induction false} LiveZero(s: seq<Entry>, h: Handle)
    requires Live(s, h) == 0
    ensures Refs(s, h) == 0
  {
    if s != [] {
      LiveZero(s[1..], h);
    }
  }

  lemma {:induction false} RegBalances(d: Domain, asked: Key, minted: Handle, page: nat, h: Handle)
    requires page > 0 && Balanced(d, h) && minted !in d.registered
    ensures Balanced(RegMr(d, asked, minted, page), h)
  {
    hide Refs, Live, Holds, AfterLookup, AfterInsert, LookupResult, InsertResult;
    var key := KeyFor(asked, page);
    LookupConserves(d.entries, key, h, page);
    InsertConserves(AfterLookup(d.entries, key, page), key, minted, h, page);
    var d' := RegMr(d, asked, minted, page);
    if d'.holders != d.holders {
      var g := d'.holders[|d.holders|];
      assert d'.holders == d.holders + [g] + [] && d.holders + [] == d.holders;
      HoldsInsert(d.holders, g, [], h);
    }
  }

  lemma {:induction false} DeregBalances(d: Domain, i: nat, page: nat, h: Handle)
    requires page > 0 && Inv(d, page) && i < |d.holders|
    ensures Balanced(DeregMr(d, i), h)
    ensures DelResult(d.entries, d.holders[i].handle) >= 0
  {
    hide Refs, Live, Holds, AfterDel, Ordered;
    var mine := d.holders[i].handle;
    assert Balanced(d, h) && Balanced(d, mine);
    assert d.holders == d.holders[..i] + [d.holders[i]] + d.holders[i + 1..];
    HoldsInsert(d.holders[..i], d.holders[i], d.holders[i + 1..], h);
    DelConserves(d.entries, mine, h);
    HoldsIff(d.holders, mine);
    if Live(d.entries, mine) == 0 {
      LiveZero(d.entries, mine);
    }
    LiveIff(d.entries, mine);
  }

  lemma {:induction false} DoKeepsInv(d: Domain, call: Call, page: nat)
    requires page > 0 && Inv(d, page) && Enabled(d, call)
    ensures Inv(Do(d, call, page), page)
  {
    hide Balanced, Ordered;
    match call
    case Register(asked, minted) =>
      var key := KeyFor(asked, page);
      LookupOrdered(d.entries, key, page);
      InsertOrdered(AfterLookup(d.entries, key, page), key, minted, page);
      forall h ensures Balanced(RegMr(d, asked, minted, page), h) {
        RegBalances(d, asked, minted, page, h);
      }
    case Release(i) =>
      DelOrdered(d.entries, d.holders[i].handle, page);
      forall h ensures Balanced(DeregMr(d, i), h) {
        DeregBalances(d, i, page, h);
      }
  }

  lemma {:induction false} RunKeepsInv(d: Domain, calls: seq<Call>, page: nat)
    requires page > 0 && Inv(d, page) && Feasible(d, calls, page)
    ensures Inv(DoAll(d, calls, page), page)
    decreases |calls|
  {
    if calls != [] {
      DoKeepsInv(d, calls[0], page);
      RunKeepsInv(Do(d, calls[0], page), calls[1..], page);
    }
  }

  /** In every run, a handle is registered with the device exactly while someone holds it. */
  lemma {:induction false} RegisteredIffHeld(calls: seq<Call>, h: Handle, page: nat)
    requires page > 0 && Feasible(EMPTY, calls, page)
    ensures var d := DoAll(EMPTY, calls, page);
            h in d.registered <==> exists i :: 0 <= i < |d.holders| && d.holders[i].handle == h
  {
    RunKeepsInv(EMPTY, calls, page);
    var d := DoAll(EMPTY, calls, page);
    assert Balanced(d, h);
    HoldsIff(d.holders, h);
    RefsPositive(d.entries, h, page);
    if Live(d.entries, h) == 0 {
      LiveZero(d.entries, h);
    }
  }

  /** In every run, a miss is followed by a successful insertion and a release finds its entry. */
  lemma {:induction false} CallsSucceed(calls: seq<Call>, call: Call, page: nat)
    requires page > 0 && Feasible(EMPTY, calls, page) && Enabled(DoAll(EMPTY, calls, page), call)
    ensures var d := DoAll(EMPTY, calls, page);
            match call
            case Register(asked, minted) => |Do(d, call, page).holders| == |d.holders| + 1
            case Release(i) => DelResult(d.entries, d.holders[i].handle) >= 0
  {
    RunKeepsInv(EMPTY, calls, page);
    var d := DoAll(EMPTY, calls, page);
    if call.Release? {
      DeregBalances(d, call.i, page, 0);
    }
  }
}

/**
 Whether a handle given out by the registration cache covers the bytes its holder asked for.

 The cache keeps whole pages, but the device registers only the bytes of the key. The two agree
 exactly for keys that begin and end at page boundaries. Plain buffers are grown to the smaller of the
 page size and 4096 bytes, so they are safe on every run exactly if pages are not larger than that.
 DMA-buf keys are taken as they are.
 */
module MrCoverage {
  import opened Arithmetic
  import opened Collections
  import opened MrCache
  import opened MrDomain
  import opened Rounding

  ghost predicate PageAligned(key: Key, page: nat)
    requires page > 0
  {
    Multiple(BaseAddr(key), page) && Multiple(End(key), page)
  }

  function EntryFor(key: Key, handle: Handle, page: nat): Entry
    requires page > 0
  {
    Entry(PageAddr(BaseAddr(key), page), Pages(BaseAddr(key), Len(key), page), 1, handle)
  }

  /** Every byte of [base, base + len) is among the bytes of the key. */
  predicate Within(base: nat, len: nat, key: Key)
  {
    len == 0 || (BaseAddr(key) <= base && base + len <= End(key))
  }

  /** Every buffer that finds the entry of `key` lies inside the bytes registered for `key`. */
  ghost predicate ServesOnlyItsBytes(key: Key, alignment: nat, page: nat)
    requires page > 0 && alignment > 0
  {
    forall base, len :: Spans(EntryFor(key, 0, page), MakeVec(base, len, alignment), page) ==> Within(base, len, key)
  }

  lemma {:induction false} AlignedEntry(key: Key, handle: Handle, page: nat)
    requires page > 0 && PageAligned(key, page)
    ensures var e := EntryFor(key, handle, page);
            e.addr == BaseAddr(key) && Steps(e.addr, e.pages, page) == End(key)
  {
    hide Multiple, Steps, Pages, RoundDown;
    PagesEnd(BaseAddr(key), Len(key), page);
    MultiplesApart(PageAddr(BaseAddr(key), page), BaseAddr(key), page);
    MultiplesApart(RoundUp(End(key), page), End(key), page);
  }

  /** One byte between two multiples of the alignment is grown to an interval between them. */
  lemma {:induction false} UnitBetween(x: nat, lo: nat, hi: nat, alignment: nat)
    requires alignment > 0 && Multiple(lo, alignment) && Multiple(hi, alignment) && lo <= x < hi
    ensures var key := MakeVec(x, 1, alignment); lo <= BaseAddr(key) && End(key) <= hi
  {
    hide Multiple, RoundDown;
    MultiplesApart(RoundDown(x, alignment), lo, alignment);
    MultiplesApart(hi, RoundUp(x + 1, alignment), alignment);
  }

  /** A key not at page boundaries serves some byte of its first or last page that it does not hold. */
  lemma {:induction false} StrayByte(key: Key, alignment: nat, page: nat) returns (x: nat)
    requires page > 0 && alignment > 0 && Multiple(page, alignment) && !PageAligned(key, page)
    ensures Spans(EntryFor(key, 0, page), MakeVec(x, 1, alignment), page) && !Within(x, 1, key)
  {
    hide Multiple, Steps, Pages, RoundDown, MakeVec;
    var lo, hi := PageAddr(BaseAddr(key), page), RoundUp(End(key), page);
    PagesEnd(BaseAddr(key), Len(key), page);
    MultipleOfMultiple(lo, page, alignment);
    MultipleOfMultiple(hi, page, alignment);
    x := if lo < BaseAddr(key) then lo else End(key);
    UnitBetween(x, lo, hi, alignment);
  }

  /** Hits on a key, of whatever kind, are sound for every buffer exactly if it begins and ends at page boundaries. */
  lemma {:induction false} ServesIffAligned(key: Key, alignment: nat, page: nat)
    requires page > 0 && alignment > 0 && Multiple(page, alignment)
    ensures ServesOnlyItsBytes(key, alignment, page) <==> PageAligned(key, page)
  {
    if PageAligned(key, page) {
      AlignedEntry(key, 0, page);
    } else {
      var x := StrayByte(key, alignment, page);
    }
  }

  // Whole runs

  /** Every holder's bytes are among those registered for its handle. */
  ghost predicate Covered(d: Domain)
  {
    forall i :: 0 <= i < |d.holders| ==>
      var g := d.holders[i];
      g.handle in d.registered && d.registered[g.handle].0 <= BaseAddr(g.asked) && End(g.asked) <= d.registered[g.handle].1
  }

  /** Every entry's pages are the bytes registered for its handle. */
  ghost predicate Exact(d: Domain, page: nat)
  {
    forall i :: 0 <= i < |d.entries| ==>
      var e := d.entries[i];
      e.handle in d.registered && d.registered[e.handle] == (e.addr, Steps(e.addr, e.pages, page))
  }

  ghost predicate AsksAligned(call: Call, page: nat)
    requires page > 0
  {
    call.Register? ==> PageAligned(KeyFor(call.asked, page), page)
  }

  lemma {:induction false} HitCovers(d: Domain, asked: Key, minted: Handle, page: nat)
    requires page > 0 && Ordered(d.entries, page) && Covered(d) && Exact(d, page)
    requires FirstFor(d.entries, KeyFor(asked, page), page) < |d.entries|
    ensures var d' := RegMr(d, asked, minted, page); Covered(d') && Exact(d', page)
  {
    hide First, PageAddr, Pages, AfterInsert, InsertResult, KeyFor, Spans;
    var key := KeyFor(asked, page);
    var i := FirstFor(d.entries, key, page);
    HitSpans(d.entries, key, page);
    SpansAsked(d.entries[i], asked, page);
    var d' := RegMr(d, asked, minted, page);
    assert d' == d.(entries := d.entries[i := Counted(d.entries[i], 1)], holders := d.holders + [Grant(d.entries[i].handle, asked)]);
  }

  lemma {:induction false} HitSpans(s: seq<Entry>, key: Key, page: nat)
    requires page > 0 && Ordered(s, page) && FirstFor(s, key, page) < |s|
    ensures Spans(s[FirstFor(s, key, page)], key, page)
  {
    CoversSpans(s[FirstFor(s, key, page)], key, page);
  }

  lemma {:induction false} SpansAsked(e: Entry, asked: Key, page: nat)
    requires page > 0 && Spans(e, KeyFor(asked, page), page)
    ensures e.addr <= BaseAddr(asked) && End(asked) <= Steps(e.addr, e.pages, page)
  {
  }

  lemma {:induction false} MissCovers(d: Domain, asked: Key, minted: Handle, page: nat)
    requires page > 0 && Covered(d) && Exact(d, page)
    requires minted !in d.registered && PageAligned(KeyFor(asked, page), page)
    requires FirstFor(d.entries, KeyFor(asked, page), page) == |d.entries|
    ensures var d' := RegMr(d, asked, minted, page); Covered(d') && Exact(d', page)
  {
    hide First, FirstFor, Place, PageAddr, Pages;
    var key := KeyFor(asked, page);
    AlignedEntry(key, minted, page);
    var at := Place(d.entries, PageAddr(BaseAddr(key), page));
    var d' := RegMr(d, asked, minted, page);
    assert d'.entries == d.entries[..at] + [EntryFor(key, minted, page)] + d.entries[at..];
    assert d'.holders == d.holders + [Grant(minted, asked)];
  }

  lemma {:induction false} RegisterCovers(d: Domain, asked: Key, minted: Handle, page: nat)
    requires page > 0 && Inv(d, page) && Covered(d) && Exact(d, page)
    requires minted !in d.registered && PageAligned(KeyFor(asked, page), page)
    ensures var d' := RegMr(d, asked, minted, page); Covered(d') && Exact(d', page)
  {
    hide Covered, Exact, RegMr, FirstFor, KeyFor;
    if FirstFor(d.entries, KeyFor(asked, page), page) < |d.entries| {
      HitCovers(d, asked, minted, page);
    } else {
      MissCovers(d, asked, minted, page);
    }
  }

  /** A handle whose last entry is gone has neither entries nor holders left. */
  lemma {:induction false} GoneEntirely(d: Domain, h: Handle, page: nat)
    requires page > 0 && Inv(d, page) && h !in d.registered
    ensures forall i :: 0 <= i < |d.entries| ==> d.entries[i].handle != h
    ensures forall i :: 0 <= i < |d.holders| ==> d.holders[i].handle != h
  {
    assert Balanced(d, h);
    LiveIff(d.entries, h);
    LiveZero(d.entries, h);
    HoldsIff(d.holders, h);
  }

  lemma {:induction false} ReleaseCovers(d: Domain, i: nat, page: nat)
    requires page > 0 && Inv(d, page) && Covered(d) && Exact(d, page) && i < |d.holders|
    ensures var d' := DeregMr(d, i); Covered(d') && Exact(d', page)
  {
    hide Inv, IndexOf;
    var d' := DeregMr(d, i);
    var h := d.holders[i].handle;
    DoKeepsInv(d, Release(i), page);
    if h !in d'.registered {
      GoneEntirely(d', h, page);
    }
    forall j | 0 <= j < |d'.holders| ensures d'.holders[j] in d.holders {
    }
    forall j | 0 <= j < |d'.entries|
      ensures exists k :: 0 <= k < |d.entries| && d.entries[k] == d'.entries[j].(refcnt := d.entries[k].refcnt)
    {
      var at := IndexOf(d.entries, h);
      var k := if |d'.entries| < |d.entries| && j >= at then j + 1 else j;
      assert d.entries[k] == d'.entries[j].(refcnt := d.entries[k].refcnt);
    }
  }

  lemma {:induction false} RunCovers(d: Domain, calls: seq<Call>, page: nat)
    requires page > 0 && Inv(d, page) && Covered(d) && Exact(d, page) && Feasible(d, calls, page)
    requires forall i :: 0 <= i < |calls| ==> AsksAligned(calls[i], page)
    ensures Covered(DoAll(d, calls, page))
    decreases |calls|
  {
    hide Inv, Covered, Exact, RegMr, DeregMr;
    if calls != [] {
      DoKeepsInv(d, calls[0], page);
      assert AsksAligned(calls[0], page);
      match calls[0] {
        case Register(asked, minted) => RegisterCovers(d, asked, minted, page);
        case Release(i) => ReleaseCovers(d, i, page);
      }
      RunCovers(Do(d, calls[0], page), calls[1..], page);
    }
  }

  // The exact condition, for runs

  lemma {:induction false} AlignmentDivides(page: nat)
    requires PowerOfTwo(page)
    ensures Alignment(page) > 0 && Multiple(page, Alignment(page))
  {
    CachePageIsPower();
    PowerMultiple(page, Alignment(page));
  }

  lemma {:induction false} CachePageIsPower()
    ensures PowerOfTwo(CACHE_PAGE_SIZE)
  {
    assert PowerOfTwo(2) && PowerOfTwo(4) && PowerOfTwo(8) && PowerOfTwo(16);
    assert PowerOfTwo(32) && PowerOfTwo(64) && PowerOfTwo(128) && PowerOfTwo(256);
    assert PowerOfTwo(512) && PowerOfTwo(1024) && PowerOfTwo(2048) && PowerOfTwo(4096);
  }

  /** The domain after its first registration. */
  function OneHolder(asked: Key, page: nat): Domain
    requires page > 0
  {
    var key := KeyFor(asked, page);
    Domain([EntryFor(key, 1, page)], map[1 := (BaseAddr(key), End(key))], [Grant(1, asked)])
  }

  function TwoCalls(asked: Key, other: Key): seq<Call>
  {
    [Register(asked, 1), Register(other, 2)]
  }

  /** A run after which some holder's bytes are not covered by its handle. */
  ghost predicate Strays(calls: seq<Call>, page: nat)
    requires page > 0
  {
    Feasible(EMPTY, calls, page) && !Covered(DoAll(EMPTY, calls, page))
  }

  lemma {:induction false} TwoCallsEnd(asked: Key, other: Key, page: nat)
    requires page > 0
    ensures Feasible(EMPTY, TwoCalls(asked, other), page)
    ensures DoAll(EMPTY, TwoCalls(asked, other), page) == RegMr(OneHolder(asked, page), other, 2, page)
  {
    hide KeyFor, PageAddr, Pages;
    var calls, d := TwoCalls(asked, other), OneHolder(asked, page);
    assert RegMr(EMPTY, asked, 1, page) == d;
    assert calls[1..] == [calls[1]] && calls[1..][1..] == [];
    assert Feasible(d, calls[1..], page) && DoAll(d, calls[1..], page) == Do(d, calls[1], page);
  }

  /** A second buffer in the pages of a first one is given the first one's handle. */
  lemma {:induction false} SharesHandle(asked: Key, other: Key, page: nat)
    requires page > 0 && Spans(EntryFor(KeyFor(asked, page), 1, page), KeyFor(other, page), page)
    ensures var d := RegMr(OneHolder(asked, page), other, 2, page);
            d.registered == OneHolder(asked, page).registered && d.holders == [Grant(1, asked), Grant(1, other)]
  {
    hide KeyFor, PageAddr, Pages, AfterInsert, InsertResult, Spans, Steps;
    var e := EntryFor(KeyFor(asked, page), 1, page);
    OnBoundary(KeyFor(asked, page), page);
    CoversSpans(e, KeyFor(other, page), page);
    assert OneHolder(asked, page).entries[0] == e;
  }

  lemma {:induction false} OnBoundary(key: Key, page: nat)
    requires page > 0
    ensures Multiple(EntryFor(key, 1, page).addr, page)
  {
  }

  /** If the second buffer is not within the first one's key, it is not covered. */
  lemma {:induction false} StrayHolder(asked: Key, other: Key, page: nat)
    requires page > 0 && Spans(EntryFor(KeyFor(asked, page), 1, page), KeyFor(other, page), page)
    requires BaseAddr(other) < BaseAddr(KeyFor(asked, page)) || End(KeyFor(asked, page)) < End(other)
    ensures Strays(TwoCalls(asked, other), page)
  {
    hide KeyFor, Spans, EntryFor, RegMr, DoAll, Feasible;
    TwoCallsEnd(asked, other, page);
    SharesHandle(asked, other, page);
    var d := RegMr(OneHolder(asked, page), other, 2, page);
    assert d.holders[1] == Grant(1, other) && d.registered[1] == (BaseAddr(KeyFor(asked, page)), End(KeyFor(asked, page)));
  }

  /** After a key that is not page-aligned, some one-byte plain buffer is given a handle that does not cover it. */
  lemma {:induction false} UnalignedKeyStrays(asked: Key, page: nat) returns (x: nat)
    requires PowerOfTwo(page) && !PageAligned(KeyFor(asked, page), page)
    ensures Strays(TwoCalls(asked, IoVec(x, 1)), page)
  {
    hide Spans, EntryFor, PageAligned, Strays, MakeVec;
    AlignmentDivides(page);
    var key := KeyFor(asked, page);
    x := StrayByte(key, Alignment(page), page);
    SpansAnyHandle(key, MakeVec(x, 1, Alignment(page)), page);
    StrayHolder(asked, IoVec(x, 1), page);
  }

  lemma {:induction false} SpansAnyHandle(key: Key, other: Key, page: nat)
    requires page > 0
    ensures Spans(EntryFor(key, 0, page), other, page) <==> Spans(EntryFor(key, 1, page), other, page)
  {
  }

  /** Every call asks for a key that `allowed` admits. */
  ghost predicate OnlyAsks(allowed: Key -> bool, calls: seq<Call>)
  {
    forall i :: 0 <= i < |calls| && calls[i].Register? ==> allowed(calls[i].asked)
  }

  /** Whatever the callers that ask for such keys do, every holder is covered by its handle. */
  ghost predicate AlwaysCovered(allowed: Key -> bool, page: nat)
    requires page > 0
  {
    forall calls :: Feasible(EMPTY, calls, page) && OnlyAsks(allowed, calls) ==> Covered(DoAll(EMPTY, calls, page))
  }

  /**
   The exact condition for any population of keys that includes one-byte plain buffers: in every run
   every holder is covered, if and only if every key that may be asked for begins and ends at page
   boundaries once it is rounded.
   */
  lemma {:induction false} CoveredIffAligned(allowed: Key -> bool, page: nat)
    requires PowerOfTwo(page) && forall x: nat :: allowed(IoVec(x, 1))
    ensures AlwaysCovered(allowed, page) <==> forall k :: allowed(k) ==> PageAligned(KeyFor(k, page), page)
  {
    hide PageAligned, KeyFor, Covered, DoAll, Feasible;
    if forall k :: allowed(k) ==> PageAligned(KeyFor(k, page), page) {
      forall calls | Feasible(EMPTY, calls, page) && OnlyAsks(allowed, calls) ensures Covered(DoAll(EMPTY, calls, page)) {
        EmptyCovered(page);
        RunCovers(EMPTY, calls, page);
      }
    } else {
      var k :| allowed(k) && !PageAligned(KeyFor(k, page), page);
      var x := UnalignedKeyStrays(k, page);
      var calls := TwoCalls(k, IoVec(x, 1));
      TwoCallsEnd(k, IoVec(x, 1), page);
      assert OnlyAsks(allowed, calls);
    }
  }

  lemma {:induction false} EmptyCovered(page: nat)
    requires page > 0
    ensures Inv(EMPTY, page) && Covered(EMPTY) && Exact(EMPTY, page)
  {
  }

  predicate Plain(key: Key)
  {
    key.IoVec?
  }

  /** In every run every holder of a plain buffer's handle is covered by it, exactly if pages are at most 4096 bytes. */
  lemma {:induction false} CoveredIff(page: nat)
    requires PowerOfTwo(page)
    ensures AlwaysCovered(Plain, page) <==> page <= CACHE_PAGE_SIZE
  {
    hide AlwaysCovered;
    CoveredIffAligned(Plain, page);
    if page <= CACHE_PAGE_SIZE {
      forall k | Plain(k) ensures PageAligned(KeyFor(k, page), page) {
      }
    } else {
      CachePageIsPower();
      PowersApart(page, CACHE_PAGE_SIZE);
      FirstUnit(page);
      assert Plain(IoVec(0, 1));
    }
  }

  lemma {:induction false} OneByte(alignment: nat)
    requires alignment > 0
    ensures MakeVec(0, 1, alignment) == IoVec(0, alignment)
  {
    hide RoundDown;
    ZeroMultiple(alignment);
    MultipleSelf(alignment);
    MultiplesApart(alignment, RoundUp(1, alignment), alignment);
  }

  lemma {:induction false} FirstUnit(page: nat)
    requires page >= 2 * CACHE_PAGE_SIZE
    ensures KeyFor(IoVec(0, 1), page) == IoVec(0, CACHE_PAGE_SIZE)
    ensures !PageAligned(IoVec(0, CACHE_PAGE_SIZE), page)
  {
    hide Multiple, RoundDown, MakeVec;
    OneByte(CACHE_PAGE_SIZE);
    ZeroMultiple(page);
    if Multiple(CACHE_PAGE_SIZE, page) {
      MultiplesApart(0, CACHE_PAGE_SIZE, page);
    }
  }

  lemma {:induction false} ZeroMultiple(a: nat)
    requires a > 0
    ensures Multiple(0, a)
  {
  }

  lemma {:induction false} SecondUnit(page: nat)
    requires page >= 2 * CACHE_PAGE_SIZE
    ensures End(KeyFor(IoVec(CACHE_PAGE_SIZE, 1), page)) <= 2 * CACHE_PAGE_SIZE
  {
    hide Multiple, RoundDown;
  }

  lemma {:induction false} FirstEntry(page: nat)
    requires page > CACHE_PAGE_SIZE
    ensures var e := EntryFor(IoVec(0, CACHE_PAGE_SIZE), 1, page); e.addr == 0 && page <= Steps(e.addr, e.pages, page)
  {
    hide Multiple, RoundDown, Steps, Pages;
    PagesEnd(0, CACHE_PAGE_SIZE, page);
    ZeroMultiple(page);
    MultiplesApart(0, RoundUp(CACHE_PAGE_SIZE, page), page);
  }

  /** The case of larger pages: the buffer behind the first 4096 bytes shares their registration. */
  lemma {:induction false} LargePagesStray(page: nat)
    requires page >= 2 * CACHE_PAGE_SIZE
    ensures Strays(TwoCalls(IoVec(0, 1), IoVec(CACHE_PAGE_SIZE, 1)), page)
  {
    hide Multiple, Steps, EntryFor, Strays, KeyFor;
    FirstUnit(page);
    SecondUnit(page);
    FirstEntry(page);
    StrayHolder(IoVec(0, 1), IoVec(CACHE_PAGE_SIZE, 1), page);
  }

  /** A DMA-buf on 4096-byte pages: its second half-page is given the registration of its first 16 bytes. */
  lemma {:induction false} DmaBufStrays()
    ensures Strays(TwoCalls(DmaBuf(3, 4096, 0, 16), DmaBuf(3, 4096, 64, 16)), 4096)
  {
    hide Multiple, RoundDown, Steps, Pages, Strays;
    MultipleSelf(4096);
    PagesEnd(4096, 16, 4096);
    MultiplesApart(4096, RoundUp(4112, 4096), 4096);
    MultiplesApart(4096, RoundDown(4096, 4096), 4096);
    StrayHolder(DmaBuf(3, 4096, 0, 16), DmaBuf(3, 4096, 64, 16), 4096);
  }
}

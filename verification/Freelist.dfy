/**
 The freelist: page-aligned blocks cut into entries of equal size, and a stack of the free ones.

 Blocks come from the system as page-aligned ranges disjoint from those handed out before. What is
 proved is that the entries cut from them never overlap and are aligned, that the count is capped, and
 that over any run of allocations and frees every entry is either on the stack or handed out, once.
 */
module Freelist {
  import opened Arithmetic
  import opened Collections
  import opened Rounding

  const ENOMEM := 12
  const GRANULARITY: nat := 8

  datatype Elem = Elem(ptr: nat, mrHandle: int)

  datatype Block = Block(memory: nat, size: nat, mrHandle: int, numEntries: nat)

  // Sizes

  /** The memory of a block for `count` entries covers full pages. */
  function FullPages(entrySize: nat, count: nat, page: nat): (size: nat)
    requires page > 0
    ensures Multiple(size, page) && Steps(0, count, entrySize) <= size < Steps(0, count, entrySize) + page
  {
    RoundUp(Steps(0, count, entrySize), page)
  }

  function PaddedCount(entrySize: nat, count: nat, page: nat): nat
    requires entrySize > 0 && page > 0
  {
    Quotient(FullPages(entrySize, count, page), entrySize)
  }

  lemma {:induction false} CountFits(entrySize: nat, space: nat, m: nat)
    requires entrySize > 0
    ensures Steps(0, m, entrySize) <= space <==> m <= Quotient(space, entrySize)
  {
    if m > 0 && space >= entrySize {
      CountFits(entrySize, space - entrySize, m - 1);
    } else if m > 0 {
      StepsApart(0, 0, m, entrySize);
    }
  }

  /** The padded count is the largest that fits the pages of the requested count, and needs no other pages. */
  lemma {:induction false} PaddedIsLargest(entrySize: nat, count: nat, page: nat)
    requires entrySize > 0 && page > 0
    ensures forall m: nat :: m * entrySize <= FullPages(entrySize, count, page) <==> m <= PaddedCount(entrySize, count, page)
    ensures PaddedCount(entrySize, count, page) >= count
    ensures FullPages(entrySize, PaddedCount(entrySize, count, page), page) == FullPages(entrySize, count, page)
  {
    hide FullPages, Quotient, Steps;
    var space, padded := FullPages(entrySize, count, page), PaddedCount(entrySize, count, page);
    forall m: nat ensures m * entrySize <= space <==> m <= padded {
      CountFits(entrySize, space, m);
      StepsIs(0, m, entrySize);
    }
    CountFits(entrySize, space, count);
    CountFits(entrySize, space, padded);
    if count < padded {
      StepsApart(0, count, padded, entrySize);
    }
    MultiplesApart(FullPages(entrySize, padded, page), space, page);
  }

  /** Entry and redzone sizes as initialisation computes them. */
  function RedzoneSize(redzone: nat, alignment: nat): nat
    requires alignment > 0
  {
    RoundUp(redzone, alignment)
  }

  function UserSize(size: nat, alignment: nat): (r: nat)
    requires alignment > 0
    ensures r >= size && r > 0
  {
    RoundUp(if size == 0 then 8 else size, Max(alignment, Max(8, GRANULARITY)))
  }

  // Layout

  /** The shape shared by all entries of a list. */
  datatype Layout = Layout(user: nat, redzone: nat) {
    function EntrySize(): nat { user + redzone }
  }

  function Ptr(l: Layout, memory: nat, i: nat): nat
  {
    Steps(memory, i, l.EntrySize()) + l.redzone
  }

  function ElemAt(l: Layout, b: Block, i: nat): Elem
  {
    Elem(Ptr(l, b.memory, i), b.mrHandle)
  }

  /** The first n entries of a block, the last of them first: the order in which they are pushed. */
  function Cut(l: Layout, b: Block, n: nat): (s: seq<Elem>)
    ensures |s| == n
  {
    if n == 0 then [] else [ElemAt(l, b, n - 1)] + Cut(l, b, n - 1)
  }

  lemma {:induction false} CutAt(l: Layout, b: Block, n: nat, k: nat)
    requires k < n
    ensures Cut(l, b, n)[k] == ElemAt(l, b, n - 1 - k)
  {
    if k > 0 {
      CutAt(l, b, n - 1, k - 1);
    }
  }

  lemma {:induction false} CutEnds(l: Layout, b: Block, n: nat)
    ensures n == 0 ==> Cut(l, b, n) == []
    ensures n > 0 ==> Cut(l, b, n) == [ElemAt(l, b, n - 1)] + Cut(l, b, n - 1)
  {
  }

  function All(l: Layout, blocks: seq<Block>): seq<Elem>
  {
    if blocks == [] then [] else Cut(l, blocks[0], blocks[0].numEntries) + All(l, blocks[1..])
  }

  /** The block begins at a page boundary and its entries end inside it. */
  ghost predicate Fits(l: Layout, b: Block, page: nat)
    requires page > 0
  {
    Multiple(b.memory, page) && Steps(b.memory, b.numEntries, l.EntrySize()) <= b.memory + b.size
  }

  predicate Apart(a: nat, m: nat, b: nat, n: nat)
  {
    a + m <= b || b + n <= a
  }

  ghost predicate Layable(l: Layout, blocks: seq<Block>, page: nat)
    requires page > 0
  {
    && (forall i :: 0 <= i < |blocks| ==> Fits(l, blocks[i], page))
    && (forall i, j :: 0 <= i < j < |blocks| ==> Apart(blocks[i].memory, blocks[i].size, blocks[j].memory, blocks[j].size))
  }

  predicate Inside(l: Layout, e: Elem, b: Block)
  {
    b.memory + l.redzone <= e.ptr && e.ptr + l.user <= b.memory + b.size && e.mrHandle == b.mrHandle
  }

  lemma {:induction false} SlotInside(l: Layout, b: Block, page: nat, i: nat)
    requires page > 0 && Fits(l, b, page) && i < b.numEntries
    ensures Inside(l, ElemAt(l, b, i), b)
  {
    StepsApart(b.memory, i, b.numEntries, l.EntrySize());
  }

  lemma {:induction false} SlotsApart(l: Layout, b: Block, i: nat, j: nat)
    requires i != j
    ensures Apart(Ptr(l, b.memory, i), l.user, Ptr(l, b.memory, j), l.user)
  {
    if i < j {
      StepsApart(b.memory, i, j, l.EntrySize());
    } else {
      StepsApart(b.memory, j, i, l.EntrySize());
    }
  }

  /** Every entry lies inside one of the blocks and carries its registration. */
  lemma {:induction false} EntryInside(l: Layout, blocks: seq<Block>, page: nat, x: nat) returns (k: nat)
    requires page > 0 && Layable(l, blocks, page) && x < |All(l, blocks)|
    ensures k < |blocks| && Inside(l, All(l, blocks)[x], blocks[k])
  {
    var n := blocks[0].numEntries;
    if x < n {
      CutAt(l, blocks[0], n, x);
      SlotInside(l, blocks[0], page, n - 1 - x);
      k := 0;
    } else {
      k := EntryInside(l, blocks[1..], page, x - n);
      k := k + 1;
    }
  }

  /** Entries of all blocks are pairwise disjoint. */
  lemma {:induction false} EntriesApart(l: Layout, blocks: seq<Block>, page: nat, x: nat, y: nat)
    requires page > 0 && Layable(l, blocks, page) && x < y < |All(l, blocks)|
    ensures Apart(All(l, blocks)[x].ptr, l.user, All(l, blocks)[y].ptr, l.user)
  {
    var b, n := blocks[0], blocks[0].numEntries;
    if x < n {
      CutAt(l, b, n, x);
    }
    if y < n {
      CutAt(l, b, n, y);
      SlotsApart(l, b, n - 1 - x, n - 1 - y);
    } else if x < n {
      SlotInside(l, b, page, n - 1 - x);
      var k := EntryInside(l, blocks[1..], page, y - n);
      assert blocks[1..][k] == blocks[k + 1];
    } else {
      EntriesApart(l, blocks[1..], page, x - n, y - n);
    }
  }

  /** An entry is aligned exactly if its block is. */
  lemma {:induction false} AlignedIffBlock(l: Layout, b: Block, i: nat, alignment: nat)
    requires alignment > 0 && Multiple(l.redzone, alignment) && Multiple(l.EntrySize(), alignment)
    ensures Multiple(ElemAt(l, b, i).ptr, alignment) <==> Multiple(b.memory, alignment)
  {
    hide Multiple, Steps;
    MultipleSteps(b.memory, i, l.EntrySize(), alignment);
    MultipleAdd(Steps(b.memory, i, l.EntrySize()), l.redzone, alignment);
  }

  /** The layout that initialisation computes. */
  function InitLayout(size: nat, redzone: nat, alignment: nat): Layout
    requires alignment > 0
  {
    Layout(UserSize(size, alignment), RedzoneSize(redzone, alignment))
  }

  lemma {:induction false} UserAligned(size: nat, alignment: nat)
    requires PowerOfTwo(alignment)
    ensures Multiple(UserSize(size, alignment), alignment)
  {
    hide Multiple, RoundDown;
    var unit := Max(alignment, 8);
    assert PowerOfTwo(2) && PowerOfTwo(4) && PowerOfTwo(8);
    PowerMultiple(unit, alignment);
    MultipleOfMultiple(UserSize(size, alignment), unit, alignment);
  }

  /** It keeps every entry's distance to its block a multiple of the alignment. */
  lemma {:induction false} LayoutAligned(size: nat, redzone: nat, alignment: nat)
    requires PowerOfTwo(alignment)
    ensures var l := InitLayout(size, redzone, alignment);
            Multiple(l.redzone, alignment) && Multiple(l.EntrySize(), alignment)
  {
    hide Multiple, UserSize, RoundDown;
    UserAligned(size, alignment);
    MultipleAdd(UserSize(size, alignment), RedzoneSize(redzone, alignment), alignment);
  }

  /** Every entry of every block that fits is aligned. */
  ghost predicate EntriesAligned(l: Layout, alignment: nat, page: nat)
    requires alignment > 0 && page > 0
  {
    forall b, i :: Fits(l, b, page) && 0 <= i < b.numEntries ==> Multiple(ElemAt(l, b, i).ptr, alignment)
  }

  /** The block that growing by n entries builds from the memory the system offers. */
  function NewBlock(l: Layout, memory: nat, handle: int, n: nat, page: nat): Block
    requires page > 0
  {
    Block(memory, FullPages(l.EntrySize(), n, page), handle, n)
  }

  lemma {:induction false} NewBlockFits(l: Layout, memory: nat, handle: int, n: nat, page: nat)
    requires page > 0 && Multiple(memory, page)
    ensures Fits(l, NewBlock(l, memory, handle, n, page), page)
  {
    hide Multiple, FullPages;
    StepsShift(memory, 0, n, l.EntrySize());
  }

  /** A block of one entry at the second page, cut for an alignment larger than a page, holds a misaligned entry. */
  lemma {:induction false} MisalignedEntry(size: nat, redzone: nat, alignment: nat, page: nat)
    requires PowerOfTwo(alignment) && PowerOfTwo(page) && page < alignment
    ensures var l := InitLayout(size, redzone, alignment);
            var b := NewBlock(l, page, 0, 1, page);
            Fits(l, b, page) && !Multiple(ElemAt(l, b, 0).ptr, alignment)
  {
    hide Multiple, NewBlock, InitLayout;
    var l := InitLayout(size, redzone, alignment);
    MultipleSelf(page);
    NewBlockFits(l, page, 0, 1, page);
    LayoutAligned(size, redzone, alignment);
    AlignedIffBlock(l, NewBlock(l, page, 0, 1, page), 0, alignment);
    SmallNotMultiple(page, alignment);
    NewBlockAt(l, page, 0, 1, page);
  }

  lemma {:induction false} SmallNotMultiple(x: nat, a: nat)
    requires 0 < x < a
    ensures !Multiple(x, a)
  {
  }

  lemma {:induction false} NewBlockAt(l: Layout, memory: nat, handle: int, n: nat, page: nat)
    requires page > 0
    ensures NewBlock(l, memory, handle, n, page).memory == memory && NewBlock(l, memory, handle, n, page).numEntries == n
  {
  }

  /** The entries of page-aligned blocks are aligned, wherever the blocks lie, exactly if the alignment is at most a page. */
  lemma {:induction false} AlignedIff(size: nat, redzone: nat, alignment: nat, page: nat)
    requires PowerOfTwo(alignment) && PowerOfTwo(page)
    ensures EntriesAligned(InitLayout(size, redzone, alignment), alignment, page) <==> alignment <= page
  {
    hide Multiple, InitLayout, NewBlock;
    var l := InitLayout(size, redzone, alignment);
    if alignment <= page {
      LayoutAligned(size, redzone, alignment);
      PowerMultiple(page, alignment);
      forall b, i | Fits(l, b, page) && 0 <= i < b.numEntries ensures Multiple(ElemAt(l, b, i).ptr, alignment) {
        MultipleOfMultiple(b.memory, page, alignment);
        AlignedIffBlock(l, b, i, alignment);
      }
    } else {
      MisalignedEntry(size, redzone, alignment, page);
      NewBlockAt(l, page, 0, 1, page);
    }
  }

  /** Every entry of a list of blocks is an entry of one of them. */
  lemma {:induction false} EntryOfBlock(l: Layout, blocks: seq<Block>, x: nat) returns (k: nat, i: nat)
    requires x < |All(l, blocks)|
    ensures k < |blocks| && i < blocks[k].numEntries && All(l, blocks)[x] == ElemAt(l, blocks[k], i)
  {
    var n := blocks[0].numEntries;
    if x < n {
      CutAt(l, blocks[0], n, x);
      k, i := 0, n - 1 - x;
    } else {
      k, i := EntryOfBlock(l, blocks[1..], x - n);
      k := k + 1;
    }
  }

  // Accounts

  /** The free and the handed-out entries are all entries, each counted once for each time it occurs. */
  ghost predicate Accounted(entries: seq<Elem>, out: multiset<Elem>, all: seq<Elem>)
  {
    multiset(entries) + out == multiset(all)
  }

  lemma {:induction false} PopAccounted(entries: seq<Elem>, out: multiset<Elem>, all: seq<Elem>)
    requires entries != [] && Accounted(entries, out, all)
    ensures Accounted(entries[1..], out + multiset{entries[0]}, all)
  {
    assert entries == [entries[0]] + entries[1..];
  }

  lemma {:induction false} PushAccounted(entries: seq<Elem>, out: multiset<Elem>, all: seq<Elem>, e: Elem)
    requires e in out && Accounted(entries, out, all)
    ensures Accounted([e] + entries, out - multiset{e}, all)
  {
  }

  lemma {:induction false} GrowAccounted(entries: seq<Elem>, out: multiset<Elem>, all: seq<Elem>, cut: seq<Elem>)
    requires Accounted(entries, out, all)
    ensures Accounted(cut + entries, out, cut + all)
  {
    assert multiset(cut + entries) == multiset(cut) + multiset(entries);
    assert multiset(cut + all) == multiset(cut) + multiset(all);
  }

  lemma {:induction false} GrowLayable(l: Layout, b: Block, blocks: seq<Block>, page: nat)
    requires page > 0 && Layable(l, blocks, page) && Fits(l, b, page)
    requires forall i :: 0 <= i < |blocks| ==> Apart(b.memory, b.size, blocks[i].memory, blocks[i].size)
    ensures Layable(l, [b] + blocks, page)
  {
    hide Apart, Fits;
  }

  lemma {:induction false} GrowAll(l: Layout, b: Block, blocks: seq<Block>)
    ensures All(l, [b] + blocks) == Cut(l, b, b.numEntries) + All(l, blocks)
  {
    assert ([b] + blocks)[1..] == blocks;
  }

  class FreeList {
    const page: nat
    const layout: Layout
    const maxCount: nat
    const increase: nat
    var numAllocated: nat
    var entries: seq<Elem>
    var blocks: seq<Block>
    ghost var out: multiset<Elem>

    /** Every entry of every block is on the stack or handed out, once; the count respects the maximum. */
    ghost predicate Valid()
      reads this
    {
      && page > 0 && layout.user > 0
      && Layable(layout, blocks, page)
      && numAllocated == |All(layout, blocks)|
      && (maxCount > 0 ==> numAllocated <= maxCount)
      && Accounted(entries, out, All(layout, blocks))
    }

    constructor (size: nat, increase: nat, maxCount: nat, redzone: nat, alignment: nat, page: nat)
      requires page > 0 && alignment > 0
      ensures Valid() && blocks == [] && entries == [] && numAllocated == 0 && out == multiset{}
      ensures this.page == page && this.maxCount == maxCount
      ensures layout == InitLayout(size, redzone, alignment)
      ensures this.increase == PaddedCount(layout.EntrySize(), increase, page)
    {
      var l := InitLayout(size, redzone, alignment);
      this.page, this.layout, this.maxCount := page, l, maxCount;
      this.increase := PaddedCount(l.EntrySize(), increase, page);
      numAllocated, entries, blocks, out := 0, [], [], multiset{};
    }

    function Capped(count: nat): (n: nat)
      requires maxCount > 0 ==> numAllocated <= maxCount
      reads this
      ensures n <= count && (maxCount > 0 ==> numAllocated + n <= maxCount)
    {
      if maxCount > 0 && maxCount - numAllocated < count then maxCount - numAllocated else count
    }

    /** What the system promises about memory it hands out for n entries. */
    ghost predicate Offered(memory: nat, n: nat)
      requires page > 0
      reads this
    {
      && Multiple(memory, page)
      && forall i :: 0 <= i < |blocks| ==>
           Apart(memory, FullPages(layout.EntrySize(), n, page), blocks[i].memory, blocks[i].size)
    }

    /** Grows the list by up to `count` entries; `memory` is what the system answers. */
    method Add(count: nat, memory: Option<nat>, handle: int) returns (ret: int)
      requires Valid() && (memory.Some? ==> Offered(memory.value, Capped(count)))
      modifies this
      ensures Valid() && out == old(out)
      ensures ret == 0 <==> old(Capped(count)) > 0 && memory.Some?
      ensures ret != 0 ==> blocks == old(blocks) && entries == old(entries)
      ensures ret == 0 ==>
                var b := NewBlock(layout, memory.value, handle, old(Capped(count)), page);
                blocks == [b] + old(blocks) && entries == Cut(layout, b, b.numEntries) + old(entries)
    {
      hide Accounted, Layable, All, Cut, FullPages, Multiple, Fits;
      var n := Capped(count);
      if n == 0 || memory.None? {
        return -ENOMEM;
      }
      var b := NewBlock(layout, memory.value, handle, n, page);
      NewBlockFits(layout, memory.value, handle, n, page);
      GrowLayable(layout, b, blocks, page);
      GrowAll(layout, b, blocks);
      GrowAccounted(entries, out, All(layout, blocks), Cut(layout, b, n));
      CutEnds(layout, b, 0);
      var buffer := memory.value;
      blocks := [b] + blocks;
      var i := 0;
      while i < n
        invariant 0 <= i <= n && buffer == Steps(memory.value, i, layout.EntrySize())
        invariant entries == Cut(layout, b, i) + old(entries)
        invariant numAllocated == old(numAllocated) + i && blocks == [b] + old(blocks) && out == old(out)
      {
        CutEnds(layout, b, i + 1);
        buffer := buffer + layout.redzone;
        entries := [Elem(buffer, handle)] + entries;
        numAllocated := numAllocated + 1;
        buffer := buffer + layout.user;
        i := i + 1;
      }
      return 0;
    }

    method EntryAlloc(memory: Option<nat>, handle: int) returns (e: Option<Elem>)
      requires Valid() && (memory.Some? ==> Offered(memory.value, Capped(increase)))
      modifies this
      ensures Valid()
      ensures e.None? <==> old(entries) == [] && (old(Capped(increase)) == 0 || memory.None?)
      ensures e.None? ==> blocks == old(blocks) && entries == old(entries) && out == old(out)
      ensures e.Some? ==> out == old(out) + multiset{e.value}
      ensures old(entries) != [] ==> blocks == old(blocks) && [e.value] + entries == old(entries)
    {
      hide Accounted, Layable, All, Cut;
      if entries == [] {
        var ret := Add(increase, memory, handle);
        if ret != 0 {
          return None;
        }
      }
      var head := entries[0];
      PopAccounted(entries, out, All(layout, blocks));
      entries := entries[1..];
      out := out + multiset{head};
      return Some(head);
    }

    method EntryFree(e: Elem)
      requires Valid() && e in out
      modifies this
      ensures Valid() && entries == [e] + old(entries) && out == old(out) - multiset{e} && blocks == old(blocks)
    {
      hide Accounted, Layable, All;
      PushAccounted(entries, out, All(layout, blocks), e);
      entries := [e] + entries;
      out := out - multiset{e};
    }

    /** Free entries and handed-out entries make up the allocated ones. */
    lemma {:induction false} Conserved()
      requires Valid()
      ensures |entries| + |out| == numAllocated
    {
      assert |multiset(entries) + out| == |multiset(All(layout, blocks))|;
    }

    /** Every entry, free or handed out, of a list whose alignment is at most a page has that alignment. */
    lemma {:induction false} AllAligned(size: nat, redzone: nat, alignment: nat, e: Elem)
      requires Valid() && (e in entries || e in out)
      requires PowerOfTwo(alignment) && PowerOfTwo(page) && alignment <= page && layout == InitLayout(size, redzone, alignment)
      ensures Multiple(e.ptr, alignment)
    {
      hide Accounted, All, Multiple, InitLayout;
      Member(entries, out, All(layout, blocks), e);
      var x :| 0 <= x < |All(layout, blocks)| && All(layout, blocks)[x] == e;
      var k, i := EntryOfBlock(layout, blocks, x);
      AlignedIff(size, redzone, alignment, page);
      assert Fits(layout, blocks[k], page);
    }

    /** No entry is handed out twice, nor while it is on the stack; two handed-out entries never overlap. */
    lemma {:induction false} HandedOutApart(e: Elem, f: Elem)
      requires Valid() && e in out
      ensures out[e] == 1 && e !in entries
      ensures f in out && f != e ==> Apart(e.ptr, layout.user, f.ptr, layout.user)
    {
      hide Accounted, Layable, All, Apart;
      var all := All(layout, blocks);
      NoDuplicates(layout, blocks, page, all, e);
      OutCounted(entries, out, all, e);
      if f in out && f != e {
        OutCounted(entries, out, all, f);
        MembersApart(layout, blocks, page, e, f);
      }
    }
  }

  lemma {:induction false} Member(entries: seq<Elem>, out: multiset<Elem>, all: seq<Elem>, e: Elem)
    requires Accounted(entries, out, all) && (e in entries || e in out)
    ensures e in all
  {
    assert e in multiset(entries) + out;
  }

  lemma {:induction false} OutCounted(entries: seq<Elem>, out: multiset<Elem>, all: seq<Elem>, e: Elem)
    requires e in out && Accounted(entries, out, all)
    ensures e in all
    ensures multiset(all)[e] <= 1 ==> out[e] == 1 && e !in entries
  {
    assert e in multiset(entries) + out;
    assert (multiset(entries) + out)[e] == multiset(entries)[e] + out[e];
  }

  lemma {:induction false} MembersApart(l: Layout, blocks: seq<Block>, page: nat, e: Elem, f: Elem)
    requires page > 0 && Layable(l, blocks, page) && e in All(l, blocks) && f in All(l, blocks) && e != f
    ensures Apart(e.ptr, l.user, f.ptr, l.user)
  {
    hide Layable;
    var all := All(l, blocks);
    var x :| 0 <= x < |all| && all[x] == e;
    var y :| 0 <= y < |all| && all[y] == f;
    if x < y {
      EntriesApart(l, blocks, page, x, y);
    } else {
      EntriesApart(l, blocks, page, y, x);
    }
  }

  /** Counting by position: a sequence whose tail never repeats its head holds each value once. */
  lemma {:induction false} CountOne(s: seq<Elem>, e: Elem)
    requires NoDup(s)
    ensures multiset(s)[e] <= 1
  {
    if s != [] {
      CountOne(s[1..], e);
      assert s == [s[0]] + s[1..];
      if s[0] == e {
        assert e !in s[1..];
      }
    }
  }

  lemma {:induction false} NoDuplicates(l: Layout, blocks: seq<Block>, page: nat, all: seq<Elem>, e: Elem)
    requires page > 0 && l.user > 0 && Layable(l, blocks, page) && all == All(l, blocks)
    ensures multiset(all)[e] <= 1
  {
    forall x, y | 0 <= x < y < |all| ensures all[x] != all[y] {
      EntriesApart(l, blocks, page, x, y);
    }
    CountOne(all, e);
  }

  /** Initialisation: the list with its first block, or the error of that block's allocation. */
  method Init(size: nat, initial: nat, increase: nat, maxCount: nat, redzone: nat, alignment: nat, page: nat,
              memory: Option<nat>, handle: int) returns (list: FreeList?, ret: int)
    requires PowerOfTwo(alignment) && page > 0 && (memory.Some? ==> Multiple(memory.value, page))
    ensures ret == 0 <==> initial > 0 && memory.Some?
    ensures ret == 0 <==> list != null
    ensures list != null ==> fresh(list) && list.Valid() && |list.entries| == list.numAllocated
    ensures list != null ==> list.numAllocated >= (if maxCount > 0 then Min(maxCount, initial) else initial)
  {
    hide UserSize, RedzoneSize, PaddedCount, FullPages, FreeList.Valid;
    var l := new FreeList(size, increase, maxCount, redzone, alignment, page);
    var first := PaddedCount(l.layout.EntrySize(), initial, page);
    PaddedIsLargest(l.layout.EntrySize(), initial, page);
    PaddedZero(l.layout.EntrySize(), page);
    ret := l.Add(first, memory, handle);
    if ret != 0 {
      return null, ret;
    }
    l.Conserved();
    list := l;
  }

  lemma {:induction false} PaddedZero(entrySize: nat, page: nat)
    requires entrySize > 0 && page > 0
    ensures PaddedCount(entrySize, 0, page) == 0
  {
    MultiplesApart(FullPages(entrySize, 0, page), 0, page);
  }

  /** A list for alignment 2 * page whose first block the system places at the second page holds a misaligned entry. */
  method MisalignedList(page: nat) returns (list: FreeList?, e: Elem)
    requires PowerOfTwo(page)
    ensures list != null && fresh(list) && list.Valid() && list.page == page && e in list.entries
    ensures e.ptr % (2 * page) != 0
  {
    hide Multiple, InitLayout, NewBlock, Cut, FreeList.Valid, PaddedCount, Fits, ElemAt;
    var l := new FreeList(8, 1, 0, 0, 2 * page, page);
    MultipleSelf(page);
    var ret := l.Add(1, Some(page), 0);
    ghost var b := NewBlock(l.layout, page, 0, 1, page);
    NewBlockAt(l.layout, page, 0, 1, page);
    CutEnds(l.layout, b, 1);
    list, e := l, l.entries[0];
    MisalignedEntry(8, 0, 2 * page, page);
    MultipleIff(e.ptr, 2 * page);
  }
}

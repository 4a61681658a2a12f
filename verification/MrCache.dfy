/**
 The memory-registration cache: an array of page intervals sorted by address, each with a handle and
 a reference count.

 The specification is a naive search over the whole array. The class stops its scan at the first
 larger address, shifts slots on insertion and removal, and doubles the array when it is full; its
 methods are proved against the naive search.
 */
module MrCache {
  import opened Arithmetic
  import opened Collections
  import opened Rounding

  type Handle = int

  const EEXIST := 17
  const ENOENT := 2

  datatype Key =
    | IoVec(base: nat, len: nat)
    | DmaBuf(fd: int, start: nat, offset: nat, size: nat)

  function BaseAddr(key: Key): nat
  {
    match key
    case IoVec(base, _) => base
    case DmaBuf(_, start, offset, _) => start + offset
  }

  function Len(key: Key): nat
  {
    match key
    case IoVec(_, len) => len
    case DmaBuf(_, _, _, size) => size
  }

  function End(key: Key): nat
  {
    BaseAddr(key) + Len(key)
  }

  /** The key of a plain buffer: the buffer grown to multiples of `alignment`. */
  function MakeVec(base: nat, len: nat, alignment: nat): (key: Key)
    requires alignment > 0
    ensures Multiple(BaseAddr(key), alignment) && Multiple(End(key), alignment)
    ensures BaseAddr(key) <= base && base + len <= End(key)
  {
    var from := RoundDown(base, alignment);
    IoVec(from, RoundUp(base + len, alignment) - from)
  }

  /** The first page of a buffer, and how many pages it touches. */
  function PageAddr(addr: nat, page: nat): nat
    requires page > 0
  {
    RoundDown(addr, page)
  }

  function Pages(addr: nat, size: nat, page: nat): nat
    requires page > 0
  {
    Quotient(addr + size - PageAddr(addr, page) + page - 1, page)
  }

  lemma {:induction false} QuotientSteps(x: nat, page: nat)
    requires page > 0
    ensures Steps(0, Quotient(x, page), page) == RoundDown(x, page)
  {
    if x >= page {
      QuotientSteps(x - page, page);
    }
  }

  /** The pages of a buffer end at the first page boundary at or behind its last byte. */
  lemma {:induction false} PagesEnd(addr: nat, size: nat, page: nat)
    requires page > 0
    ensures Steps(PageAddr(addr, page), Pages(addr, size, page), page) == RoundUp(addr + size, page)
  {
    var q := PageAddr(addr, page);
    var x := addr + size - q + page - 1;
    QuotientSteps(x, page);
    StepsShift(q, 0, Pages(addr, size, page), page);
    MultipleAdd(q, RoundDown(x, page), page);
    MultiplesApart(q + RoundDown(x, page), RoundUp(addr + size, page), page);
  }

  datatype Entry = Entry(addr: nat, pages: nat, refcnt: int, handle: Handle)

  /** The entry's pages contain the n pages from address q on. */
  predicate Covers(e: Entry, q: nat, n: nat, page: nat)
  {
    e.addr <= q && Steps(q, n, page) <= Steps(e.addr, e.pages, page)
  }

  /** The scan's test, which counts in pages, is interval containment. */
  lemma {:induction false} HitTest(e: Entry, q: nat, n: nat, page: nat)
    requires page > 0 && Multiple(e.addr, page) && Multiple(q, page) && e.addr <= q
    ensures (q - e.addr) / page + n <= e.pages <==> Covers(e, q, n, page)
  {
    hide Steps;
    StepsIs(q, n, page);
    StepsIs(e.addr, e.pages, page);
    MultipleIff(e.addr, page);
    MultipleIff(q, page);
    var d := q / page - e.addr / page;
    assert q - e.addr == page * d by {
      assert q == page * (q / page) && e.addr == page * (e.addr / page);
      assert page * d == page * (q / page) - page * (e.addr / page);
    }
    DivModUnique(q - e.addr, d, 0, page);
    var gap := e.pages - (d + n);
    assert e.addr + e.pages * page - (q + n * page) == page * gap by {
      assert page * gap == page * e.pages - page * d - page * n;
    }
    if gap >= 0 {
      assert page * gap >= 0;
    } else {
      MulGrows(page, -gap);
      assert page * -gap == -(page * gap);
    }
  }

  /** Entries stand at page boundaries in address order and are in use. */
  ghost predicate Ordered(s: seq<Entry>, page: nat)
    requires page > 0
  {
    && (forall i :: 0 <= i < |s| ==> Multiple(s[i].addr, page) && s[i].refcnt >= 1)
    && (forall i, j :: 0 <= i < j < |s| ==> s[i].addr <= s[j].addr)
  }

  /** Naive search: the first entry, anywhere in s, that covers the request; |s| if there is none. */
  ghost function First(s: seq<Entry>, q: nat, n: nat, page: nat): (r: nat)
    ensures r <= |s| && (r < |s| ==> Covers(s[r], q, n, page))
    ensures forall i :: 0 <= i < r ==> !Covers(s[i], q, n, page)
  {
    if s == [] then 0
    else if Covers(s[0], q, n, page) then 0
    else 1 + First(s[1..], q, n, page)
  }

  /** Where an entry at address q belongs: behind every entry at or below q. */
  ghost function Place(s: seq<Entry>, q: nat): (r: nat)
    ensures r <= |s| && (r < |s| ==> q < s[r].addr)
    ensures forall i :: 0 <= i < r ==> s[i].addr <= q
  {
    if s == [] || q < s[0].addr then 0 else 1 + Place(s[1..], q)
  }

  ghost function IndexOf(s: seq<Entry>, handle: Handle): (r: nat)
    ensures r <= |s| && (r < |s| ==> s[r].handle == handle)
    ensures forall i :: 0 <= i < r ==> s[i].handle != handle
  {
    if s == [] || s[0].handle == handle then 0 else 1 + IndexOf(s[1..], handle)
  }

  ghost function FirstFor(s: seq<Entry>, key: Key, page: nat): (r: nat)
    requires page > 0
    ensures r <= |s|
  {
    First(s, PageAddr(BaseAddr(key), page), Pages(BaseAddr(key), Len(key), page), page)
  }

  function Counted(e: Entry, d: int): Entry
  {
    e.(refcnt := e.refcnt + d)
  }

  ghost function LookupResult(s: seq<Entry>, key: Key, page: nat): Option<Handle>
    requires page > 0
  {
    var i := FirstFor(s, key, page);
    if i < |s| then Some(s[i].handle) else None
  }

  ghost function AfterLookup(s: seq<Entry>, key: Key, page: nat): seq<Entry>
    requires page > 0
  {
    var i := FirstFor(s, key, page);
    if i < |s| then s[i := Counted(s[i], 1)] else s
  }

  ghost function InsertResult(s: seq<Entry>, key: Key, page: nat): int
    requires page > 0
  {
    if FirstFor(s, key, page) < |s| then -EEXIST else 0
  }

  ghost function AfterInsert(s: seq<Entry>, key: Key, handle: Handle, page: nat): seq<Entry>
    requires page > 0
  {
    var q := PageAddr(BaseAddr(key), page);
    var at := Place(s, q);
    if FirstFor(s, key, page) < |s| then s
    else s[..at] + [Entry(q, Pages(BaseAddr(key), Len(key), page), 1, handle)] + s[at..]
  }

  ghost function DelResult(s: seq<Entry>, handle: Handle): int
  {
    var i := IndexOf(s, handle);
    if i == |s| then -ENOENT else if s[i].refcnt == 1 then 1 else 0
  }

  ghost function AfterDel(s: seq<Entry>, handle: Handle): seq<Entry>
  {
    var i := IndexOf(s, handle);
    if i == |s| then s
    else if s[i].refcnt == 1 then s[..i] + s[i + 1..]
    else s[i := Counted(s[i], -1)]
  }

  /** The pages of an entry, as a range of bytes, contain all bytes of the key. */
  predicate Spans(e: Entry, key: Key, page: nat)
  {
    e.addr <= BaseAddr(key) && End(key) <= Steps(e.addr, e.pages, page)
  }

  lemma {:induction false} CoversSpans(e: Entry, key: Key, page: nat)
    requires page > 0 && Multiple(e.addr, page)
    ensures Covers(e, PageAddr(BaseAddr(key), page), Pages(BaseAddr(key), Len(key), page), page) <==> Spans(e, key, page)
  {
    hide Steps, Pages;
    var base, end := BaseAddr(key), End(key);
    PagesEnd(base, Len(key), page);
    var stop := Steps(e.addr, e.pages, page);
    MultipleSelf(page);
    MultipleSteps(e.addr, e.pages, page, page);
    MultiplesApart(PageAddr(base, page), e.addr, page);
    MultiplesApart(stop, RoundUp(end, page), page);
  }

  /** A lookup finds a handle exactly if some live entry's pages hold the whole request, and then one of such an entry. */
  lemma {:induction false} LookupIff(s: seq<Entry>, key: Key, page: nat)
    requires page > 0 && Ordered(s, page)
    ensures LookupResult(s, key, page).Some? <==> exists i :: 0 <= i < |s| && Spans(s[i], key, page)
    ensures LookupResult(s, key, page).Some? ==>
              exists i :: 0 <= i < |s| && Spans(s[i], key, page) && s[i].handle == LookupResult(s, key, page).value
  {
    forall i | 0 <= i < |s|
      ensures Covers(s[i], PageAddr(BaseAddr(key), page), Pages(BaseAddr(key), Len(key), page), page) <==> Spans(s[i], key, page)
    {
      CoversSpans(s[i], key, page);
    }
  }

  /** Under one lock, the insertion that follows a missed lookup of the same key cannot be refused. */
  lemma {:induction false} InsertAfterMiss(s: seq<Entry>, key: Key, page: nat)
    requires page > 0 && LookupResult(s, key, page).None?
    ensures AfterLookup(s, key, page) == s && InsertResult(s, key, page) == 0
  {
  }

  lemma {:induction false} LookupOrdered(s: seq<Entry>, key: Key, page: nat)
    requires page > 0 && Ordered(s, page)
    ensures Ordered(AfterLookup(s, key, page), page)
  {
  }

  lemma {:induction false} InsertOrdered(s: seq<Entry>, key: Key, handle: Handle, page: nat)
    requires page > 0 && Ordered(s, page)
    ensures Ordered(AfterInsert(s, key, handle, page), page)
  {
    hide First, Quotient;
    var q := PageAddr(BaseAddr(key), page);
    OrderedWith(s, Place(s, q), Entry(q, Pages(BaseAddr(key), Len(key), page), 1, handle), page);
  }

  lemma {:induction false} OrderedWith(s: seq<Entry>, at: nat, e: Entry, page: nat)
    requires page > 0 && Ordered(s, page) && Multiple(e.addr, page) && e.refcnt >= 1
    requires at <= |s| && (forall i :: 0 <= i < at ==> s[i].addr <= e.addr) && (at < |s| ==> e.addr <= s[at].addr)
    ensures Ordered(s[..at] + [e] + s[at..], page)
  {
    hide Multiple;
    var s' := s[..at] + [e] + s[at..];
    forall i | 0 <= i < |s'| ensures s'[i] == if i < at then s[i] else if i == at then e else s[i - 1] {
    }
  }

  lemma {:induction false} DelOrdered(s: seq<Entry>, handle: Handle, page: nat)
    requires page > 0 && Ordered(s, page)
    ensures Ordered(AfterDel(s, handle), page)
  {
  }

  class Cache {
    const page: nat
    var slots: array<Entry>
    var used: nat
    var hitCount: nat
    var missCount: nat

    ghost predicate Valid()
      reads this, slots
    {
      page > 0 && slots.Length > 0 && used <= slots.Length && Ordered(slots[..used], page)
    }

    ghost function Entries(): seq<Entry>
      requires used <= slots.Length
      reads this, slots
    {
      slots[..used]
    }

    constructor (size: nat, page: nat)
      requires size > 0 && page > 0
      ensures Valid() && Entries() == [] && this.page == page && fresh(slots)
    {
      this.page := page;
      slots := new Entry[size](_ => Entry(0, 0, 0, 0));
      used, hitCount, missCount := 0, 0, 0;
    }

    /** The scan shared by lookup and insertion: it stops at a covering entry or where q belongs. */
    method Scan(q: nat, n: nat) returns (slot: nat, hit: bool)
      requires Valid() && Multiple(q, page)
      ensures slot <= used
      ensures hit <==> First(Entries(), q, n, page) < used
      ensures hit ==> slot == First(Entries(), q, n, page)
      ensures !hit ==> slot == Place(Entries(), q)
    {
      slot := 0;
      while true
        invariant slot <= used
        invariant forall i :: 0 <= i < slot ==> slots[i].addr <= q && !Covers(slots[i], q, n, page)
        decreases used - slot
      {
        if slot == used || q < slots[slot].addr {
          assert forall i :: slot <= i < used ==> q < Entries()[i].addr;
          return slot, false;
        }
        HitTest(slots[slot], q, n, page);
        if q >= slots[slot].addr && (q - slots[slot].addr) / page + n <= slots[slot].pages {
          assert Covers(Entries()[slot], q, n, page);
          return slot, true;
        }
        slot := slot + 1;
      }
    }

    method LookupEntry(key: Key) returns (handle: Option<Handle>)
      requires Valid()
      modifies this`hitCount, this`missCount, slots
      ensures Valid()
      ensures handle == LookupResult(old(Entries()), key, page)
      ensures Entries() == AfterLookup(old(Entries()), key, page)
      ensures hitCount == old(hitCount) + (if handle.Some? then 1 else 0)
      ensures missCount == old(missCount) + (if handle.Some? then 0 else 1)
    {
      LookupOrdered(Entries(), key, page);
      var slot, hit := Scan(PageAddr(BaseAddr(key), page), Pages(BaseAddr(key), Len(key), page));
      if !hit {
        missCount := missCount + 1;
        return None;
      }
      hitCount := hitCount + 1;
      slots[slot] := Counted(slots[slot], 1);
      assert Entries() == AfterLookup(old(Entries()), key, page);
      return Some(slots[slot].handle);
    }

    /** Doubles the array, keeping the entries in it. */
    method Grow()
      requires Valid()
      modifies this`slots
      ensures Valid() && fresh(slots) && slots.Length == 2 * old(slots).Length
      ensures Entries() == old(Entries())
    {
      var bigger := new Entry[2 * slots.Length](_ => Entry(0, 0, 0, 0));
      var i := 0;
      while i < slots.Length
        modifies bigger
        invariant i <= slots.Length
        invariant forall j :: 0 <= j < i ==> bigger[j] == slots[j]
      {
        bigger[i] := slots[i];
        i := i + 1;
      }
      assert bigger[..used] == slots[..used];
      slots := bigger;
    }

    /** Moves slots[at..used] up by one and stores e at `at`. */
    method ShiftIn(at: nat, e: Entry)
      requires at <= used < slots.Length
      modifies slots, this`used
      ensures used == old(used) + 1
      ensures Entries() == old(Entries()[..at] + [e] + Entries()[at..])
    {
      var i := used;
      while i > at
        invariant at <= i <= used < slots.Length && used == old(used)
        invariant forall j :: 0 <= j < i ==> slots[j] == old(slots[j])
        invariant forall j :: i < j <= used ==> slots[j] == old(slots[j - 1])
      {
        slots[i] := slots[i - 1];
        i := i - 1;
      }
      slots[at] := e;
      used := used + 1;
      assert slots[..at] == old(slots[..at]) && slots[at + 1..used] == old(slots[at..used]);
    }

    /** Moves slots[at + 1..used] down by one. */
    method ShiftOut(at: nat)
      requires at < used <= slots.Length
      modifies slots, this`used
      ensures used == old(used) - 1
      ensures Entries() == old(Entries()[..at] + Entries()[at + 1..])
    {
      var i := at;
      while i + 1 < used
        invariant at <= i < used <= slots.Length && used == old(used)
        invariant forall j :: 0 <= j < at ==> slots[j] == old(slots[j])
        invariant forall j :: at <= j < i ==> slots[j] == old(slots[j + 1])
        invariant forall j :: i < j < used ==> slots[j] == old(slots[j])
      {
        slots[i] := slots[i + 1];
        i := i + 1;
      }
      used := used - 1;
    }

    method InsertEntry(key: Key, handle: Handle) returns (ret: int)
      requires Valid()
      modifies this`used, this`slots, slots
      ensures Valid() && (slots == old(slots) || fresh(slots))
      ensures ret == InsertResult(old(Entries()), key, page)
      ensures Entries() == AfterInsert(old(Entries()), key, handle, page)
    {
      InsertOrdered(Entries(), key, handle, page);
      var q, n := PageAddr(BaseAddr(key), page), Pages(BaseAddr(key), Len(key), page);
      var slot, hit := Scan(q, n);
      if hit {
        return -EEXIST;
      }
      if used == slots.Length {
        Grow();
      }
      ShiftIn(slot, Entry(q, n, 1, handle));
      return 0;
    }

    method LookupHandle(handle: Handle) returns (slot: int)
      requires Valid()
      ensures slot == if IndexOf(Entries(), handle) < used then IndexOf(Entries(), handle) else -1
    {
      var i := 0;
      while i < used
        invariant i <= used
        invariant forall j :: 0 <= j < i ==> slots[j].handle != handle
      {
        if handle == slots[i].handle {
          assert Entries()[i].handle == handle;
          return i;
        }
        i := i + 1;
      }
      return -1;
    }

    method DelEntry(handle: Handle) returns (ret: int)
      requires Valid()
      modifies this`used, slots
      ensures Valid()
      ensures ret == DelResult(old(Entries()), handle)
      ensures Entries() == AfterDel(old(Entries()), handle)
    {
      DelOrdered(Entries(), handle, page);
      var slot := LookupHandle(handle);
      if slot < 0 {
        return -ENOENT;
      }
      ghost var before := Entries();
      slots[slot] := Counted(slots[slot], -1);
      assert Entries() == before[slot := Counted(before[slot], -1)];
      if slots[slot].refcnt != 0 {
        return 0;
      }
      ShiftOut(slot);
      assert Entries() == before[..slot] + before[slot + 1..];
      return 1;
    }
  }
}

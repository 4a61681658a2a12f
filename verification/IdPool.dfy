/**
 The ID pool: one bit per id in an array of 64-bit words, set while the id is free.

 Allocation scans for the first set bit. Initialisation leaves the tail bits of the last word as the
 allocator returned them when the size is a multiple of 8 but not of 64; the specification is the set
 of free ids below the size, which those bits do not touch.
 */
module IdPool {
  import opened Arithmetic
  import opened Bits
  import opened Rounding

  const ENOMEM := 12
  const EINVAL := 22
  const ENOTSUP := 95

  // The pool as a set

  /** One call on the pool and what it returned. */
  datatype Event = Alloc(ret: int) | Free(id: nat, ret: int)

  /** The answer is right: the least free id, or the error for the reason it stands for. */
  ghost predicate Answers(free: set<nat>, size: nat, e: Event)
  {
    match e
    case Alloc(ret) =>
      if free == {} then ret == -ENOMEM else ret in free && forall id :: id in free ==> ret <= id
    case Free(id, ret) =>
      ret == if id >= size then -EINVAL else if id in free then -ENOTSUP else 0
  }

  ghost function After(free: set<nat>, e: Event): set<nat>
  {
    match e
    case Alloc(ret) => if ret >= 0 then free - {ret} else free
    case Free(id, ret) => if ret == 0 then free + {id} else free
  }

  ghost function AllIds(size: nat): (ids: set<nat>)
    ensures forall id: nat :: id in ids <==> id < size
  {
    if size == 0 then {} else AllIds(size - 1) + {size - 1}
  }

  ghost predicate Legal(free: set<nat>, size: nat, run: seq<Event>)
    decreases |run|
  {
    run == [] || (Answers(free, size, run[0]) && Legal(After(free, run[0]), size, run[1..]))
  }

  ghost function FreeAfter(free: set<nat>, run: seq<Event>): set<nat>
    decreases |run|
  {
    if run == [] then free else FreeAfter(After(free, run[0]), run[1..])
  }

  /** How often id was handed out minus how often it was taken back. */
  ghost function Out(run: seq<Event>, id: nat): int
  {
    if run == [] then 0
    else (match run[0]
          case Alloc(ret) => if ret == id then 1 else 0
          case Free(id', ret) => if id' == id && ret == 0 then -1 else 0)
         + Out(run[1..], id)
  }

  lemma {:induction false} OutTracksFree(free: set<nat>, size: nat, run: seq<Event>, id: nat)
    requires free <= AllIds(size) && Legal(free, size, run)
    ensures FreeAfter(free, run) <= AllIds(size)
    ensures Out(run, id) == (if id in free then 1 else 0) - (if id in FreeAfter(free, run) then 1 else 0)
    decreases |run|
  {
    if run != [] {
      OutTracksFree(After(free, run[0]), size, run[1..], id);
    }
  }

  /** In every run, no id is out twice, and every id of the pool is either out or free. */
  lemma {:induction false} OutstandingDistinct(size: nat, run: seq<Event>, id: nat)
    requires Legal(AllIds(size), size, run)
    ensures 0 <= Out(run, id) <= 1
    ensures Out(run, id) == 1 <==> id < size && id !in FreeAfter(AllIds(size), run)
  {
    OutTracksFree(AllIds(size), size, run, id);
  }

  // The pool as words

  predicate IsFree(words: seq<bv64>, id: nat)
  {
    id / 64 < |words| && Bit(words[id / 64], id % 64)
  }

  function Words(size: nat): (n: nat)
    ensures n == (size + 63) / 64
  {
    RoundDownIs(size + 63, 64);
    RoundUp(size, 64) / 64
  }

  lemma {:induction false} WordOf(i: nat, k: nat)
    requires k < 64
    ensures (i * 64 + k) / 64 == i && (i * 64 + k) % 64 == k
  {
  }

  lemma {:induction false} WordCount(size: nat)
    requires size % 8 != 0
    ensures Words(size) == size / 64 + 1 && size % 64 != 0
  {
  }

  /** Setting one byte frees its eight ids and changes no other. */
  lemma {:induction false} ByteSet(words: seq<bv64>, b: nat, id: nat)
    requires b / 8 < |words|
    ensures IsFree(words[b / 8 := WithByte(words[b / 8], b % 8)], id) <==> id / 8 == b || IsFree(words, id)
  {
    hide Bit, WithByte;
    if id / 64 == b / 8 {
      BitByte(words[b / 8], b % 8, id % 64);
    }
  }

  lemma {:induction false} IdSet(words: seq<bv64>, at: nat, id: nat)
    requires at / 64 < |words|
    ensures IsFree(words[at / 64 := WithBit(words[at / 64], at % 64)], id) <==> id == at || IsFree(words, id)
  {
    hide Bit, WithBit;
    if id / 64 == at / 64 {
      BitSet(words[at / 64], at % 64, id % 64);
    }
  }

  lemma {:induction false} IdCleared(words: seq<bv64>, at: nat, id: nat)
    requires at / 64 < |words|
    ensures IsFree(words[at / 64 := WithoutBit(words[at / 64], at % 64)], id) <==> id != at && IsFree(words, id)
  {
    hide Bit, WithoutBit;
    if id / 64 == at / 64 {
      BitCleared(words[at / 64], at % 64, id % 64);
    }
  }

  /** The last word of a pool whose size is not a multiple of 64, once its low bits are set. */
  lemma {:induction false} LastWord(words: seq<bv64>, size: nat, id: nat)
    requires size % 64 != 0 && |words| == size / 64 + 1 && words[size / 64] == LowMask(size % 64)
    ensures id / 64 == size / 64 ==> (IsFree(words, id) <==> id < size)
  {
    hide Bit, LowMask;
    if id / 64 == size / 64 {
      BitLow(size % 64, id % 64);
    }
  }

  /** The number of the lowest set bit counted from one, or zero: the compiler's ffs. */
  method FindFirstSet(w: bv64) returns (n: nat)
    ensures n <= 64
    ensures n == 0 ==> forall k :: 0 <= k < 64 ==> !Bit(w, k)
    ensures n > 0 ==> Bit(w, n - 1) && forall k :: 0 <= k < n - 1 ==> !Bit(w, k)
  {
    hide Bit;
    var k := 0;
    while k < 64
      invariant 0 <= k <= 64
      invariant forall j :: 0 <= j < k ==> !Bit(w, j)
    {
      if Bit(w, k) {
        return k + 1;
      }
      k := k + 1;
    }
    return 0;
  }

  class Pool {
    const size: nat
    var ids: array<bv64>

    ghost predicate Valid()
      reads this
    {
      ids.Length == Words(size)
    }

    ghost function FreeIds(): set<nat>
      reads this, ids
    {
      set id | 0 <= id < size && IsFree(ids[..], id)
    }

    /** A new array's words hold anything, as allocated memory does. */
    constructor (size: nat)
      ensures Valid() && this.size == size && FreeIds() == AllIds(size) && fresh(ids)
    {
      this.size := size;
      ids := new bv64[Words(size)];
      new;
      hide IsFree, Bit, WithByte, LowMask;
      var b := 0;
      while b < size / 8
        modifies ids
        invariant 0 <= b <= size / 8
        invariant forall id :: 0 <= id < 8 * b ==> IsFree(ids[..], id)
      {
        ghost var before := ids[..];
        ids[b / 8] := WithByte(ids[b / 8], b % 8);
        assert ids[..] == before[b / 8 := WithByte(before[b / 8], b % 8)];
        forall id | 0 <= id < 8 * (b + 1) ensures IsFree(ids[..], id) {
          ByteSet(before, b, id);
        }
        b := b + 1;
      }
      if size % 8 != 0 {
        ghost var before := ids[..];
        ids[Words(size) - 1] := LowMask(size % 64);
        forall id | 0 <= id < size ensures IsFree(ids[..], id) {
          LastWordFree(before, ids[..], size, id);
        }
      }
    }

    method AllocateId() returns (ret: int)
      requires Valid()
      modifies ids
      ensures Answers(old(FreeIds()), size, Alloc(ret))
      ensures FreeIds() == After(old(FreeIds()), Alloc(ret))
    {
      hide IsFree, Bit, WithoutBit;
      if size == 0 {
        return -ENOMEM;
      }
      ghost var before := ids[..];
      var n := Words(size);
      var found, id: nat := false, 0;
      var i := 0;
      while i < n && !found
        invariant 0 <= i <= n
        invariant !found ==> ids[..] == before && forall j :: 0 <= j < 64 * i ==> !IsFree(before, j)
        invariant found ==> IsFree(before, id) && forall j :: 0 <= j < id ==> !IsFree(before, j)
        invariant found ==> forall j :: 0 <= j ==> (IsFree(ids[..], j) <==> j != id && IsFree(before, j))
        decreases n - i, !found
      {
        var entry := FindFirstSet(ids[i]);
        ScanWord(before, i, entry);
        if entry != 0 {
          id := i * 64 + entry - 1;
          WordOf(i, entry - 1);
          ids[i] := WithoutBit(ids[i], entry - 1);
          assert ids[..] == before[id / 64 := WithoutBit(before[id / 64], id % 64)];
          forall j | 0 <= j ensures IsFree(ids[..], j) <==> j != id && IsFree(before, j) {
            IdCleared(before, id, j);
          }
          found := true;
        } else {
          i := i + 1;
        }
      }
      NoFreeBeyond(before, size);
      if !found || id >= size {
        return -ENOMEM;
      }
      assert id in old(FreeIds());
      return id;
    }

    method FreeId(id: nat) returns (ret: int)
      requires Valid()
      modifies ids
      ensures Answers(old(FreeIds()), size, Free(id, ret))
      ensures FreeIds() == After(old(FreeIds()), Free(id, ret))
      ensures ret != 0 ==> ids[..] == old(ids[..])
    {
      hide Bit, TestBit, WithBit;
      if size == 0 {
        return -EINVAL;
      }
      if id >= size {
        return -EINVAL;
      }
      var i, entry := id / 64, id % 64;
      TestIsBit(ids[i], entry);
      if TestBit(ids[i], entry) {
        return -ENOTSUP;
      }
      ghost var before := ids[..];
      ids[i] := WithBit(ids[i], entry);
      assert ids[..] == before[i := WithBit(before[i], entry)];
      forall j | 0 <= j < size ensures IsFree(ids[..], j) <==> j == id || IsFree(before, j) {
        IdSet(before, id, j);
      }
      return 0;
    }
  }

  lemma {:induction false} BelowLastWord(size: nat, id: nat)
    requires id < size && id / 64 != size / 64
    ensures id / 64 < size / 64 && id < 8 * (size / 8)
  {
    assert id < 64 * (size / 64) <= 8 * (size / 8);
  }

  lemma {:induction false} LastWordFree(before: seq<bv64>, words: seq<bv64>, size: nat, id: nat)
    requires size % 8 != 0 && |before| == Words(size) && |words| == |before|
    requires words == before[|words| - 1 := LowMask(size % 64)]
    requires id < size && (id < 8 * (size / 8) ==> IsFree(before, id))
    ensures IsFree(words, id)
  {
    hide Bit, LowMask, Words;
    WordCount(size);
    if id / 64 == size / 64 {
      LastWord(words, size, id);
    } else {
      BelowLastWord(size, id);
    }
  }

  /** One word of the scan: the ids below the found bit are not free, and the found one is. */
  lemma {:induction false} ScanWord(words: seq<bv64>, i: nat, entry: nat)
    requires i < |words| && entry <= 64
    requires entry == 0 ==> forall k :: 0 <= k < 64 ==> !Bit(words[i], k)
    requires entry > 0 ==> Bit(words[i], entry - 1) && forall k :: 0 <= k < entry - 1 ==> !Bit(words[i], k)
    ensures entry == 0 ==> forall j :: 64 * i <= j < 64 * (i + 1) ==> !IsFree(words, j)
    ensures entry > 0 ==> IsFree(words, i * 64 + entry - 1)
    ensures entry > 0 ==> forall j :: 64 * i <= j < i * 64 + entry - 1 ==> !IsFree(words, j)
  {
    hide Bit;
    forall j | 64 * i <= j < 64 * (i + 1) ensures IsFree(words, j) <==> Bit(words[i], j - 64 * i) {
      WordOf(i, j - 64 * i);
    }
    if entry > 0 {
      WordOf(i, entry - 1);
    }
  }

  lemma {:induction false} NoFreeBeyond(words: seq<bv64>, size: nat)
    requires |words| == Words(size)
    ensures forall id :: 64 * |words| <= id ==> !IsFree(words, id)
    ensures size <= 64 * |words|
  {
  }
}

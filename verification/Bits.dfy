/** Single bits of a 64-bit word, as the shift and mask expressions of the ID pool treat them. */
module Bits {

  function OneBit(k: bv7): bv64
    requires k < 64
  {
    1 << k
  }

  predicate HasBit(w: bv64, k: bv7)
    requires k < 64
  {
    (w >> k) & 1 == 1
  }

  lemma {:induction false} SetRaw(w: bv64, k: bv7, j: bv7)
    requires k < 64 && j < 64
    ensures HasBit(w | OneBit(k), j) <==> j == k || HasBit(w, j)
  {
  }

  lemma {:induction false} ClearRaw(w: bv64, k: bv7, j: bv7)
    requires k < 64 && j < 64
    ensures HasBit(w & !OneBit(k), j) <==> j != k && HasBit(w, j)
  {
  }

  lemma {:induction false} LowRaw(m: bv7, j: bv7)
    requires m < 64 && j < 64
    ensures HasBit(OneBit(m) - 1, j) <==> j < m
  {
  }

  lemma {:induction false} ByteRaw(w: bv64, s: bv7, j: bv7)
    requires s <= 56 && j < 64
    ensures HasBit(w | (0xff << s), j) <==> (s <= j && j < s + 8) || HasBit(w, j)
  {
  }

  /** The test as the pool writes it. */
  predicate Masked(w: bv64, k: bv7)
    requires k < 64
  {
    w & OneBit(k) != 0
  }

  lemma {:induction false} TestRaw(w: bv64, k: bv7)
    requires k < 64
    ensures Masked(w, k) <==> HasBit(w, k)
  {
  }

  // Bit numbers that are plain numbers

  function Index(k: nat): bv7
    requires k < 64
  {
    k as bv7
  }

  lemma {:induction false} RoundTrip(k: nat)
    requires k < 64
    ensures Index(k) as nat == k
  {
  }

  lemma {:induction false} LessRaw(a: bv7, b: bv7)
    ensures a < b <==> (a as nat) < (b as nat)
    ensures b <= 56 ==> (a < b + 8 <==> (a as nat) < (b as nat) + 8)
  {
  }

  lemma {:induction false} EqRaw(a: bv7, b: bv7)
    ensures a == b <==> (a as nat) == (b as nat)
  {
  }

  lemma {:induction false} IndexOrder(k: nat, j: nat)
    requires k < 64 && j < 64
    ensures Index(k) < 64
    ensures Index(j) < Index(k) <==> j < k
    ensures Index(j) == Index(k) <==> j == k
    ensures k <= 56 ==> Index(k) <= 56 && (Index(j) < Index(k) + 8 <==> j < k + 8)
  {
    hide Index;
    RoundTrip(k);
    RoundTrip(j);
    LessRaw(Index(k), 64);
    LessRaw(Index(k), 57);
    LessRaw(Index(j), Index(k));
    EqRaw(Index(j), Index(k));
  }

  predicate Bit(w: bv64, k: nat)
    requires k < 64
  {
    IndexOrder(k, k);
    HasBit(w, Index(k))
  }

  predicate TestBit(w: bv64, k: nat)
    requires k < 64
  {
    IndexOrder(k, k);
    Masked(w, Index(k))
  }

  lemma {:induction false} TestIsBit(w: bv64, k: nat)
    requires k < 64
    ensures TestBit(w, k) <==> Bit(w, k)
  {
    hide Index, Masked, HasBit;
    IndexOrder(k, k);
    TestRaw(w, Index(k));
  }

  function WithBit(w: bv64, k: nat): bv64
    requires k < 64
  {
    IndexOrder(k, k);
    w | OneBit(Index(k))
  }

  function WithoutBit(w: bv64, k: nat): bv64
    requires k < 64
  {
    IndexOrder(k, k);
    w & !OneBit(Index(k))
  }

  /** The word whose low m bits are set. */
  function LowMask(m: nat): bv64
    requires m < 64
  {
    IndexOrder(m, m);
    OneBit(Index(m)) - 1
  }

  /** w with its c-th byte, counted from the low end, set to 0xff. */
  function WithByte(w: bv64, c: nat): bv64
    requires c < 8
  {
    IndexOrder(8 * c, 8 * c);
    w | (0xff << Index(8 * c))
  }

  lemma {:induction false} BitSet(w: bv64, k: nat, j: nat)
    requires k < 64 && j < 64
    ensures Bit(WithBit(w, k), j) <==> j == k || Bit(w, j)
  {
    hide Index, OneBit, HasBit;
    IndexOrder(k, j);
    IndexOrder(j, k);
    SetRaw(w, Index(k), Index(j));
  }

  lemma {:induction false} BitCleared(w: bv64, k: nat, j: nat)
    requires k < 64 && j < 64
    ensures Bit(WithoutBit(w, k), j) <==> j != k && Bit(w, j)
  {
    hide Index, OneBit, HasBit;
    IndexOrder(k, j);
    IndexOrder(j, k);
    ClearRaw(w, Index(k), Index(j));
  }

  lemma {:induction false} BitLow(m: nat, j: nat)
    requires m < 64 && j < 64
    ensures Bit(LowMask(m), j) <==> j < m
  {
    hide Index, OneBit, HasBit;
    IndexOrder(m, j);
    IndexOrder(j, m);
    LowRaw(Index(m), Index(j));
  }

  lemma {:induction false} BitByte(w: bv64, c: nat, j: nat)
    requires c < 8 && j < 64
    ensures Bit(WithByte(w, c), j) <==> 8 * c <= j < 8 * c + 8 || Bit(w, j)
  {
    hide Index, OneBit, HasBit;
    IndexOrder(8 * c, j);
    IndexOrder(j, j);
    ByteRaw(w, Index(8 * c), Index(j));
  }
}

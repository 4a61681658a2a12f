/**
 Multiples, rounding and quotients by repeated subtraction, and equal steps by repeated addition.

 The definitions keep products and variable moduli out of the contracts that mention them; each is
 tied to `%`, `/` and `*` by a lemma. The code's masks `x & ~(a - 1)`, with a a power of two, are
 `RoundDown(x, a)`.
 */
module Rounding {
  import opened Arithmetic

  ghost predicate Multiple(x: nat, a: nat)
    requires a > 0
  {
    x == 0 || (a <= x && Multiple(x - a, a))
  }

  lemma {:induction false} MultipleIff(x: nat, a: nat)
    requires a > 0
    ensures Multiple(x, a) <==> x % a == 0
  {
    if x < a {
      ModSmall(x, a);
    } else {
      MultipleIff(x - a, a);
      ModAddMultiple(x - a, 1, a);
    }
  }

  function RoundDown(x: nat, a: nat): (r: nat)
    requires a > 0
    ensures Multiple(r, a) && r <= x < r + a
  {
    if x < a then 0 else a + RoundDown(x - a, a)
  }

  lemma {:induction false} RoundDownIs(x: nat, a: nat)
    requires a > 0
    ensures RoundDown(x, a) == x - x % a
  {
    if x < a {
      ModSmall(x, a);
    } else {
      RoundDownIs(x - a, a);
      ModAddMultiple(x - a, 1, a);
    }
  }

  function RoundUp(x: nat, a: nat): (r: nat)
    requires a > 0
    ensures Multiple(r, a) && x <= r < x + a
  {
    RoundDown(x + (a - 1), a)
  }

  function Quotient(x: nat, a: nat): nat
    requires a > 0
  {
    if x < a then 0 else 1 + Quotient(x - a, a)
  }

  lemma {:induction false} QuotientIs(x: nat, a: nat)
    requires a > 0
    ensures Quotient(x, a) == x / a
  {
    if x < a {
      ModSmall(x, a);
    } else {
      QuotientIs(x - a, a);
      var q, r := (x - a) / a, (x - a) % a;
      assert x == a * (q + 1) + r by {
        assert a * (q + 1) == a * q + a;
      }
      DivModUnique(x, q + 1, r, a);
    }
  }

  /** n steps of width w from x on. */
  function Steps(x: nat, n: nat, w: nat): (r: nat)
    ensures r >= x
  {
    if n == 0 then x else Steps(x, n - 1, w) + w
  }

  lemma {:induction false} StepsIs(x: nat, n: nat, w: nat)
    ensures Steps(x, n, w) == x + n * w
  {
    if n > 0 {
      StepsIs(x, n - 1, w);
      assert n * w == (n - 1) * w + w;
    }
  }

  lemma {:induction false} StepsShift(x: nat, y: nat, n: nat, w: nat)
    ensures Steps(x + y, n, w) == x + Steps(y, n, w)
  {
    if n > 0 {
      StepsShift(x, y, n - 1, w);
    }
  }

  lemma {:induction false} StepsApart(x: nat, i: nat, j: nat, w: nat)
    requires i < j
    ensures Steps(x, i, w) + w <= Steps(x, j, w)
  {
    if i < j - 1 {
      StepsApart(x, i, j - 1, w);
    }
  }

  /** Multiples of a lie at least a apart. */
  lemma {:induction false} MultiplesApart(x: nat, y: nat, a: nat)
    requires a > 0 && Multiple(x, a) && Multiple(y, a)
    ensures x < y ==> x + a <= y
    ensures x - y < a && y - x < a ==> x == y
  {
    if a <= x && a <= y {
      MultiplesApart(x - a, y - a, a);
    }
  }

  lemma {:induction false} MultipleAdd(x: nat, y: nat, a: nat)
    requires a > 0 && Multiple(y, a)
    ensures Multiple(x + y, a) <==> Multiple(x, a)
  {
    if y > 0 {
      MultipleAdd(x, y - a, a);
      assert x + y - a == x + (y - a);
    }
  }

  lemma {:induction false} MultipleSelf(a: nat)
    requires a > 0
    ensures Multiple(a, a)
  {
  }

  lemma {:induction false} MultipleSteps(x: nat, n: nat, w: nat, a: nat)
    requires a > 0 && Multiple(w, a)
    ensures Multiple(Steps(x, n, w), a) <==> Multiple(x, a)
  {
    if n > 0 {
      MultipleSteps(x, n - 1, w, a);
      MultipleAdd(Steps(x, n - 1, w), w, a);
    }
  }

  /** Multiples of a multiple of a are multiples of a. */
  lemma {:induction false} MultipleOfMultiple(x: nat, p: nat, a: nat)
    requires a > 0 && p > 0 && Multiple(p, a) && Multiple(x, p)
    ensures Multiple(x, a)
  {
    if x > 0 {
      MultipleOfMultiple(x - p, p, a);
      MultipleAdd(x - p, p, a);
    }
  }

  lemma {:induction false} PowerMultiple(n: nat, m: nat)
    requires PowerOfTwo(n) && PowerOfTwo(m) && m <= n
    ensures Multiple(n, m)
  {
    PowerDivides(n, m);
    MultipleIff(n, m);
  }
}

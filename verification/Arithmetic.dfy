/** Division facts shared by the other modules; all of them concern a divisor that is a variable. */
module Arithmetic {

  function Min(a: nat, b: nat): nat { if a <= b then a else b }
  function Max(a: nat, b: nat): nat { if a >= b then a else b }

  lemma {:induction false} SmallMultiple(n: int, d: int)
    requires -n < n * d < n
    ensures d == 0
  {
    if d != 0 {
      NonzeroMultiple(n, d);
    }
  }

  lemma {:induction false} NonzeroMultiple(n: nat, d: int)
    requires d != 0
    ensures n * d >= n || n * -d >= n
    ensures n * -d == -(n * d)
  {
    if d >= 1 {
      MulGrows(n, d);
    } else {
      MulGrows(n, -d);
    }
  }

  lemma {:induction false} MulGrows(n: nat, d: int)
    requires d >= 1
    ensures n * d >= n
  {
    assert n * d == n * (d - 1) + n;
    MulNonNegative(n, d - 1);
  }

  lemma {:induction false} MulNonNegative(a: nat, b: nat)
    ensures a * b >= 0
  {
  }

  /** Quotient and remainder are unique. */
  lemma {:induction false} DivModUnique(x: int, q: int, r: nat, n: nat)
    requires x == n * q + r && r < n
    ensures x / n == q && x % n == r
  {
    var q', r' := x / n, x % n;
    assert x == n * q' + r';
    assert n * (q - q') == n * q - n * q';
    SmallMultiple(n, q - q');
  }

  lemma {:induction false} ModSmall(a: nat, n: nat)
    requires a < n
    ensures a % n == a && a / n == 0
  {
    DivModUnique(a, 0, a, n);
  }

  lemma {:induction false} ModAddMultiple(x: int, q: int, n: nat)
    requires n > 0
    ensures (x + n * q) % n == x % n
  {
    assert x + n * q == n * (x / n + q) + x % n;
    DivModUnique(x + n * q, x / n + q, x % n, n);
  }

  lemma {:induction false} ModAddLeft(a: int, b: int, n: nat)
    requires n > 0
    ensures (a % n + b) % n == (a + b) % n
  {
    assert a + b == (a % n + b) + n * (a / n);
    ModAddMultiple(a % n + b, a / n, n);
  }

  /** Counting up by one modulo n. */
  lemma {:induction false} ModSucc(a: nat, n: nat)
    requires n > 0
    ensures (a + 1) % n == if a % n + 1 == n then 0 else a % n + 1
    ensures (a + 1) / n == if a % n + 1 == n then a / n + 1 else a / n
  {
    var q, r := a / n, a % n;
    if r + 1 == n {
      assert a + 1 == n * (q + 1) + 0 by {
        assert n * (q + 1) == n * q + n;
      }
      DivModUnique(a + 1, q + 1, 0, n);
    } else {
      DivModUnique(a + 1, q, r + 1, n);
    }
  }

  /** Numbers closer than n are told apart by their residues. */
  lemma {:induction false} ModDistinct(a: int, b: int, n: nat)
    requires a < b < a + n
    ensures a % n != b % n
  {
    if a % n == b % n {
      ModEqual(a, b, n);
    }
  }

  lemma {:induction false} ModEqual(a: int, b: int, n: int)
    requires -n < b - a < n
    ensures a % n == b % n ==> a == b
  {
    if a % n == b % n {
      assert n * (b / n - a / n) == n * (b / n) - n * (a / n);
      SmallMultiple(n, b / n - a / n);
    }
  }

  /** With k dividing n, reducing modulo n first changes nothing modulo k. */
  lemma {:induction false} ModOfMod(a: int, n: nat, k: nat)
    requires k > 0 && n > 0 && n % k == 0
    ensures (a % n) % k == a % k
  {
    var c := n / k;
    assert n == k * c;
    assert a == a % n + k * (c * (a / n)) by {
      assert (k * c) * (a / n) == k * (c * (a / n));
    }
    ModAddMultiple(a % n, c * (a / n), k);
  }

  /** The ceiling of x / y, written as the source writes it. */
  function DivCeil(x: nat, y: nat): (q: nat)
    requires y > 0
    ensures q * y >= x
    ensures x > 0 ==> q > 0 && (q - 1) * y < x
    ensures x == 0 ==> q == 0
  {
    if x == 0 then 0 else
      CeilBounds(x, y);
      1 + (x - 1) / y
  }

  lemma {:induction false} CeilBounds(x: nat, y: nat)
    requires x > 0 && y > 0
    ensures (1 + (x - 1) / y) * y >= x
    ensures ((x - 1) / y) * y < x
    ensures (x - 1) / y >= 0
  {
    var q, r := (x - 1) / y, (x - 1) % y;
    assert x - 1 == y * q + r;
    assert (1 + q) * y == y + y * q;
    assert q * y == y * q;
  }

  ghost predicate PowerOfTwo(n: nat)
  {
    n == 1 || (n > 1 && n % 2 == 0 && PowerOfTwo(n / 2))
  }

  lemma {:induction false} PowersApart(n: nat, m: nat)
    requires PowerOfTwo(n) && PowerOfTwo(m) && m < n
    ensures 2 * m <= n
  {
    if m > 1 {
      PowersApart(n / 2, m / 2);
    }
  }

  lemma {:induction false} PowerDivides(n: nat, m: nat)
    requires PowerOfTwo(n) && PowerOfTwo(m) && m <= n
    ensures n % m == 0
  {
    if m > 1 {
      PowerDivides(n / 2, m / 2);
      var q := (n / 2) / (m / 2);
      assert n / 2 == (m / 2) * q;
      assert n == m * q by {
        assert n == 2 * (n / 2) && m == 2 * (m / 2);
        assert 2 * ((m / 2) * q) == (2 * (m / 2)) * q;
      }
      DivModUnique(n, q, 0, m);
    }
  }
}

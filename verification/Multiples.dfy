/** Rounding to multiples, and powers of two. */
module Multiples {
  function Pow2(k: nat): (r: nat)
    ensures r > 0
  {
    if k == 0 then 1 else 2 * Pow2(k - 1)
  }

  lemma {:induction false} Pow2Adds(a: nat, b: nat)
    ensures Pow2(a + b) == Pow2(a) * Pow2(b)
  {
    if a > 0 { Pow2Adds(a - 1, b); assert Pow2(a + b) == 2 * Pow2(a - 1 + b); }
  }

  lemma {:induction false} Pow2Mono(m: nat, n: nat)
    requires m <= n
    ensures Pow2(m) <= Pow2(n)
  {
    if m < n { Pow2Mono(m, n - 1); }
  }

  lemma AtLeast(n: nat, d: nat)
    requires d >= 1
    ensures n * d >= n
  {
  }

  lemma ModOf(q: nat, n: nat, r: nat)
    requires r < n
    ensures (n * q + r) % n == r
  {
    var v := n * q + r;
    var q', r' := v / n, v % n;
    assert v == n * q' + r';
    if q > q' {
      AtLeast(n, q - q');
    } else if q < q' {
      AtLeast(n, q' - q);
    }
  }

  lemma MultipleForm(x: nat, n: nat)
    requires n > 0
    ensures x == n * (x / n) + x % n
  {
  }

  /** x % b == 0, without the arithmetic of products; `(x & (b - 1)) == 0` for powers of two. */
  predicate Multiple(x: nat, b: nat)
    requires b > 0
  {
    if x < b then x == 0 else Multiple(x - b, b)
  }

  lemma {:induction false} MultipleAdd(x: nat, y: nat, b: nat)
    requires b > 0 && Multiple(x, b) && Multiple(y, b)
    ensures Multiple(x + y, b)
  {
    if y >= b { MultipleAdd(x, y - b, b); }
  }

  lemma {:induction false} MultipleSub(x: nat, y: nat, b: nat)
    requires b > 0 && Multiple(x, b) && Multiple(y, b) && y <= x
    ensures Multiple(x - y, b)
  {
    if y >= b { MultipleSub(x - b, y - b, b); }
  }

  lemma {:induction false} MultipleTrans(x: nat, b: nat, c: nat)
    requires b > 0 && c > 0 && Multiple(x, b) && Multiple(b, c)
    ensures Multiple(x, c)
  {
    if x >= b {
      MultipleTrans(x - b, b, c);
      MultipleAdd(x - b, b, c);
    }
  }

  /** Multiples closer than `n` are equal. */
  lemma MultiplesApart(x: nat, y: nat, n: nat)
    requires n > 0 && Multiple(x, n) && Multiple(y, n) && y < x
    ensures y + n <= x
  {
    MultipleSub(x, y, n);
  }

  lemma {:induction false} MultipleOf(q: nat, b: nat)
    requires b > 0
    ensures Multiple(b * q, b)
  {
    if q > 0 {
      MultipleOf(q - 1, b);
      assert b * q == b * (q - 1) + b;
    }
  }

  lemma {:induction false} QuotientOf(x: nat, b: nat) returns (q: nat)
    requires b > 0 && Multiple(x, b)
    ensures x == b * q
  {
    if x < b {
      q := 0;
    } else {
      q := QuotientOf(x - b, b);
      assert b * (q + 1) == b * q + b;
      q := q + 1;
    }
  }

  lemma MultipleIsMod(x: nat, b: nat)
    requires b > 0
    ensures Multiple(x, b) <==> x % b == 0
  {
    if Multiple(x, b) {
      var q := QuotientOf(x, b);
      ModOf(q, b, 0);
    } else {
      MultipleForm(x, b);
      MultipleOf(x / b, b);
    }
  }

  lemma {:induction false} Pow2Multiple(k: nat, m: nat)
    requires k <= m
    ensures Multiple(Pow2(m), Pow2(k))
  {
    if k < m {
      Pow2Multiple(k, m - 1);
      MultipleAdd(Pow2(m - 1), Pow2(m - 1), Pow2(k));
    }
  }

  /** ROUNDDOWN */
  function RoundDown(x: nat, n: nat): nat
    requires n > 0
  {
    if x < n then 0 else n + RoundDown(x - n, n)
  }

  /** ROUNDUP */
  function RoundUp(x: nat, n: nat): nat
    requires n > 0
  {
    RoundDown(x + n - 1, n)
  }

  lemma {:induction false} RoundDownIs(x: nat, n: nat)
    requires n > 0
    ensures Multiple(RoundDown(x, n), n) && RoundDown(x, n) <= x < RoundDown(x, n) + n
  {
    if x >= n { RoundDownIs(x - n, n); }
  }

  /** Rounding down takes off the remainder, as the source does with a mask. */
  lemma RoundDownIsMask(x: nat, n: nat)
    requires n > 0
    ensures RoundDown(x, n) == x - x % n
  {
    RoundDownIs(x, n);
    var q := QuotientOf(RoundDown(x, n), n);
    ModOf(q, n, x - RoundDown(x, n));
  }

  /** ROUNDUP gives the least multiple that is not below. */
  lemma RoundUpIs(x: nat, n: nat)
    requires n > 0
    ensures Multiple(RoundUp(x, n), n) && x <= RoundUp(x, n) < x + n
    ensures forall m: nat | Multiple(m, n) && m >= x :: m >= RoundUp(x, n)
  {
    RoundDownIs(x + n - 1, n);
    forall m: nat | Multiple(m, n) && m >= x ensures m >= RoundUp(x, n) {
      if m < RoundUp(x, n) { MultiplesApart(RoundUp(x, n), m, n); }
    }
  }
}

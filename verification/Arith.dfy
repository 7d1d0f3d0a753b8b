/**
 Division by a divisor that is not a constant.

 Block numbers are split by blocks per group, file blocks by pointers per block,
 file offsets by block size.  `Quot` and `Rem` count down by repeated
 subtraction; `QuotRem` says they are `/` and `%`.
 */
module Arith {

  function Quot(n: nat, x: nat): (q: nat)
    requires n > 0
    decreases x
  {
    if x < n then 0 else 1 + Quot(n, x - n)
  }

  function Rem(n: nat, x: nat): (r: nat)
    requires n > 0
    ensures r < n
    decreases x
  {
    if x < n then x else Rem(n, x - n)
  }

  /** A number and its quotient and remainder determine each other. */
  lemma {:induction false} Split(n: nat, q: nat, r: nat, x: nat)
    requires r < n
    ensures x == q * n + r <==> Quot(n, x) == q && Rem(n, x) == r
    decreases x
  {
    if x < n {
      if q > 0 {
        MulAtLeast(n, q);
      }
    } else if q > 0 {
      Split(n, q - 1, r, x - n);
      assert q * n == (q - 1) * n + n;
    }
  }

  lemma QuotRem(n: nat, x: nat)
    requires n > 0
    ensures Quot(n, x) == x / n && Rem(n, x) == x % n
  {
    assert x == x / n * n + x % n;
    Split(n, x / n, x % n, x);
  }

  lemma {:induction false} SplitUnique(n: nat, x: nat, y: nat)
    requires n > 0 && Quot(n, x) == Quot(n, y) && Rem(n, x) == Rem(n, y)
    ensures x == y
    decreases x
  {
    if x >= n && y >= n {
      SplitUnique(n, x - n, y - n);
    }
  }

  /** Moving within one run of n keeps the quotient and moves the remainder. */
  lemma {:induction false} Shift(n: nat, x: nat, d: nat)
    requires n > 0 && Rem(n, x) + d < n
    ensures Quot(n, x + d) == Quot(n, x) && Rem(n, x + d) == Rem(n, x) + d
    decreases x
  {
    if x >= n {
      Shift(n, x - n, d);
    }
  }

  /** a * b, by repeated addition. */
  function Times(a: nat, b: nat): (m: nat)
    decreases a
  {
    if a == 0 then 0 else b + Times(a - 1, b)
  }

  lemma {:induction false} TimesIsProduct(a: nat, b: nat)
    ensures Times(a, b) == a * b
    decreases a
  {
    if a > 0 {
      TimesIsProduct(a - 1, b);
      assert a * b == b + (a - 1) * b;
    }
  }

  /** A number below q * n has a quotient below q. */
  lemma {:induction false} QuotBound(n: nat, q: nat, x: nat)
    requires n > 0 && x < Times(q, n)
    ensures Quot(n, x) < q
    decreases x
  {
    if x >= n {
      QuotBound(n, q - 1, x - n);
    }
  }

  lemma MulAtLeast(n: nat, d: nat)
    requires d > 0
    ensures d * n >= n
  {
    assert d * n == n + (d - 1) * n;
  }

  /** The run of d numbers from x, inside one run of n, seen through quotient and remainder. */
  lemma InRun(n: nat, x: nat, d: nat, k: nat)
    requires n > 0 && Rem(n, x) + d <= n
    ensures x <= k < x + d <==> Quot(n, k) == Quot(n, x) && Rem(n, x) <= Rem(n, k) < Rem(n, x) + d
    ensures x <= k < x + d ==> Rem(n, k) == Rem(n, x) + (k - x)
  {
    if x <= k < x + d {
      Shift(n, x, k - x);
    }
    if Quot(n, k) == Quot(n, x) && Rem(n, x) <= Rem(n, k) < Rem(n, x) + d {
      Shift(n, x, Rem(n, k) - Rem(n, x));
      SplitUnique(n, k, x + (Rem(n, k) - Rem(n, x)));
    }
  }

  lemma {:induction false} SubsetSize<T>(a: set<T>, b: set<T>)
    requires a <= b
    ensures |a| <= |b|
  {
    if a != {} {
      var x :| x in a;
      SubsetSize(a - {x}, b - {x});
    }
  }
}

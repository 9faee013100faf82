/** Finite sums of reals, the algebra every numeric module rests on. */
module Sums {
  /** f(0) + ... + f(n-1). */
  ghost function Sum(f: int -> real, n: nat): real {
    if n == 0 then 0.0 else Sum(f, n - 1) + f(n - 1)
  }

  /** A product as a named term. */
  function Mul(x: real, y: real): real { x * y }

  function Abs(x: real): real { if x < 0.0 then -x else x }

  /** A square root on the non-negative reals. */
  ghost predicate IsSqrt(sqrt: real -> real) {
    forall x: real | x >= 0.0 :: sqrt(x) >= 0.0 && sqrt(x) * sqrt(x) == x
  }

  /** Entry i of a vector, zero outside it: lets a lambda index a sequence. */
  function At(x: seq<real>, i: int): real {
    if 0 <= i < |x| then x[i] else 0.0
  }

  lemma {:induction false} SumEq(f: int -> real, g: int -> real, n: nat)
    requires forall i | 0 <= i < n :: f(i) == g(i)
    ensures Sum(f, n) == Sum(g, n)
  {
    if n > 0 { SumEq(f, g, n - 1); }
  }

  lemma {:induction false} SumLinear(a: real, f: int -> real, b: real, g: int -> real, h: int -> real, n: nat)
    requires forall i | 0 <= i < n :: h(i) == a * f(i) + b * g(i)
    ensures Sum(h, n) == a * Sum(f, n) + b * Sum(g, n)
  {
    if n > 0 { SumLinear(a, f, b, g, h, n - 1); }
  }

  lemma {:induction false} SumSwap(F: (int, int) -> real, m: nat, n: nat)
    ensures Sum(i => Sum(j => F(i, j), n), m) == Sum(j => Sum(i => F(i, j), m), n)
  {
    if m == 0 {
      SumLinear(0.0, j => 0.0, 0.0, j => 0.0, j => Sum(i => F(i, j), m), n);
    } else {
      SumSwap(F, m - 1, n);
      SumLinear(1.0, j => Sum(i => F(i, j), m - 1), 1.0, j => F(m - 1, j), j => Sum(i => F(i, j), m), n);
    }
  }

  /** A sum with one non-zero term. */
  lemma {:induction false} SumUnit(f: int -> real, j: int, n: nat)
    requires forall i | 0 <= i < n && i != j :: f(i) == 0.0
    ensures Sum(f, n) == if 0 <= j < n then f(j) else 0.0
  {
    if n > 0 { SumUnit(f, j, n - 1); }
  }

  lemma {:induction false} SumNonNegative(f: int -> real, n: nat)
    requires forall i | 0 <= i < n :: f(i) >= 0.0
    ensures Sum(f, n) >= 0.0
  {
    if n > 0 { SumNonNegative(f, n - 1); }
  }

  /** A constant factor moves out of a sum. */
  lemma SumScale(a: real, f: int -> real, h: int -> real, n: nat)
    requires forall i | 0 <= i < n :: h(i) == a * f(i)
    ensures Sum(h, n) == a * Sum(f, n)
  {
    SumLinear(a, f, 0.0, f, h, n);
  }

  lemma {:induction false} SumMul(c: real, f: int -> real, n: nat)
    ensures Sum(j => Mul(c, f(j)), n) == Mul(c, Sum(f, n))
  {
    SumScale(c, f, j => Mul(c, f(j)), n);
  }

  lemma SumAdd(f: int -> real, g: int -> real, h: int -> real, n: nat)
    requires forall i | 0 <= i < n :: h(i) == f(i) + g(i)
    ensures Sum(h, n) == Sum(f, n) + Sum(g, n)
  {
    SumLinear(1.0, f, 1.0, g, h, n);
  }

  /** Scaling every term: Sum(f) * g == Sum(f * g). */
  lemma {:induction false} SumTimes(f: int -> real, g: real, h: int -> real, n: nat)
    requires forall i | 0 <= i < n :: h(i) == f(i) * g
    ensures Sum(h, n) == Sum(f, n) * g
  {
    if n > 0 {
      SumTimes(f, g, h, n - 1);
      assert (Sum(f, n - 1) + f(n - 1)) * g == Sum(f, n - 1) * g + f(n - 1) * g;
    }
  }

  /** f'(A g) == (f'A) g: a bilinear form may be summed by rows or by columns. */
  lemma {:induction false} Bilinear(f: int -> real, A: (int, int) -> real, g: int -> real, m: nat, n: nat)
    ensures Sum(i => f(i) * Sum(k => A(i, k) * g(k), n), m) == Sum(k => Sum(i => f(i) * A(i, k), m) * g(k), n)
  {
    var F := (i, k) => f(i) * A(i, k) * g(k);
    ByRows(f, A, g, F, m, n);
    SumSwap(F, m, n);
    ByColumns(f, A, g, F, m, n);
  }

  lemma {:induction false} ByRows(f: int -> real, A: (int, int) -> real, g: int -> real, F: (int, int) -> real, m: nat, n: nat)
    requires forall i, k :: F(i, k) == f(i) * A(i, k) * g(k)
    ensures Sum(i => f(i) * Sum(k => A(i, k) * g(k), n), m) == Sum(i => Sum(k => F(i, k), n), m)
  {
    forall i | 0 <= i < m ensures f(i) * Sum(k => A(i, k) * g(k), n) == Sum(k => F(i, k), n) {
      forall k ensures F(i, k) == f(i) * (A(i, k) * g(k)) {
        assert F(i, k) == f(i) * A(i, k) * g(k);
      }
      SumScale(f(i), k => A(i, k) * g(k), k => F(i, k), n);
    }
    SumEq(i => f(i) * Sum(k => A(i, k) * g(k), n), i => Sum(k => F(i, k), n), m);
  }

  lemma {:induction false} ByColumns(f: int -> real, A: (int, int) -> real, g: int -> real, F: (int, int) -> real, m: nat, n: nat)
    requires forall i, k :: F(i, k) == f(i) * A(i, k) * g(k)
    ensures Sum(k => Sum(i => f(i) * A(i, k), m) * g(k), n) == Sum(k => Sum(i => F(i, k), m), n)
  {
    forall k | 0 <= k < n ensures Sum(i => f(i) * A(i, k), m) * g(k) == Sum(i => F(i, k), m) {
      SumTimes(i => f(i) * A(i, k), g(k), i => F(i, k), m);
    }
    SumEq(k => Sum(i => f(i) * A(i, k), m) * g(k), k => Sum(i => F(i, k), m), n);
  }

  /** Two sums that differ in two terms only, whose totals agree. */
  lemma {:induction false} SumPair(f: int -> real, g: int -> real, p: int, q: int, n: nat)
    requires 0 <= p < q < n && f(p) + f(q) == g(p) + g(q)
    requires forall i | 0 <= i < n && i != p && i != q :: f(i) == g(i)
    ensures Sum(f, n) == Sum(g, n)
  {
    if q < n - 1 {
      SumPair(f, g, p, q, n - 1);
    } else {
      SumOne(f, g, p, q);
    }
  }

  lemma {:induction false} SumOne(f: int -> real, g: int -> real, p: int, n: nat)
    requires 0 <= p < n && forall i | 0 <= i < n && i != p :: f(i) == g(i)
    ensures Sum(f, n) - f(p) == Sum(g, n) - g(p)
  {
    if p < n - 1 { SumOne(f, g, p, n - 1); } else { SumEq(f, g, n - 1); }
  }

  /** Terms that vanish from l on add nothing. */
  lemma {:induction false} SumTail(f: int -> real, l: nat, n: nat)
    requires l <= n && forall k | l <= k < n :: f(k) == 0.0
    ensures Sum(f, n) == Sum(f, l)
    decreases n - l
  {
    if l < n { SumTail(f, l, n - 1); }
  }
}

/** The three-term recurrence on the operator R C, in the inner product weighted by C. */
module Lanczos {
  import opened Sums
  import opened RcTree

  /** The C-weighted inner product. */
  ghost function Ip(c: seq<real>, u: seq<real>, v: seq<real>): real {
    Sum(j => (At(c, j) * At(u, j)) * At(v, j), |c|)
  }

  /** The first n terms of the inner product. */
  ghost function IpTo(c: seq<real>, u: seq<real>, v: seq<real>, n: nat): real {
    Sum(j => (At(c, j) * At(u, j)) * At(v, j), n)
  }

  /** The operator R C on vectors. */
  ghost function RC(par: seq<int>, r: seq<real>, c: seq<real>, u: seq<real>): (y: seq<real>)
    requires |c| == |u| == |par|
    ensures |y| == |par| && forall j | 0 <= j < |par| :: y[j] == RTimes(par, r, Charges(c, u), j)
  {
    seq(|par|, j => RTimes(par, r, Charges(c, u), j))
  }

  lemma {:induction false} IpSymmetric(c: seq<real>, u: seq<real>, v: seq<real>)
    ensures Ip(c, u, v) == Ip(c, v, u)
  {
    SumEq(j => (At(c, j) * At(u, j)) * At(v, j), j => (At(c, j) * At(v, j)) * At(u, j), |c|);
  }

  /** y == a x + b z, entry by entry. */
  ghost predicate Combines(y: seq<real>, a: real, x: seq<real>, b: real, z: seq<real>) {
    |y| == |x| == |z| && forall j | 0 <= j < |y| :: y[j] == a * x[j] + b * z[j]
  }

  /** y == a x + b z + e v, entry by entry. */
  ghost predicate Combines3(y: seq<real>, a: real, x: seq<real>, b: real, z: seq<real>, e: real, v: seq<real>) {
    |y| == |x| == |z| == |v| && forall j | 0 <= j < |y| :: y[j] == a * x[j] + (b * z[j] + e * v[j])
  }

  lemma {:induction false} IpLinear(c: seq<real>, w: seq<real>, y: seq<real>, a: real, x: seq<real>, b: real, z: seq<real>)
    requires |y| == |c| && Combines(y, a, x, b, z)
    ensures Ip(c, w, y) == a * Ip(c, w, x) + b * Ip(c, w, z)
  {
    var f, g, h := j => (At(c, j) * At(w, j)) * At(x, j), j => (At(c, j) * At(w, j)) * At(z, j), j => (At(c, j) * At(w, j)) * At(y, j);
    forall j | 0 <= j < |c| ensures Spreads(h(j), a, f(j), b, g(j)) { Spread(At(c, j) * At(w, j), At(y, j), a, At(x, j), b, At(z, j)); }
    hide At;
    SumSpread(a, f, b, g, h, |c|);
    SumEq(f, j => (At(c, j) * At(w, j)) * At(x, j), |c|);
    SumEq(g, j => (At(c, j) * At(w, j)) * At(z, j), |c|);
    SumEq(h, j => (At(c, j) * At(w, j)) * At(y, j), |c|);
  }

  ghost predicate Spreads(y: real, a: real, x: real, b: real, z: real) { y == a * x + b * z }

  lemma {:induction false} SumSpread(a: real, f: int -> real, b: real, g: int -> real, h: int -> real, n: nat)
    requires forall i | 0 <= i < n :: Spreads(h(i), a, f(i), b, g(i))
    ensures Spreads(Sum(h, n), a, Sum(f, n), b, Sum(g, n))
  {
    SumLinear(a, f, b, g, h, n);
  }

  lemma Spread(k: real, y: real, a: real, x: real, b: real, z: real)
    requires Spreads(y, a, x, b, z)
    ensures Spreads(k * y, a, k * x, b, k * z)
  {
    assert k * (a * x) == a * (k * x);
    assert k * (b * z) == b * (k * z);
  }

  lemma {:induction false} IpLinear3(c: seq<real>, w: seq<real>, y: seq<real>, a: real, x: seq<real>, b: real, z: seq<real>, e: real, v: seq<real>)
    requires |y| == |c| && Combines3(y, a, x, b, z, e, v)
    ensures Ip(c, w, y) == a * Ip(c, w, x) + (b * Ip(c, w, z) + e * Ip(c, w, v))
  {
    var rest := seq(|c|, j requires 0 <= j < |c| => b * z[j] + e * v[j]);
    IpLinear(c, w, rest, b, z, e, v);
    IpLinear(c, w, y, a, x, 1.0, rest);
  }

  /** R C is self-adjoint in the C-weighted inner product. */
  lemma {:induction false} SelfAdjoint(par: seq<int>, r: seq<real>, c: seq<real>, u: seq<real>, v: seq<real>)
    requires |c| == |u| == |v| == |par|
    ensures Ip(c, u, RC(par, r, c, v)) == Ip(c, v, RC(par, r, c, u))
  {
    Reciprocal(par, r, Charges(c, u), Charges(c, v));
    AsForm(par, r, c, u, v);
    AsForm(par, r, c, v, u);
  }

  lemma {:induction false} AsForm(par: seq<int>, r: seq<real>, c: seq<real>, u: seq<real>, v: seq<real>)
    requires |c| == |u| == |v| == |par|
    ensures Ip(c, u, RC(par, r, c, v)) == Sum(j => At(Charges(c, u), j) * RTimes(par, r, Charges(c, v), j), |par|)
  {
    SumEq(j => (At(c, j) * At(u, j)) * At(RC(par, r, c, v), j),
          j => At(Charges(c, u), j) * RTimes(par, r, Charges(c, v), j), |par|);
  }

  /** The Rayleigh quotient is the dissipation: sum of r[i] times the squared charge below i. */
  lemma {:induction false} Dissipation(par: seq<int>, r: seq<real>, c: seq<real>, u: seq<real>)
    requires |c| == |u| == |par|
    ensures Ip(c, u, RC(par, r, c, u)) == Sum(i => EdgeEnergy(par, r, Charges(c, u), Charges(c, u), i), |par|)
    ensures (forall i | 0 <= i < |r| :: r[i] >= 0.0) ==> Ip(c, u, RC(par, r, c, u)) >= 0.0
  {
    var q := Charges(c, u);
    AsForm(par, r, c, u, u);
    Energy(par, r, q, q);
    if forall i | 0 <= i < |r| :: r[i] >= 0.0 {
      forall i | 0 <= i < |par| ensures EdgeEnergy(par, r, q, q, i) >= 0.0 {
        Square(At(r, i), Below(par, q, i));
      }
      SumNonNegative(i => EdgeEnergy(par, r, q, q, i), |par|);
    }
  }

  lemma Square(r: real, b: real)
    requires r >= 0.0
    ensures r * (b * b) >= 0.0
  {
    assert b * b >= 0.0;
  }

  // ---- the recurrence ------------------------------------------------------------------------

  /** An RC tree in driver order: parents, resistances to the parent, capacitances. */
  datatype Tree = Tree(par: seq<int>, r: seq<real>, c: seq<real>) {
    ghost predicate Valid() { IsTree(par) && |r| == |c| == |par| && r[0] == 0.0 }
    ghost function Apply(u: seq<real>): (y: seq<real>)
      requires |r| == |c| == |par| == |u|
    {
      RC(par, r, c, u)
    }
  }

  /** The reduction so far: basis vectors, diagonal and off-diagonal entries. */
  datatype Basis = Basis(us: seq<seq<real>>, d: seq<real>, e: seq<real>)

  ghost predicate Vectors(n: nat, us: seq<seq<real>>) {
    forall i | 0 <= i < |us| :: |us[i]| == n
  }

  ghost predicate Orthonormal(c: seq<real>, us: seq<seq<real>>) {
    forall i, j | 0 <= i < |us| && 0 <= j < |us| :: Ip(c, us[i], us[j]) == if i == j then 1.0 else 0.0
  }

  /** Entry (i, j) of the tridiagonal matrix with diagonal d and off-diagonal e. */
  ghost function Tri(d: seq<real>, e: seq<real>, i: int, j: int): real {
    if i == j then At(d, i) else if j == i + 1 then At(e, i) else if i == j + 1 then At(e, j) else 0.0
  }

  /** u_{i-1}, with e_{i-1} == 0 when there is none. */
  ghost function Prev(b: Basis, i: int): seq<real> requires 0 <= i < |b.us| { if i == 0 then b.us[0] else b.us[i - 1] }
  ghost function PrevE(b: Basis, i: int): real { At(b.e, i - 1) }

  /** R C u_i == e_i u_{i+1} + d_i u_i + e_{i-1} u_{i-1}. */
  ghost predicate ThreeTerm(t: Tree, b: Basis, i: int)
    requires t.Valid() && Vectors(|t.par|, b.us) && 0 <= i < |b.us| - 1
    requires |b.e| > i && |b.d| > i
  {
    Combines3(t.Apply(b.us[i]), b.e[i], b.us[i + 1], b.d[i], b.us[i], PrevE(b, i), Prev(b, i))
  }

  /** What holds between steps: m basis vectors, m - 1 of them expanded. */
  ghost predicate Expanded(t: Tree, b: Basis) {
    && t.Valid() && Vectors(|t.par|, b.us) && Orthonormal(t.c, b.us)
    && |b.us| >= 1 && |b.us| - 1 <= |b.d| <= |b.us| && |b.e| == |b.us| - 1
    && (forall i | 0 <= i < |b.d| :: b.d[i] == Ip(t.c, b.us[i], t.Apply(b.us[i])))
    && (forall i | 0 <= i < |b.e| :: ThreeTerm(t, b, i))
  }

  /** An expanded column is tridiagonal. */
  lemma {:induction false} Column(t: Tree, b: Basis, k: int, i: int)
    requires Expanded(t, b) && 0 <= k < |b.us| && 0 <= i < |b.e|
    ensures Ip(t.c, b.us[k], t.Apply(b.us[i])) == Tri(b.d, b.e, k, i)
  {
    assert ThreeTerm(t, b, i);
    IpLinear3(t.c, b.us[k], t.Apply(b.us[i]), b.e[i], b.us[i + 1], b.d[i], b.us[i], PrevE(b, i), Prev(b, i));
  }

  /** The reduced matrix: the operator in the basis is tridiagonal with entries d and e. */
  lemma {:induction false} Tridiagonal(t: Tree, b: Basis, k: int, i: int)
    requires Expanded(t, b) && 0 <= k < |b.us| && 0 <= i < |b.us| && (k == i ==> i < |b.d|)
    ensures Ip(t.c, b.us[k], t.Apply(b.us[i])) == Tri(b.d, b.e, k, i)
  {
    if i < |b.e| {
      Column(t, b, k, i);
    } else if k < |b.e| {
      SelfAdjoint(t.par, t.r, t.c, b.us[k], b.us[i]);
      Column(t, b, i, k);
    }
  }

  /** y == R C u_h - (d_h u_h + e_{h-1} u_{h-1}) for the newest vector u_h. */
  ghost predicate Residual(t: Tree, b: Basis, y: seq<real>)
    requires Expanded(t, b) && |b.d| == |b.us|
  {
    var h := |b.us| - 1;
    Combines3(t.Apply(b.us[h]), 1.0, y, b.d[h], b.us[h], PrevE(b, h), Prev(b, h))
  }

  /** Seen from w in the C-weighted product, v is d x + e z. */
  ghost predicate Sees(c: seq<real>, w: seq<real>, v: seq<real>, d: real, x: seq<real>, e: real, z: seq<real>) {
    Ip(c, w, v) == d * Ip(c, w, x) + e * Ip(c, w, z)
  }

  /** The terms subtracted from R C u_h are all that u_k sees of it. */
  lemma {:induction false} Subtracted(t: Tree, b: Basis, h: int, k: int)
    requires Expanded(t, b) && |b.d| == |b.us| == h + 1 && 0 <= k <= h
    ensures Sees(t.c, b.us[k], t.Apply(b.us[h]), b.d[h], b.us[h], PrevE(b, h), Prev(b, h))
  {
    Tridiagonal(t, b, k, h);
    SeesTwo(b.d[h], PrevE(b, h), if k == h then 1.0 else 0.0, Ip(t.c, b.us[k], Prev(b, h)), if k == h then b.d[h] else if k == h - 1 then b.e[k] else 0.0);
  }

  /** Of two products with zero and one, what is left. */
  lemma SeesTwo(d: real, e: real, x: real, z: real, y: real)
    requires (x == 0.0 && z == 0.0 && y == 0.0) || (x == 1.0 && (z == 0.0 || e == 0.0) && y == d) || (x == 0.0 && z == 1.0 && y == e)
    ensures y == d * x + e * z
  {}

  lemma {:induction false} RemainderOrthogonal(c: seq<real>, w: seq<real>, v: seq<real>, y: seq<real>, d: real, x: seq<real>, e: real, z: seq<real>)
    requires |v| == |c| && Combines3(v, 1.0, y, d, x, e, z) && Sees(c, w, v, d, x, e, z)
    ensures Ip(c, w, y) == 0.0
  {
    IpLinear3(c, w, v, 1.0, y, d, x, e, z);
  }

  /** The residual is orthogonal to every basis vector, not only to the two subtracted. */
  lemma {:induction false} ResidualOrthogonal(t: Tree, b: Basis, y: seq<real>, k: int)
    requires Expanded(t, b) && |b.d| == |b.us| && Residual(t, b, y) && 0 <= k < |b.us|
    ensures Ip(t.c, b.us[k], y) == 0.0
  {
    var h := |b.us| - 1;
    Subtracted(t, b, h, k);
    RemainderOrthogonal(t.c, b.us[k], t.Apply(b.us[h]), y, b.d[h], b.us[h], PrevE(b, h), Prev(b, h));
  }

  /** The relations between a length, its square, its inverse and the vector it scales. */
  ghost predicate Squares(e: real, x: real) { e * e == x }
  ghost predicate Inverse(s: real, e: real) { s * e == 1.0 }
  ghost predicate Scaled(u: seq<real>, s: real, y: seq<real>) { |u| == |y| && forall j | 0 <= j < |u| :: u[j] == s * y[j] }

  /** The normalised residual is orthogonal to the basis and has unit length. */
  lemma {:induction false} Normalised(c: seq<real>, y: seq<real>, e: real, s: real, u: seq<real>)
    requires |y| == |c| && Squares(e, Ip(c, y, y)) && Inverse(s, e) && Scaled(u, s, y)
    ensures Ip(c, u, u) == 1.0
    ensures forall w: seq<real> | Ip(c, w, y) == 0.0 :: Ip(c, w, u) == 0.0
  {
    IpLinear(c, y, u, s, y, 0.0, y);
    IpLinear(c, u, u, s, y, 0.0, y);
    IpSymmetric(c, u, y);
    UnitProduct(s, e, Ip(c, y, y));
    forall w: seq<real> | Ip(c, w, y) == 0.0 ensures Ip(c, w, u) == 0.0 {
      IpLinear(c, w, u, s, y, 0.0, y);
    }
  }

  lemma {:induction false} ExtendOrthonormal(t: Tree, b: Basis, y: seq<real>, e: real, s: real, u: seq<real>)
    requires Expanded(t, b) && |b.d| == |b.us| && Residual(t, b, y)
    requires Squares(e, Ip(t.c, y, y)) && Inverse(s, e) && Scaled(u, s, y)
    ensures Orthonormal(t.c, b.us + [u])
  {
    Normalised(t.c, y, e, s, u);
    forall k | 0 <= k < |b.us| ensures Ip(t.c, b.us[k], u) == 0.0 && Ip(t.c, u, b.us[k]) == 0.0 {
      ResidualOrthogonal(t, b, y, k);
      IpSymmetric(t.c, u, b.us[k]);
    }
  }

  lemma {:induction false} ExtendThreeTerm(t: Tree, b: Basis, y: seq<real>, e: real, s: real, u: seq<real>, i: int)
    requires Expanded(t, b) && |b.d| == |b.us| && Residual(t, b, y)
    requires Inverse(s, e) && Scaled(u, s, y) && 0 <= i < |b.us|
    ensures Vectors(|t.par|, b.us + [u]) && ThreeTerm(t, Basis(b.us + [u], b.d, b.e + [e]), i)
  {
    var b' := Basis(b.us + [u], b.d, b.e + [e]);
    assert Prev(b', i) == Prev(b, i) && PrevE(b', i) == PrevE(b, i);
    if i == |b.us| - 1 {
      Rescale(t.Apply(b.us[i]), y, b.d[i], b.us[i], PrevE(b, i), Prev(b, i), e, s, u);
    } else {
      assert ThreeTerm(t, b, i);
    }
  }

  /** One more step of the recurrence. */
  lemma {:induction false} Extend(t: Tree, b: Basis, y: seq<real>, e: real, s: real, u: seq<real>)
    requires Expanded(t, b) && |b.d| == |b.us| && Residual(t, b, y)
    requires Squares(e, Ip(t.c, y, y)) && Inverse(s, e) && Scaled(u, s, y)
    ensures Expanded(t, Basis(b.us + [u], b.d, b.e + [e]))
  {
    ExtendOrthonormal(t, b, y, e, s, u);
    forall i | 0 <= i < |b.us|
      ensures Vectors(|t.par|, b.us + [u]) && ThreeTerm(t, Basis(b.us + [u], b.d, b.e + [e]), i)
    {
      ExtendThreeTerm(t, b, y, e, s, u, i);
    }
  }

  lemma Rescale(v: seq<real>, y: seq<real>, d: real, x: seq<real>, f: real, z: seq<real>, e: real, s: real, u: seq<real>)
    requires Combines3(v, 1.0, y, d, x, f, z) && Inverse(s, e) && Scaled(u, s, y)
    ensures Combines3(v, e, u, d, x, f, z)
  {
    forall j | 0 <= j < |u| ensures e * u[j] == y[j] { Cancel(e, s, y[j]); }
  }

  lemma Cancel(e: real, s: real, y: real)
    requires s * e == 1.0
    ensures e * (s * y) == y
  {
    assert e * (s * y) == (s * e) * y;
  }

  // ---- the reducer ---------------------------------------------------------------------------

  const MAX_ORDER := 5
  const D_FLOOR := 0.0000000000001
  const E2_FLOOR := 0.000000000000000000000000000001

  /** h % 2 */
  predicate Odd(h: nat) { if h == 0 then false else !Odd(h - 1) }

  function Min(a: nat, b: nat): nat { if a < b then a else b }

  /** Neither threshold stopped the reduction here. */
  ghost predicate Continues(d: real, e: real) { d >= 0.0000000000001 && LongEnough(e) }
  ghost predicate LongEnough(e: real) { e > 0.0 && e * e >= 0.000000000000000000000000000001 }

  /** Why the reduction ended with as many vectors as it did. */
  ghost predicate Stopped(t: Tree, b: Basis)
    requires Expanded(t, b) && |b.d| == |b.us|
  {
    || |b.us| == Min(5, |t.par|)
    || b.d[|b.d| - 1] < 0.0000000000001
    || Negligible(t, b)
  }

  /** The residual of the newest vector is too short to normalise. */
  ghost predicate Negligible(t: Tree, b: Basis)
    requires Expanded(t, b) && |b.d| == |b.us|
  {
    exists y :: Residual(t, b, y) && Ip(t.c, y, y) < 0.000000000000000000000000000001
  }

  /** A finished reduction of tree t. */
  ghost predicate Reduced(t: Tree, b: Basis) {
    && Expanded(t, b) && |b.d| == |b.us| <= Min(5, |t.par|)
    && (forall i | 0 <= i < |b.e| :: Continues(b.d[i], b.e[i]))
    && Stopped(t, b)
  }

  /** The vector with n entries x. */
  ghost function Uniform(n: nat, x: real): (u: seq<real>)
    ensures |u| == n && forall j | 0 <= j < n :: u[j] == x
  {
    seq(n, _ => x)
  }

  /** The total capacitance, summed in order. */
  method Total(c: seq<real>) returns (sum: real)
    ensures sum == Sum(j => At(c, j), |c|)
  {
    sum := 0.0;
    var j := 0;
    while j < |c|
      invariant 0 <= j <= |c| && sum == Sum(j => At(c, j), j)
    {
      sum := sum + c[j];
      j := j + 1;
    }
  }

  /** u'C y, skipping the root where y is zero. */
  method Quotient(c: seq<real>, u: array<real>, y: array<real>) returns (sum: real)
    requires |c| == u.Length == y.Length > 0 && y[0] == 0.0
    ensures sum == Ip(c, u[..], y[..])
  {
    sum := 0.0;
    assert IpTo(c, u[..], y[..], 1) == IpTo(c, u[..], y[..], 0) + (c[0] * u[0]) * y[0];
    var j := 1;
    while j < |c|
      invariant 1 <= j <= |c|
      invariant sum == IpTo(c, u[..], y[..], j)
    {
      assert IpTo(c, u[..], y[..], j + 1) == IpTo(c, u[..], y[..], j) + (c[j] * u[j]) * y[j];
      sum := sum + u[j] * c[j] * y[j];
      j := j + 1;
    }
  }

  /** y'C y. */
  method NormSquared(c: seq<real>, y: array<real>) returns (sum: real)
    requires |c| == y.Length
    ensures sum == Ip(c, y[..], y[..])
  {
    sum := 0.0;
    var j := 0;
    while j < |c|
      invariant 0 <= j <= |c|
      invariant sum == IpTo(c, y[..], y[..], j)
    {
      assert IpTo(c, y[..], y[..], j + 1) == IpTo(c, y[..], y[..], j) + (c[j] * y[j]) * y[j];
      sum := sum + c[j] * y[j] * y[j];
      j := j + 1;
    }
  }

  /** y -= d u + e v. */
  method Subtract(y: array<real>, d: real, u: array<real>, e: real, v: array<real>)
    requires y.Length == u.Length == v.Length && y != u && y != v
    modifies y
    ensures Combines3(old(y[..]), 1.0, y[..], d, u[..], e, v[..])
  {
    var j := 0;
    while j < y.Length
      invariant 0 <= j <= y.Length
      invariant forall i | 0 <= i < j :: old(y[i]) == 1.0 * y[i] + (d * u[i] + e * v[i])
      invariant forall i | j <= i < y.Length :: y[i] == old(y[i])
    {
      y[j] := y[j] - (d * u[j] + e * v[j]);
      j := j + 1;
    }
  }

  /** u = s y. */
  method Scale(u: array<real>, s: real, y: array<real>)
    requires u.Length == y.Length && u != y
    modifies u
    ensures Scaled(u[..], s, y[..])
  {
    var j := 0;
    while j < u.Length
      invariant 0 <= j <= u.Length
      invariant forall i | 0 <= i < j :: u[i] == s * y[i]
    {
      u[j] := s * y[j];
      j := j + 1;
    }
  }

  /** The entries of u at the terminals. */
  method Sample(u: array<real>, outV: seq<nat>) returns (row: seq<real>)
    requires forall i | 0 <= i < |outV| :: outV[i] < u.Length
    ensures |row| == |outV| && forall i | 0 <= i < |outV| :: row[i] == u[outV[i]]
  {
    row := [];
    var i := 0;
    while i < |outV|
      invariant 0 <= i <= |outV| && |row| == i
      invariant forall k | 0 <= k < i :: row[k] == u[outV[k]]
    {
      row := row + [u[outV[i]]];
      i := i + 1;
    }
  }

  /** The first vector: constant, of unit length. */
  lemma {:induction false} StartVector(t: Tree, sqc: real, s: real, u: seq<real>)
    requires t.Valid() && Inverse(s, sqc) && Squares(sqc, Sum(j => At(t.c, j), |t.c|))
    requires u == Uniform(|t.par|, s)
    ensures Expanded(t, Basis([u], [], []))
  {
    forall j | 0 <= j < |t.c| ensures (At(t.c, j) * At(u, j)) * At(u, j) == (s * s) * At(t.c, j) { Commutes(At(t.c, j), s); }
    SumScale(s * s, j => At(t.c, j), j => (At(t.c, j) * At(u, j)) * At(u, j), |t.c|);
    UnitProduct(s, sqc, Sum(j => At(t.c, j), |t.c|));
  }

  lemma Commutes(c: real, s: real)
    ensures (c * s) * s == (s * s) * c
  {}

  lemma UnitProduct(s: real, e: real, x: real)
    requires Inverse(s, e) && Squares(e, x)
    ensures (s * s) * x == 1.0 && s * (s * x) == 1.0
  {
    assert (s * s) * (e * e) == (s * e) * (s * e);
  }

  /** Recording d_h for the newest vector keeps the reduction expanded. */
  lemma {:induction false} Diagonal(t: Tree, b: Basis, d: real)
    requires Expanded(t, b) && |b.d| == |b.us| - 1
    requires d == Ip(t.c, b.us[|b.d|], t.Apply(b.us[|b.d|]))
    ensures Expanded(t, Basis(b.us, b.d + [d], b.e))
  {
    var b' := Basis(b.us, b.d + [d], b.e);
    forall i | 0 <= i < |b.e| ensures ThreeTerm(t, b', i) {
      assert ThreeTerm(t, b, i);
      assert Prev(b', i) == Prev(b, i) && PrevE(b', i) == PrevE(b, i);
    }
  }

  lemma RootPositive(sqrt: real -> real, x: real)
    requires IsSqrt(sqrt) && x > 0.0
    ensures sqrt(x) > 0.0 && Squares(sqrt(x), x) && Inverse(1.0 / sqrt(x), sqrt(x))
    ensures x >= E2_FLOOR ==> LongEnough(sqrt(x))
  {
    assert sqrt(x) != 0.0;
  }

  /** Fills u with x. */
  method Fill(u: array<real>, x: real)
    modifies u
    ensures u[..] == Uniform(u.Length, x)
  {
    var j := 0;
    while j < u.Length
      invariant 0 <= j <= u.Length && forall i | 0 <= i < j :: u[i] == x
    {
      u[j] := x;
      j := j + 1;
    }
  }

  /** Row h of U holds basis vector h at the terminals. */
  ghost predicate Sampled(U: seq<seq<real>>, us: seq<seq<real>>, outV: seq<nat>) {
    && |U| <= |us|
    && forall h | 0 <= h < |U| :: |U[h]| == |outV|
         && forall i | 0 <= i < |outV| :: outV[i] < |us[h]| && U[h][i] == us[h][outV[i]]
  }

  /** One pass of the loop up to d_h: y becomes R C u_h and d_h is its product with u_h. */
  method Project(t: Tree, u0: array<real>, iv: array<real>, y: array<real>) returns (sum: real)
    requires t.Valid() && |t.par| == u0.Length == iv.Length == y.Length
    requires iv != y && iv != u0 && y != u0
    modifies iv, y
    ensures y[..] == t.Apply(u0[..])
    ensures sum == Ip(t.c, u0[..], t.Apply(u0[..]))
  {
    ApplyRC(t.par, t.r, t.c, u0, iv, y);
    assert y[..] == t.Apply(u0[..]);
    RootRow(t, u0[..]);
    sum := Quotient(t.c, u0, y);
  }

  /** The driver sees no resistance. */
  lemma {:induction false} RootRow(t: Tree, u: seq<real>)
    requires t.Valid() && |u| == |t.par|
    ensures t.Apply(u)[0] == 0.0
  {
    PathSumIsRTimes(t.par, t.r, Charges(t.c, u), 0);
    PathSumStep(t.par, Drops(t.par, t.r, Charges(t.c, u)), 0);
  }

  /** One pass of the loop after d_h: either the residual is negligible, or u1 becomes the next vector. */
  method Advance(t: Tree, ghost b: Basis, dh: real, ePrev: real, first: bool, u0: array<real>, u1: array<real>, y: array<real>, sqrt: real -> real)
    returns (small: bool, eh: real)
    requires Expanded(t, b) && |b.d| == |b.us| && IsSqrt(sqrt)
    requires |t.par| == u0.Length == u1.Length == y.Length && y != u0 && y != u1 && u0 != u1
    requires u0[..] == b.us[|b.us| - 1] && dh == b.d[|b.us| - 1]
    requires ePrev == PrevE(b, |b.us| - 1)
    requires if first then |b.us| == 1 else |b.us| > 1 && u1[..] == b.us[|b.us| - 2]
    requires y[..] == t.Apply(u0[..])
    modifies y, u1
    ensures small ==> Negligible(t, b)
    ensures !small ==> LongEnough(eh)
    ensures !small ==> Expanded(t, Basis(b.us + [u1[..]], b.d, b.e + [eh]))
  {
    eh := 0.0;
    if first {
      Subtract(y, dh, u0, 0.0, u0);
    } else {
      Subtract(y, dh, u0, ePrev, u1);
    }
    assert Residual(t, b, y[..]);
    small, eh := Normalise(t, b, u1, y, sqrt);
  }

  method Normalise(t: Tree, ghost b: Basis, u1: array<real>, y: array<real>, sqrt: real -> real)
    returns (small: bool, eh: real)
    requires Expanded(t, b) && |b.d| == |b.us| && IsSqrt(sqrt)
    requires |t.par| == u1.Length == y.Length && y != u1 && Residual(t, b, y[..])
    modifies u1
    ensures small ==> Negligible(t, b)
    ensures !small ==> LongEnough(eh)
    ensures !small ==> Expanded(t, Basis(b.us + [u1[..]], b.d, b.e + [eh]))
  {
    eh := 0.0;
    var sum := NormSquared(t.c, y);
    small := sum < E2_FLOOR;
    if !small {
      RootPositive(sqrt, sum);
      eh := sqrt(sum);
      Scale(u1, 1.0 / eh, y);
      Extend(t, b, y[..], eh, 1.0 / eh, u1[..]);
    }
  }

  /** One pass of the loop: sample u_h, find d_h, then either stop or leave u_{h+1} in u1. */
  method Step(t: Tree, ghost b: Basis, h: nat, order: nat, ePrev: real, outV: seq<nat>,
              u0: array<real>, u1: array<real>, iv: array<real>, y: array<real>, sqrt: real -> real)
    returns (row: seq<real>, dh: real, last: bool, eh: real)
    requires Expanded(t, b) && |b.us| == h + 1 && |b.d| == h < order == Min(MAX_ORDER, |t.par|) && IsSqrt(sqrt)
    requires |t.par| == u0.Length == u1.Length == iv.Length == y.Length
    requires u0 != u1 && u0 != iv && u0 != y && u1 != iv && u1 != y && iv != y
    requires u0[..] == b.us[h] && (h > 0 ==> u1[..] == b.us[h - 1]) && ePrev == PrevE(b, h)
    requires forall i | 0 <= i < |outV| :: outV[i] < |t.par|
    modifies u1, iv, y
    ensures Sampled([row], [b.us[h]], outV)
    ensures var b' := Basis(b.us, b.d + [dh], b.e);
            Expanded(t, b') && (last ==> Stopped(t, b'))
    ensures !last ==> h + 1 < order && Continues(dh, eh)
    ensures !last ==> Expanded(t, Basis(b.us + [u1[..]], b.d + [dh], b.e + [eh]))
  {
    row := Sample(u0, outV);
    dh := Project(t, u0, iv, y);
    Diagonal(t, b, dh);
    eh := 0.0;
    last := h == order - 1 || dh < D_FLOOR;
    if !last {
      last, eh := Advance(t, Basis(b.us, b.d + [dh], b.e), dh, ePrev, h == 0, u0, u1, y, sqrt);
    }
  }

  /** The Arnoldi reduction of an RC tree, sampled at the terminals outV. */
  method MakeRcmodelFromTs(t: Tree, outV: seq<nat>, sqrt: real -> real)
    returns (order: nat, d: seq<real>, e: seq<real>, U: seq<seq<real>>, ctot: real, sqc: real, ghost us: seq<seq<real>>)
    requires t.Valid() && IsSqrt(sqrt) && Sum(j => At(t.c, j), |t.c|) > 0.0
    requires forall i | 0 <= i < |outV| :: outV[i] < |t.par|
    ensures Reduced(t, Basis(us, d, e)) && order == |us| == |U|
    ensures ctot == Sum(j => At(t.c, j), |t.c|) && sqc > 0.0 && Squares(sqc, ctot)
    ensures us[0] == Uniform(|t.par|, 1.0 / sqc)
    ensures Sampled(U, us, outV)
  {
    var n := |t.par|;
    ctot := Total(t.c);
    RootPositive(sqrt, ctot);
    sqc := sqrt(ctot);
    order, d, e, U, us := Reduce(t, outV, sqc, 1.0 / sqc, sqrt);
  }

  /** The state at the head of the loop: h entries recorded, h + 1 vectors made. */
  ghost predicate Progress(t: Tree, b: Basis, U: seq<seq<real>>, outV: seq<nat>, h: nat) {
    && |b.us| == h + 1 && |b.d| == |b.e| == |U| == h
    && Expanded(t, b) && Sampled(U, b.us, outV)
    && forall i | 0 <= i < h :: Continues(b.d[i], b.e[i])
  }

  lemma {:induction false} HoldingStart(t: Tree, sqc: real, s: real, u: seq<real>, outV: seq<nat>, x1: seq<real>)
    requires t.Valid() && Inverse(s, sqc) && Squares(sqc, Sum(j => At(t.c, j), |t.c|)) && u == Uniform(|t.par|, s)
    ensures Holding(t, Basis([u], [], []), [], outV, 0, u, u, x1)
  {
    hide Expanded;
    StartVector(t, sqc, s, u);
  }

  lemma OddNext()
    ensures !Odd(0) && forall h: nat :: Odd(h + 1) <==> !Odd(h)
  {}

  lemma {:induction false} ProgressStep(t: Tree, b: Basis, U: seq<seq<real>>, outV: seq<nat>, h: nat, row: seq<real>, dh: real, eh: real, u: seq<real>)
    requires Progress(t, b, U, outV, h) && Sampled([row], [b.us[h]], outV) && Continues(dh, eh)
    requires Expanded(t, Basis(b.us + [u], b.d + [dh], b.e + [eh]))
    ensures Progress(t, Basis(b.us + [u], b.d + [dh], b.e + [eh]), U + [row], outV, h + 1)
  {
    assert [row][0] == row;
    forall k | 0 <= k < |U + [row]|
      ensures |(U + [row])[k]| == |outV|
      ensures forall i | 0 <= i < |outV| :: outV[i] < |(b.us + [u])[k]| && (U + [row])[k][i] == (b.us + [u])[k][outV[i]]
    {
      assert (U + [row])[k] == if k < h then U[k] else [row][0];
      assert (b.us + [u])[k] == if k < h then b.us[k] else [b.us[h]][0];
    }
  }

  lemma {:induction false} Finish(t: Tree, b: Basis, U: seq<seq<real>>, outV: seq<nat>, h: nat, row: seq<real>, dh: real)
    requires Progress(t, b, U, outV, h) && Sampled([row], [b.us[h]], outV) && h < Min(MAX_ORDER, |t.par|)
    requires Expanded(t, Basis(b.us, b.d + [dh], b.e)) && Stopped(t, Basis(b.us, b.d + [dh], b.e))
    ensures Reduced(t, Basis(b.us, b.d + [dh], b.e)) && Sampled(U + [row], b.us, outV)
  {
    forall k | 0 <= k < |U + [row]|
      ensures |(U + [row])[k]| == |outV|
      ensures forall i | 0 <= i < |outV| :: outV[i] < |b.us[k]| && (U + [row])[k][i] == b.us[k][outV[i]]
    {
      assert (U + [row])[k] == if k < h then U[k] else [row][0];
      assert b.us[k] == if k < h then b.us[k] else [b.us[h]][0];
    }
  }

  /** At the head of the loop: x0 is the newest vector and x1 the one before. */
  ghost predicate Holding(t: Tree, b: Basis, U: seq<seq<real>>, outV: seq<nat>, h: nat, start: seq<real>, x0: seq<real>, x1: seq<real>) {
    Progress(t, b, U, outV, h) && b.us[0] == start && x0 == b.us[h] && (h > 0 ==> x1 == b.us[h - 1])
  }

  lemma HoldingFacts(t: Tree, b: Basis, U: seq<seq<real>>, outV: seq<nat>, h: nat, start: seq<real>, x0: seq<real>, x1: seq<real>)
    requires Holding(t, b, U, outV, h, start, x0, x1)
    ensures Progress(t, b, U, outV, h) && Expanded(t, b) && |b.us| == h + 1 && |b.d| == |b.e| == |U| == h && b.us[0] == start
    ensures x0 == b.us[h] && (h > 0 ==> x1 == b.us[h - 1]) && PrevE(b, h) == if h == 0 then 0.0 else b.e[h - 1]
  {}

  lemma HoldingNext(t: Tree, b: Basis, U: seq<seq<real>>, outV: seq<nat>, h: nat, start: seq<real>, x0: seq<real>, x1: seq<real>,
                    x: seq<real>, row: seq<real>, dh: real, eh: real)
    requires Holding(t, b, U, outV, h, start, x0, x1) && Progress(t, Basis(b.us + [x], b.d + [dh], b.e + [eh]), U + [row], outV, h + 1)
    ensures Holding(t, Basis(b.us + [x], b.d + [dh], b.e + [eh]), U + [row], outV, h + 1, start, x, x0)
  {}

  /** One pass of the loop, and what it adds. */
  method Pass(t: Tree, ghost b: Basis, ghost U: seq<seq<real>>, h: nat, order: nat, ePrev: real, outV: seq<nat>, ghost start: seq<real>,
              u0: array<real>, u1: array<real>, iv: array<real>, y: array<real>, sqrt: real -> real)
    returns (row: seq<real>, dh: real, last: bool, eh: real)
    requires h < order == Min(MAX_ORDER, |t.par|) && IsSqrt(sqrt) && |t.par| == u0.Length == u1.Length == iv.Length == y.Length
    requires u0 != u1 && u0 != iv && u0 != y && u1 != iv && u1 != y && iv != y
    requires Holding(t, b, U, outV, h, start, u0[..], u1[..]) && |b.e| == h && ePrev == (if h == 0 then 0.0 else b.e[h - 1])
    requires forall i | 0 <= i < |outV| :: outV[i] < |t.par|
    modifies u1, iv, y
    ensures last ==> Reduced(t, Basis(b.us, b.d + [dh], b.e)) && Sampled(U + [row], b.us, outV) && |b.us| == |U| + 1 == h + 1 && b.us[0] == start
    ensures !last ==> h + 1 < order && Holding(t, Basis(b.us + [u1[..]], b.d + [dh], b.e + [eh]), U + [row], outV, h + 1, start, u1[..], u0[..])
  {
    hide IsSqrt, Sampled, Stopped, Reduced, Progress, Expanded, Continues, PrevE, Prev, Holding;
    ghost var x1 := u1[..];
    HoldingFacts(t, b, U, outV, h, start, u0[..], u1[..]);
    row, dh, last, eh := Step(t, b, h, order, ePrev, outV, u0, u1, iv, y, sqrt);
    if last {
      Finish(t, b, U, outV, h, row, dh);
    } else {
      ProgressStep(t, b, U, outV, h, row, dh, eh, u1[..]);
      HoldingNext(t, b, U, outV, h, start, u0[..], x1, u1[..], row, dh, eh);
    }
  }

  method Reduce(t: Tree, outV: seq<nat>, ghost sqc: real, s: real, sqrt: real -> real)
    returns (order: nat, d: seq<real>, e: seq<real>, U: seq<seq<real>>, ghost us: seq<seq<real>>)
    requires t.Valid() && IsSqrt(sqrt) && Inverse(s, sqc) && Squares(sqc, Sum(j => At(t.c, j), |t.c|))
    requires forall i | 0 <= i < |outV| :: outV[i] < |t.par|
    ensures Reduced(t, Basis(us, d, e)) && order == |us| == |U|
    ensures us[0] == Uniform(|t.par|, s)
    ensures Sampled(U, us, outV)
  {
    hide IsSqrt, Sampled, Reduced, Inverse, Squares, Holding, Odd;
    var n := |t.par|;
    order := MAX_ORDER;
    if n < order { order := n; }
    var buf0, buf1, y, iv := new real[n], new real[n], new real[n], new real[n];
    var u0, u1 := buf0, buf1;
    ghost var start := Uniform(n, s);
    Fill(u0, s);
    us, d, e, U := [start], [], [], [];
    HoldingStart(t, sqc, s, start, outV, u1[..]);
    OddNext();
    var h := 0;
    while h < order
      invariant 0 <= h < order == Min(MAX_ORDER, n) && |e| == h
      invariant if Odd(h) then u0 == buf1 && u1 == buf0 else u0 == buf0 && u1 == buf1
      invariant Holding(t, Basis(us, d, e), U, outV, h, start, u0[..], u1[..])
    {
      var row, dh, last, eh := Pass(t, Basis(us, d, e), U, h, order, if h == 0 then 0.0 else e[h - 1], outV, start, u0, u1, iv, y, sqrt);
      if last {
        U, d, order := U + [row], d + [dh], h + 1;
        break;
      }
      U, d := U + [row], d + [dh];
      e, us := e + [eh], us + [u1[..]];
      if Odd(h) { u0, u1 := buf0, buf1; } else { u0, u1 := buf1, buf0; }
      h := h + 1;
    }
  }
}

/** Which systems the decomposition solves exactly: a pivot is replaced just when the matrix is singular. */
module LuSingular {
  import opened Sums
  import opened Matrices
  import opened Permutations
  import opened DenseLu

  ghost predicate IsZero(x: seq<real>) { forall j | 0 <= j < |x| :: x[j] == 0.0 }

  /** Entry r of A x, and entry i of L y. */
  ghost function Entry(A: Mat, r: int, x: seq<real>): real { Times(j => E(A, r, j), x) }
  ghost function LowerEntry(m: Mat, i: int, y: seq<real>): real { Times(k => L(m, i, k), y) }

  /** A takes x to zero. */
  ghost predicate Annihilates(A: Mat, n: nat, x: seq<real>) { |x| == n && forall r | 0 <= r < n :: Entry(A, r, x) == 0.0 }

  ghost predicate Singular(A: Mat, n: nat) { exists x :: Annihilates(A, n, x) && !IsZero(x) }

  lemma {:induction false} TimesZero(f: int -> real, x: seq<real>)
    requires IsZero(x)
    ensures Times(f, x) == 0.0
  {
    forall j | 0 <= j < |x| ensures 0.0 == f(j) * At(x, j) { ZeroProduct(f(j)); }
    TimesIs(f, x, j => 0.0);
    SumUnit(j => 0.0, -1, |x|);
  }

  lemma {:induction false} RowFromIsTimes(m: Mat, i: nat, x: seq<real>)
    requires i < |x|
    ensures Times(j => U(m, i, j), x) == RowFrom(m, i, x, i, |x|)
  {
    RowFromIsU(m, i, x, i);
    SumUnit(j => U(m, i, j) * At(x, j), -1, i);
    TimesIs(j => U(m, i, j), x, j => U(m, i, j) * At(x, j));
  }

  lemma {:induction false} RowFromZero(m: Mat, i: nat, x: seq<real>, l: nat)
    requires l <= |x| && forall j | l <= j < |x| :: x[j] == 0.0
    ensures RowFrom(m, i, x, l, |x|) == 0.0
    decreases |x| - l
  {
    if l < |x| {
      RowFromZero(m, i, x, l + 1);
      ZeroProduct(E(m, i, l));
    }
  }

  // ---- a replaced pivot ----------------------------------------------------------------------

  /** One at c, zero after it, and rows l to c of U take it to zero. */
  ghost predicate NullFrom(m: Mat, n: nat, c: nat, l: nat, x: seq<real>) {
    && |x| == n && c < n && x[c] == 1.0 && (forall j | c < j < n :: x[j] == 0.0)
    && forall i | l <= i < c :: RowFrom(m, i, x, i, n) == 0.0
  }

  lemma SolveFor(u: real, s: real)
    requires u != 0.0
    ensures u * (-s / u) + s == 0.0
  {
    assert u * (-s / u) == -s;
  }

  lemma {:induction false} NullVector(m: Mat, n: nat, c: nat, l: nat) returns (x: seq<real>)
    requires Square(m, n) && l <= c < n && forall k | 0 <= k < c :: m[k][k] != 0.0
    ensures NullFrom(m, n, c, l, x)
    decreases c - l
  {
    if l == c {
      x := seq(n, j => if j == c then 1.0 else 0.0);
    } else {
      var z := NullVector(m, n, c, l + 1);
      var s := RowFrom(m, l, z, l + 1, n);
      x := z[l := -s / E(m, l, l)];
      SolveFor(E(m, l, l), s);
      forall i | l <= i < c ensures RowFrom(m, i, x, i, n) == 0.0 { RowFromSame(m, i, z, x, if i == l then l + 1 else i, n); }
    }
  }

  /** U with the rows from c on left out. */
  function UpTo(m: Mat, c: int, k: int, j: int): real { if k < c then U(m, k, j) else 0.0 }

  /** What the factors give in column j up to c, without the replaced pivot. */
  ghost function Trimmed(m: Mat, c: int, i: int, j: int): real { Sum(k => L(m, i, k) * UpTo(m, c, k, j), |m|) }

  /** Up to its first replaced pivot, A is L times the rows of U above that pivot. */
  lemma {:induction false} TrimmedIsA(m: Mat, A: Mat, n: nat, index: seq<nat>, tiny: seq<bool>, c: nat, i: nat, j: nat)
    requires Between(m, A, n, index, tiny) && |tiny| == n && c < n && i < n && j <= c
    requires tiny[c] && forall k | 0 <= k < c :: !tiny[k]
    ensures Perm(n, index)[i] < n && Trimmed(m, c, i, j) == E(A, Perm(n, index)[i], j)
  {
    Factors(m, A, n, index, tiny, i, j);
    var f, g := k => L(m, i, k) * UpTo(m, c, k, j), k => L(m, i, k) * U(m, k, j);
    forall k | 0 <= k < n && k != c ensures f(k) == g(k) { assert k > c ==> U(m, k, j) == 0.0; }
    PivotTerm(m, n, tiny, c, i, j);
    ZeroProduct(L(m, i, c));
    hide Between, L, U, E, Perm;
    SumOne(f, g, c, n);
    SumEq(f, k => L(m, i, k) * UpTo(m, c, k, j), n);
    SumEq(g, k => L(m, i, k) * U(m, k, j), n);
  }

  /** Row and column c meet in the pivot alone. */
  lemma {:induction false} PivotTerm(m: Mat, n: nat, tiny: seq<bool>, c: nat, i: nat, j: nat)
    requires ZeroBelow(m, n, tiny) && Square(m, n) && |tiny| == n && c < n && tiny[c] && i < n && j <= c && m[c][c] == TINY
    ensures L(m, i, c) * U(m, c, j) == if i == j == c then TINY else 0.0
  {
    ZeroProduct(L(m, i, c));
    ZeroProduct(U(m, c, j));
  }

  /** Rows of A through that column, applied to the null vector. */
  lemma {:induction false} RowVanishes(m: Mat, A: Mat, n: nat, index: seq<nat>, tiny: seq<bool>, c: nat, x: seq<real>, i: nat)
    requires Between(m, A, n, index, tiny) && |tiny| == n && NullFrom(m, n, c, 0, x) && i < n
    requires tiny[c] && forall k | 0 <= k < c :: !tiny[k]
    ensures Perm(n, index)[i] < n && Times(j => E(A, Perm(n, index)[i], j), x) == 0.0
  {
    PermOnto(n, index);
    var r := Perm(n, index)[i];
    forall j | 0 <= j < n ensures Trimmed(m, c, i, j) * At(x, j) == E(A, r, j) * At(x, j) {
      if j <= c { TrimmedIsA(m, A, n, index, tiny, c, i, j); } else { BothZero(Trimmed(m, c, i, j), E(A, r, j), At(x, j)); }
    }
    var P := j => Trimmed(m, c, i, j);
    hide Between, Trimmed, E, At, Perm;
    TimesIs(P, x, j => E(A, r, j) * At(x, j));
    TimesIs(j => E(A, r, j), x, j => E(A, r, j) * At(x, j));
    TrimmedVanishes(m, n, c, x, i);
  }

  lemma BothZero(a: real, b: real, x: real)
    requires x == 0.0
    ensures a * x == b * x
  {
    ZeroProduct(a);
    ZeroProduct(b);
  }

  lemma {:induction false} TrimmedVanishes(m: Mat, n: nat, c: nat, x: seq<real>, i: nat)
    requires Square(m, n) && NullFrom(m, n, c, 0, x) && i < n
    ensures Times(j => Trimmed(m, c, i, j), x) == 0.0
  {
    var f, A, g := k => L(m, i, k), (k, j) => UpTo(m, c, k, j), j => At(x, j);
    var zero := seq(n, j => 0.0);
    forall k | 0 <= k < n ensures At(zero, k) == Sum(j => A(k, j) * g(j), n) { TrimmedRow(m, n, c, x, k, j => A(k, j) * g(j)); }
    forall j | 0 <= j < n ensures Trimmed(m, c, i, j) == Sum(k => f(k) * A(k, j), n) {
      SumEq(k => L(m, i, k) * UpTo(m, c, k, j), k => f(k) * A(k, j), n);
    }
    hide L, UpTo, Trimmed, NullFrom;
    Associates(f, A, g, j => Trimmed(m, c, i, j), x, zero);
    TimesZero(f, zero);
  }

  lemma {:induction false} TrimmedRow(m: Mat, n: nat, c: nat, x: seq<real>, k: nat, h: int -> real)
    requires Square(m, n) && NullFrom(m, n, c, 0, x) && k < n && forall j | 0 <= j < n :: h(j) == UpTo(m, c, k, j) * At(x, j)
    ensures Sum(h, n) == 0.0
  {
    if k < c {
      RowFromIsTimes(m, k, x);
      TimesIs(j => U(m, k, j), x, h);
    } else {
      forall j | 0 <= j < n ensures h(j) == 0.0 { ZeroProduct(At(x, j)); }
      SumUnit(h, -1, n);
    }
  }

  /** A replaced pivot means that A is singular. */
  lemma {:induction false} ReplacedIsSingular(m: Mat, A: Mat, n: nat, index: seq<nat>, tiny: seq<bool>, d: nat)
    requires Between(m, A, n, index, tiny) && |tiny| == n && d < n && tiny[d]
    ensures Singular(A, n)
    decreases d
  {
    if c :| 0 <= c < d && tiny[c] {
      ReplacedIsSingular(m, A, n, index, tiny, c);
    } else {
      PermOnto(n, index);
      var x := NullVector(m, n, d, 0);
      forall r | 0 <= r < n ensures Entry(A, r, x) == 0.0 {
        assert Occurs(Perm(n, index), r);
        var i :| 0 <= i < n && Perm(n, index)[i] == r;
        RowVanishes(m, A, n, index, tiny, d, x, i);
      }
      assert Annihilates(A, n, x) && !IsZero(x);
    }
  }

  // ---- no replaced pivot ---------------------------------------------------------------------

  /** L y == 0 only for y == 0, by forward substitution. */
  lemma {:induction false} ForwardZero(m: Mat, y: seq<real>, l: nat)
    requires l <= |y| && forall i | 0 <= i < |y| :: LowerEntry(m, i, y) == 0.0
    ensures forall k | 0 <= k < l :: y[k] == 0.0
  {
    if l > 0 {
      var i := l - 1;
      ForwardZero(m, y, i);
      var h := k => L(m, i, k) * At(y, k);
      forall k | 0 <= k < i ensures h(k) == 0.0 { ZeroProduct(L(m, i, k)); }
      assert LowerEntry(m, i, y) == 0.0;
      TimesUnitRow(k => L(m, i, k), y, i, h);
      SumUnit(h, -1, i);
    }
  }

  lemma ZeroFactor(u: real, x: real)
    requires u != 0.0 && u * x == 0.0
    ensures x == 0.0
  {}

  /** U x == 0 only for x == 0, by backsubstitution. */
  lemma {:induction false} BackwardZero(m: Mat, x: seq<real>, l: nat)
    requires l <= |x| && Square(m, |x|) && forall i | 0 <= i < |x| :: m[i][i] != 0.0 && RowFrom(m, i, x, i, |x|) == 0.0
    ensures forall j | l <= j < |x| :: x[j] == 0.0
    decreases |x| - l
  {
    if l < |x| {
      BackwardZero(m, x, l + 1);
      RowFromZero(m, l, x, l + 1);
      ZeroFactor(m[l][l], x[l]);
    }
  }

  /** Without a replaced pivot A takes only the zero vector to zero. */
  lemma {:induction false} KeptIsRegular(m: Mat, A: Mat, n: nat, index: seq<nat>, tiny: seq<bool>, x: seq<real>)
    requires Between(m, A, n, index, tiny) && |tiny| == n && (forall c | 0 <= c < n :: !tiny[c]) && Annihilates(A, n, x)
    ensures IsZero(x)
  {
    PermOnto(n, index);
    var y := seq(n, k requires 0 <= k < n => Times(j => U(m, k, j), x));
    forall i | 0 <= i < n ensures LowerEntry(m, i, y) == 0.0 {
      var r := Perm(n, index)[i];
      forall j | 0 <= j < n ensures Product(m, i, j) == E(A, r, j) { Factors(m, A, n, index, tiny, i, j); }
      TimesEq(j => Product(m, i, j), j => E(A, r, j), x);
      assert Entry(A, r, x) == 0.0;
      Associate(m, n, x, y, i);
    }
    ForwardZero(m, y, n);
    forall i | 0 <= i < n ensures RowFrom(m, i, x, i, n) == 0.0 {
      RowFromIsTimes(m, i, x);
      assert y[i] == 0.0;
    }
    BackwardZero(m, x, 0);
  }

  /** Exactly when the decomposition replaces a pivot: A is singular. */
  lemma {:induction false} ReplacedIff(m: Mat, A: Mat, n: nat, index: seq<nat>, tiny: seq<bool>)
    requires Between(m, A, n, index, tiny) && |tiny| == n
    ensures (exists c | 0 <= c < n :: tiny[c]) <==> Singular(A, n)
  {
    if c :| 0 <= c < n && tiny[c] { ReplacedIsSingular(m, A, n, index, tiny, c); }
    if Singular(A, n) && forall c | 0 <= c < n :: !tiny[c] {
      var x :| Annihilates(A, n, x) && !IsZero(x);
      KeptIsRegular(m, A, n, index, tiny, x);
    }
  }

  /** So for a matrix that is not singular luDecomp and luSolve solve A x == b. */
  lemma {:induction false} RegularIsSolved(m: Mat, A: Mat, n: nat, index: seq<nat>, tiny: seq<bool>, x: seq<real>, b: seq<real>, r: nat)
    requires Between(m, A, n, index, tiny) && |tiny| == n && !Singular(A, n) && Solves(m, index, x, b) && |b| == n && r < n
    ensures Entry(A, r, x) == b[r]
  {
    ReplacedIff(m, A, n, index, tiny);
    SolvesOriginal(m, A, n, index, tiny, x, b, r);
  }
}

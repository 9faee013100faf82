/** The tridiagonal eigen-solver: implicit rotation sweeps that chase a bulge down the matrix, then a sort. */
module TridiagEv {
  import opened Sums
  import opened Matrices
  import opened Forms

  const TOL := 0.000000000000000001
  const TOL2 := 0.000000000000000000000000000000000001
  const MAX_ITER := 20

  /** The symmetric tridiagonal matrix with diagonal d and off-diagonal e. */
  ghost function Tri(d: seq<real>, e: seq<real>): Matrix {
    (i, j) => if i == j then At(d, i) else if j == i + 1 then At(e, i) else if i == j + 1 then At(e, j) else 0.0
  }

  ghost function Id(): Matrix { (i, j) => if i == j then 1.0 else 0.0 }

  // ---- the shape of the matrix during a sweep ------------------------------------------------

  /** Where a sweep stands: plane i is next, s and c are the last turn, p is owed to the diagonal, g is the entry above. */
  datatype Sweep = Sweep(i: int, s: real, c: real, p: real, g: real)

  /** Entry (a, b), a <= b, of the leading block: tridiagonal but for the bulge at (i - 2, i). */
  ghost function Entry(d: seq<real>, e: seq<real>, w: Sweep, a: int, b: int): real {
    if a == b then (if a == w.i - 1 then At(d, a) - w.p else At(d, a))
    else if b == a + 1 then (if b == w.i - 1 then w.g else if b == w.i then Mul(w.c, At(e, b)) else At(e, b))
    else if b == w.i && a == w.i - 2 then Mul(w.s, At(e, b))
    else 0.0
  }

  /** The leading block (indices to h) of v A v' is what Entry says. */
  ghost predicate Bulged(A: Matrix, v: Mat, d: seq<real>, e: seq<real>, h: int, w: Sweep) {
    forall a, b | 0 <= a <= b <= h :: Gram(A, v, a, b) == Entry(d, e, w, a, b)
  }

  /** x y == z */
  ghost predicate Times(x: real, y: real, z: real) { x * y == z }

  /** r is the length of (f, g) and (s, c) its direction. */
  ghost predicate Turned(f: real, g: real, r: real, s: real, c: real) {
    r != 0.0 && r * r == f * f + g * g && Times(s, r, f) && Times(c, r, g)
  }

  ghost predicate Unit(s: real, c: real) { s * s + c * c == 1.0 }

  lemma CancelRight(a: real, b: real, r: real)
    requires a * r == b * r && r != 0.0
    ensures a == b
  {
    assert a == (a * r) / r;
    assert b == (b * r) / r;
  }

  lemma UnitFactor(x: real, r: real)
    requires Times(x, r * r, r * r) && r != 0.0
    ensures x == 1.0
  {
    assert (x * r) * r == x * (r * r);
    CancelRight(x * r, r, r);
    CancelRight(x, 1.0, r);
  }

  lemma SquareTimes(s: real, r: real, f: real)
    requires Times(s, r, f)
    ensures Times(s * s, r * r, f * f)
  {
    assert (s * s) * (r * r) == (s * r) * (s * r);
  }

  lemma AddTimes(x: real, y: real, z: real, f: real, g: real)
    requires Times(x, z, f) && Times(y, z, g)
    ensures Times(x + y, z, f + g)
  {}

  lemma TurnUnit(f: real, g: real, r: real, s: real, c: real)
    requires Turned(f, g, r, s, c)
    ensures Unit(s, c)
  {
    hide Times;
    SquareTimes(s, r, f);
    SquareTimes(c, r, g);
    AddTimes(s * s, c * c, r * r, f * f, g * g);
    UnitFactor(s * s + c * c, r);
  }

  /** Turning (f, g) puts all of it in one entry. */
  lemma TurnFolds(f: real, g: real, r: real, s: real, c: real)
    requires Times(s, r, f) && Times(c, r, g) && Unit(s, c)
    ensures Linear(r, s, f, c, g) && Linear(0.0, c, f, -s, g)
  {
    assert s * f + c * g == (s * s + c * c) * r;
  }

  /** The block arithmetic of one turn: the new corner is what the code stores. */
  lemma CornerStored(pp': real, pq': real, qq': real, d1: real, b: real, d2: real, s: real, c: real, p: real, g: real)
    requires Corner(pp', pq', qq', d1, b, d2, s, c) && Unit(s, c) && Stored(d1, d2, b, s, c, p, g)
    ensures pp' == d1 + p && qq' == d2 - p && pq' == g
  {
    var r2 := (d2 - d1) * s + 2.0 * c * b;
    assert s * r2 == s * s * (d2 - d1) + 2.0 * (s * c * b);
    assert c * c * d1 == d1 - s * s * d1;
    assert c * c * d2 == d2 - s * s * d2;
    assert c * r2 == s * c * d2 - s * c * d1 + 2.0 * (c * c * b);
    assert c * c * b + s * s * b == b;
  }

  /** What the code computes in one step of a sweep. */
  ghost predicate Step(d: seq<real>, e: seq<real>, w: Sweep, d': seq<real>, e': seq<real>, w': Sweep, r: real) {
    && 1 <= w.i < |d| <= |e| && |d'| == |d| && |e'| == |e| && w'.i == w.i + 1
    && Turned(Mul(w.s, e[w.i]), w.g, r, w'.s, w'.c)
    && d' == d[w.i - 1 := d[w.i - 1] - w.p + w'.p] && e' == e[w.i - 1 := r]
    && Stored(d[w.i - 1] - w.p, d[w.i], Mul(w.c, e[w.i]), w'.s, w'.c, w'.p, w'.g)
  }

  ghost predicate Stored(d1: real, d2: real, b: real, s: real, c: real, p: real, g: real) {
    var r2 := (d2 - d1) * s + 2.0 * c * b;
    p == s * r2 && g == c * r2 - b
  }

  /** The turned columns against a third row. */
  lemma {:induction false} RotatedAbove(A: Matrix, v: Mat, v': Mat, n: nat, p: int, q: int, s: real, c: real, a: int)
    requires Symmetric(A) && Rotated(v, v', n, p, q, s, c) && 0 <= a < n && a != p && a != q
    ensures Linear(Gram(A, v', a, p), s, Gram(A, v, a, q), c, Gram(A, v, a, p))
    ensures Linear(Gram(A, v', a, q), c, Gram(A, v, a, q), -s, Gram(A, v, a, p))
  {
    GramSymmetric(A, v);
    GramSymmetric(A, v');
    hide Gram, Linear;
    RotatedSide(A, v, v', n, p, q, s, c, a);
  }

  /** The entries above the turned plane: the bulge is folded into the entry beside it. */
  lemma {:induction false} StepAbove(A: Matrix, v: Mat, v': Mat, n: nat, d: seq<real>, e: seq<real>, w: Sweep, d': seq<real>, e': seq<real>, w': Sweep, r: real, h: nat, a: int)
    requires Symmetric(A) && Step(d, e, w, d', e', w', r) && Bulged(A, v, d, e, h, w) && w.i <= h < n == |d|
    requires Rotated(v, v', n, w.i - 1, w.i, w'.s, w'.c) && 0 <= a < w.i - 1
    ensures Gram(A, v', a, w.i - 1) == Entry(d', e', w', a, w.i - 1)
    ensures Gram(A, v', a, w.i) == Entry(d', e', w', a, w.i)
  {
    hide Rotated, Gram, Stored, Times, Linear, Mul;
    var Q := w.i;
    TurnUnit(Mul(w.s, e[Q]), w.g, r, w'.s, w'.c);
    TurnFolds(Mul(w.s, e[Q]), w.g, r, w'.s, w'.c);
    RotatedAbove(A, v, v', n, Q - 1, Q, w'.s, w'.c, a);
    var f, g := if a == Q - 2 then Mul(w.s, e[Q]) else 0.0, if a == Q - 2 then w.g else 0.0;
    assert Gram(A, v, a, Q - 1) == g && Gram(A, v, a, Q) == f;
    hide Bulged, Turned, Unit;
    if a != Q - 2 {
      SideZero(Gram(A, v', a, Q - 1), w'.s, w'.c);
      SideZero(Gram(A, v', a, Q), w'.c, -w'.s);
    } else {
      LinearSame(Gram(A, v', a, Q - 1), r, w'.s, f, w'.c, g);
      LinearSame(Gram(A, v', a, Q), 0.0, w'.c, f, -w'.s, g);
    }
  }

  /** The entries beyond the turned plane: the next entry becomes the new bulge. */
  lemma {:induction false} StepBeyond(A: Matrix, v: Mat, v': Mat, n: nat, d: seq<real>, e: seq<real>, w: Sweep, d': seq<real>, e': seq<real>, w': Sweep, r: real, h: nat, b: int)
    requires Symmetric(A) && Step(d, e, w, d', e', w', r) && Bulged(A, v, d, e, h, w) && w.i < b <= h < n == |d|
    requires Rotated(v, v', n, w.i - 1, w.i, w'.s, w'.c)
    ensures Gram(A, v', w.i - 1, b) == Entry(d', e', w', w.i - 1, b)
    ensures Gram(A, v', w.i, b) == Entry(d', e', w', w.i, b)
  {
    hide Rotated, Gram, Stored, Times, Turned, Linear;
    var Q := w.i;
    RotatedSide(A, v, v', n, Q - 1, Q, w'.s, w'.c, b);
    var x := if b == Q + 1 then e[b] else 0.0;
    assert Gram(A, v, Q - 1, b) == 0.0 && Gram(A, v, Q, b) == x;
    hide Bulged;
    SideOne(Gram(A, v', Q - 1, b), w'.s, x, w'.c);
    SideOne(Gram(A, v', Q, b), w'.c, x, -w'.s);
  }

  lemma SideOne(y: real, a: real, x: real, b: real)
    requires Linear(y, a, x, b, 0.0)
    ensures y == Mul(a, x)
  {}

  /** The turned plane itself. */
  lemma {:induction false} StepCorner(A: Matrix, v: Mat, v': Mat, n: nat, d: seq<real>, e: seq<real>, w: Sweep, d': seq<real>, e': seq<real>, w': Sweep, r: real, h: nat)
    requires Symmetric(A) && Step(d, e, w, d', e', w', r) && Bulged(A, v, d, e, h, w) && w.i <= h < n == |d|
    requires Rotated(v, v', n, w.i - 1, w.i, w'.s, w'.c)
    ensures var P, Q := w.i - 1, w.i;
            Gram(A, v', P, P) == Entry(d', e', w', P, P) && Gram(A, v', P, Q) == Entry(d', e', w', P, Q)
            && Gram(A, v', Q, Q) == Entry(d', e', w', Q, Q)
  {
    hide Rotated, Gram, Times, Corner, Mul;
    var P, Q := w.i - 1, w.i;
    TurnUnit(Mul(w.s, e[Q]), w.g, r, w'.s, w'.c);
    RotatedCorner(A, v, v', n, P, Q, w'.s, w'.c);
    assert Gram(A, v, P, P) == d[P] - w.p && Gram(A, v, P, Q) == Mul(w.c, e[Q]) && Gram(A, v, Q, Q) == d[Q];
    hide Bulged, Turned, Unit, Stored;
    CornerStored(Gram(A, v', P, P), Gram(A, v', P, Q), Gram(A, v', Q, Q), d[P] - w.p, Mul(w.c, e[Q]), d[Q], w'.s, w'.c, w'.p, w'.g);
  }

  /** Entries that do not touch the turned plane. */
  lemma {:induction false} StepElsewhere(A: Matrix, v: Mat, v': Mat, n: nat, d: seq<real>, e: seq<real>, w: Sweep, d': seq<real>, e': seq<real>, w': Sweep, r: real, h: nat, a: int, b: int)
    requires Step(d, e, w, d', e', w', r) && Bulged(A, v, d, e, h, w) && w.i <= h < n == |d|
    requires Rotated(v, v', n, w.i - 1, w.i, w'.s, w'.c)
    requires 0 <= a <= b <= h && a != w.i - 1 && a != w.i && b != w.i - 1 && b != w.i
    ensures Gram(A, v', a, b) == Entry(d', e', w', a, b)
  {
    assert Gram(A, v', a, b) == Gram(A, v, a, b) == Entry(d, e, w, a, b);
  }

  /** One step of a sweep moves the bulge one place down. */
  lemma {:induction false} StepKeeps(A: Matrix, v: Mat, v': Mat, n: nat, d: seq<real>, e: seq<real>, w: Sweep, d': seq<real>, e': seq<real>, w': Sweep, r: real, h: nat)
    requires Symmetric(A) && Step(d, e, w, d', e', w', r) && Bulged(A, v, d, e, h, w) && w.i <= h < n == |d|
    requires Rotated(v, v', n, w.i - 1, w.i, w'.s, w'.c)
    ensures Bulged(A, v', d', e', h, w')
  {
    var P, Q := w.i - 1, w.i;
    assert P >= 0;
    hide Step, Rotated, Gram, Entry;
    StepCorner(A, v, v', n, d, e, w, d', e', w', r, h);
    forall a, b | 0 <= a <= b <= h ensures Gram(A, v', a, b) == Entry(d', e', w', a, b) {
      hide Bulged;
      if a < P && (b == P || b == Q) {
        StepAbove(A, v, v', n, d, e, w, d', e', w', r, h, a);
      } else if (a == P || a == Q) && b > Q {
        StepBeyond(A, v, v', n, d, e, w, d', e', w', r, h, b);
      } else if a < P || a > Q {
        StepElsewhere(A, v, v', n, d, e, w, d', e', w', r, h, a, b);
      }
    }
  }

  lemma SideZero(x: real, s: real, c: real)
    requires Linear(x, s, 0.0, c, 0.0)
    ensures x == 0.0
  {}

  lemma LinearSame(x: real, y: real, a: real, p: real, b: real, q: real)
    requires Linear(x, a, p, b, q) && Linear(y, a, p, b, q)
    ensures x == y
  {}

  // ---- what every turn keeps -----------------------------------------------------------------

  function Sq(x: real): real { x * x }

  function Delta(i: int, j: int): real { if i == j then 1.0 else 0.0 }

  /** The rows are orthonormal. */
  ghost predicate Ortho(v: Mat, n: nat) {
    Square(v, n) && forall i, j | 0 <= i < n && 0 <= j < n :: Gram(Id(), v, i, j) == Delta(i, j)
  }

  lemma IdSymmetric()
    ensures Symmetric(Id())
  {}

  lemma UnitCorner(pp': real, pq': real, qq': real, s: real, c: real)
    requires Corner(pp', pq', qq', 1.0, 0.0, 1.0, s, c) && Unit(s, c)
    ensures pp' == 1.0 && pq' == 0.0 && qq' == 1.0
  {}

  lemma {:induction false} OrthoKept(v: Mat, v': Mat, n: nat, p: int, q: int, s: real, c: real)
    requires Ortho(v, n) && Rotated(v, v', n, p, q, s, c) && Unit(s, c)
    ensures Ortho(v', n)
  {
    IdSymmetric();
    var A := Id();
    GramSymmetric(A, v');
    RotatedCorner(A, v, v', n, p, q, s, c);
    assert Gram(A, v, p, p) == 1.0 && Gram(A, v, p, q) == 0.0 && Gram(A, v, q, q) == 1.0;
    UnitCorner(Gram(A, v', p, p), Gram(A, v', p, q), Gram(A, v', q, q), s, c);
    hide Corner, Linear, Unit, Id;
    forall i, j | 0 <= i < n && 0 <= j < n ensures Gram(A, v', i, j) == Delta(i, j) {
      assert Gram(A, v, i, j) == Delta(i, j);
      if i != p && i != q && j != p && j != q {
        assert Gram(A, v', i, j) == Gram(A, v, i, j);
      } else if i != p && i != q {
        OrthoSide(v, v', n, p, q, s, c, i);
      } else if j != p && j != q {
        OrthoSide(v, v', n, p, q, s, c, j);
      }
    }
  }

  lemma {:induction false} OrthoSide(v: Mat, v': Mat, n: nat, p: int, q: int, s: real, c: real, j: int)
    requires Ortho(v, n) && Rotated(v, v', n, p, q, s, c) && 0 <= j < n && j != p && j != q
    ensures Gram(Id(), v', p, j) == 0.0 && Gram(Id(), v', q, j) == 0.0
  {
    assert Gram(Id(), v, p, j) == 0.0 && Gram(Id(), v, q, j) == 0.0;
    hide Ortho, Gram;
    RotatedSide(Id(), v, v', n, p, q, s, c, j);
    SideZero(Gram(Id(), v', p, j), s, c);
    SideZero(Gram(Id(), v', q, j), c, -s);
  }

  /** Entry (i, k), zero outside. */
  function Ent(v: Mat, i: int, k: int): real { if 0 <= i < |v| then At(v[i], k) else 0.0 }

  /** Column a against column b. */
  ghost function ColDot(v: Mat, a: int, b: int): real { Sum(i => Ent(v, i, a) * Ent(v, i, b), |v|) }

  /** The columns are orthonormal too. */
  ghost predicate OrthoColumns(v: Mat, n: nat) {
    Square(v, n) && forall a, b | 0 <= a < n && 0 <= b < n :: ColDot(v, a, b) == Delta(a, b)
  }

  /** A turn keeps x y' + y x' type products of the two rows. */
  lemma PairKept(xp: real, xq: real, yp: real, yq: real, xp': real, xq': real, yp': real, yq': real, s: real, c: real)
    requires Linear(xp', s, xq, c, xp) && Linear(xq', c, xq, -s, xp) && Linear(yp', s, yq, c, yp) && Linear(yq', c, yq, -s, yp)
    requires Unit(s, c)
    ensures xp' * yp' + xq' * yq' == xp * yp + xq * yq
  {
    assert xp' * yp' + xq' * yq' == (s * s + c * c) * (xq * yq) + (s * s + c * c) * (xp * yp);
  }

  lemma {:induction false} ColumnsKept(v: Mat, v': Mat, n: nat, p: int, q: int, s: real, c: real)
    requires OrthoColumns(v, n) && Rotated(v, v', n, p, q, s, c) && Unit(s, c)
    ensures OrthoColumns(v', n)
  {
    forall a, b | 0 <= a < n && 0 <= b < n ensures ColDot(v', a, b) == Delta(a, b) {
      assert ColDot(v, a, b) == Delta(a, b);
      var f, g := i => Ent(v, i, a) * Ent(v, i, b), i => Ent(v', i, a) * Ent(v', i, b);
      PairKept(v[p][a], v[q][a], v[p][b], v[q][b], v'[p][a], v'[q][a], v'[p][b], v'[q][b], s, c);
      SumPair(f, g, p, q, n);
      SumEq(f, i => Ent(v, i, a) * Ent(v, i, b), n);
      SumEq(g, i => Ent(v', i, a) * Ent(v', i, b), n);
    }
  }

  /** How far row j still is from decoupled from the rows before it. */
  ghost function Leak(A: Matrix, v: Mat, j: nat): real { Sum(k => Sq(Gram(A, v, k, j)), j) }

  /** Rows beyond h are finished: their diagonal entry is d and their leak is within tolerance. */
  ghost predicate Tail(A: Matrix, v: Mat, n: nat, d: seq<real>, h: int) {
    |d| == n && forall j | h < j < n && 0 <= j :: Gram(A, v, j, j) == d[j] && Leak(A, v, j) <= TOL2
  }

  lemma {:induction false} TailKept(A: Matrix, v: Mat, v': Mat, n: nat, d: seq<real>, d': seq<real>, p: int, q: int, s: real, c: real, h: int)
    requires Tail(A, v, n, d, h) && Rotated(v, v', n, p, q, s, c) && Unit(s, c) && q <= h && |d'| == n
    requires forall j | h < j < n :: d'[j] == d[j]
    ensures Tail(A, v', n, d', h)
  {
    forall j | h < j < n ensures Gram(A, v', j, j) == d'[j] && Leak(A, v', j) <= TOL2 {
      assert Gram(A, v', j, j) == Gram(A, v, j, j) && Leak(A, v, j) <= TOL2;
      LeakKept(A, v, v', n, p, q, s, c, j);
    }
  }

  lemma LengthKept(x: real, y: real, x': real, y': real, s: real, c: real)
    requires Linear(x', s, y, c, x) && Linear(y', c, y, -s, x) && Unit(s, c)
    ensures Sq(x') + Sq(y') == Sq(x) + Sq(y)
  {
    PairKept(x, y, x, y, x', y', x', y', s, c);
  }

  lemma {:induction false} LeakKept(A: Matrix, v: Mat, v': Mat, n: nat, p: int, q: int, s: real, c: real, j: nat)
    requires Rotated(v, v', n, p, q, s, c) && Unit(s, c) && q < j < n
    ensures Leak(A, v', j) == Leak(A, v, j)
  {
    RotatedSide(A, v, v', n, p, q, s, c, j);
    forall k | 0 <= k < j && k != p && k != q ensures Gram(A, v', k, j) == Gram(A, v, k, j) {}
    hide Rotated, Gram;
    LengthKept(Gram(A, v, p, j), Gram(A, v, q, j), Gram(A, v', p, j), Gram(A, v', q, j), s, c);
    hide Sq, Linear, Unit;
    var f, g := k => Sq(Gram(A, v, k, j)), k => Sq(Gram(A, v', k, j));
    SumPair(f, g, p, q, j);
    SumEq(f, k => Sq(Gram(A, v, k, j)), j);
    SumEq(g, k => Sq(Gram(A, v', k, j)), j);
  }

  // ---- levels --------------------------------------------------------------------------------

  /** The leading block is tridiagonal with entries d and e: no sweep is under way. */
  ghost predicate Block(A: Matrix, v: Mat, d: seq<real>, e: seq<real>, h: int) {
    Bulged(A, v, d, e, h, Sweep(0, 0.0, 0.0, 0.0, 0.0))
  }

  lemma {:induction false} SweepBegins(A: Matrix, v: Mat, d: seq<real>, e: seq<real>, h: int, g: real)
    requires Block(A, v, d, e, h)
    ensures Bulged(A, v, d, e, h, Sweep(1, 1.0, 1.0, 0.0, g))
  {
    forall a, b | 0 <= a <= b <= h
      ensures Gram(A, v, a, b) == Entry(d, e, Sweep(1, 1.0, 1.0, 0.0, g), a, b)
    {
      assert Gram(A, v, a, b) == Entry(d, e, Sweep(0, 0.0, 0.0, 0.0, 0.0), a, b);
    }
  }

  lemma {:induction false} SweepEnds(A: Matrix, v: Mat, d: seq<real>, e: seq<real>, h: int, w: Sweep)
    requires Bulged(A, v, d, e, h, w) && w.i == h + 1 && 1 <= h < |d| <= |e|
    ensures Block(A, v, d[h := d[h] - w.p], e[h := w.g][0 := 0.0], h)
  {
    var d', e' := d[h := d[h] - w.p], e[h := w.g][0 := 0.0];
    forall a, b | 0 <= a <= b <= h
      ensures Gram(A, v, a, b) == Entry(d', e', Sweep(0, 0.0, 0.0, 0.0, 0.0), a, b)
    {
      assert Gram(A, v, a, b) == Entry(d, e, w, a, b);
    }
  }

  lemma SmallSquare(x: real)
    requires Abs(x) <= TOL
    ensures Sq(x) <= TOL2
  {
    var y := Abs(x);
    assert x * x == y * y;
    assert y * y <= TOL * y;
    assert TOL * y <= TOL * TOL;
  }

  /** A converged level joins the tail. */
  lemma {:induction false} LevelEnds(A: Matrix, v: Mat, n: nat, d: seq<real>, e: seq<real>, h: nat)
    requires Block(A, v, d, e, h) && Tail(A, v, n, d, h) && 1 <= h < n == |d| <= |e| && Abs(e[h]) <= TOL
    ensures Block(A, v, d, e, h - 1) && Tail(A, v, n, d, h - 1)
  {
    var w := Sweep(0, 0.0, 0.0, 0.0, 0.0);
    assert Gram(A, v, h, h) == Entry(d, e, w, h, h);
    forall k | 0 <= k < h ensures Gram(A, v, k, h) == if k == h - 1 then e[h] else 0.0 {
      assert Gram(A, v, k, h) == Entry(d, e, w, k, h);
    }
    SumUnit(k => Sq(Gram(A, v, k, h)), h - 1, h);
    SmallSquare(e[h]);
    forall a, b | 0 <= a <= b <= h - 1 ensures Gram(A, v, a, b) == Entry(d, e, w, a, b) {}
  }

  // ---- one step on the arrays ----------------------------------------------------------------

  /** Turn rows i - 1 and i of v. */
  method TurnRows(v: array2<real>, n: nat, i: nat, s: real, c: real)
    requires v.Length0 == v.Length1 == n && 1 <= i < n
    modifies v
    ensures Rotated(old(Rows(v)), Rows(v), n, i - 1, i, s, c)
  {
    ghost var m := Rows(v);
    var k := 0;
    while k < n
      invariant 0 <= k <= n
      invariant forall j | 0 <= j < k :: Linear(v[i - 1, j], s, m[i][j], c, m[i - 1][j]) && Linear(v[i, j], c, m[i][j], -s, m[i - 1][j])
      invariant forall r, j | 0 <= r < n && 0 <= j < n && ((r != i - 1 && r != i) || j >= k) :: v[r, j] == m[r][j]
    {
      var f := v[i - 1, k];
      v[i - 1, k] := s * v[i, k] + c * f;
      v[i, k] := c * v[i, k] - s * f;
      k := k + 1;
    }
    forall r | 0 <= r < n && r != i - 1 && r != i ensures Rows(v)[r] == m[r] {}
  }

  lemma ProductPositive(x: real, y: real)
    requires x > 0.0 && y > 0.0
    ensures Mul(x, y) > 0.0
  {}

  lemma SquarePositive(x: real)
    ensures x > 0.0 ==> Sq(x) > 0.0
    ensures Sq(-x) == Sq(x)
  {
    if x > 0.0 { ProductPositive(x, x); }
  }

  /** Squares are positive but for that of zero. */
  lemma SquareSign(x: real)
    ensures Sq(x) >= 0.0 && (Sq(x) == 0.0 <==> x == 0.0)
  {
    assert Sq(0.0) == 0.0;
    SquarePositive(x);
    SquarePositive(-x);
    hide Sq;
  }
}

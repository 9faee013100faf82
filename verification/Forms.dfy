/** Symmetric bilinear forms on real vectors, and what a plane rotation does to them. */
module Forms {
  import opened Sums
  import opened Matrices

  type Matrix = (int, int) -> real

  ghost predicate Symmetric(A: Matrix) { forall i, j :: A(i, j) == A(j, i) }

  /** Entry k of A y. */
  ghost function Row(A: Matrix, n: nat, y: seq<real>, k: int): real { Sum(b => A(k, b) * At(y, b), n) }

  lemma {:induction false} RowProducts(A: Matrix, n: nat, x: seq<real>, k: int)
    ensures Row(A, n, x, k) == Sum(b => Mul(A(k, b), At(x, b)), n)
  {
    var f, g := b => A(k, b) * At(x, b), b => Mul(A(k, b), At(x, b));
    forall b ensures f(b) == g(b) { assert g(b) == Mul(A(k, b), At(x, b)); }
    SumEq(f, g, n);
    SumEq(f, b => A(k, b) * At(x, b), n);
    SumEq(g, b => Mul(A(k, b), At(x, b)), n);
  }

  /** x'A y */
  ghost function Form(A: Matrix, n: nat, x: seq<real>, y: seq<real>): real { Sum(k => At(x, k) * Row(A, n, y, k), n) }

  lemma {:induction false} FormProducts(A: Matrix, n: nat, x: seq<real>, y: seq<real>)
    ensures Form(A, n, x, y) == Sum(k => Mul(At(x, k), Row(A, n, y, k)), n)
  {
    hide Row, At;
    SumEq(k => At(x, k) * Row(A, n, y, k), k => Mul(At(x, k), Row(A, n, y, k)), n);
  }

  lemma {:induction false} FormByRows(A: Matrix, n: nat, x: seq<real>, y: seq<real>, f: int -> real, g: int -> real)
    requires forall k :: f(k) == At(x, k) && g(k) == At(y, k)
    ensures Form(A, n, x, y) == Sum(k => f(k) * Sum(b => A(k, b) * g(b), n), n)
  {
    forall k | 0 <= k < n ensures Row(A, n, y, k) == Sum(b => A(k, b) * g(b), n) {
      SumEq(b => A(k, b) * At(y, b), b => A(k, b) * g(b), n);
    }
    hide Row;
    SumEq(k => At(x, k) * Row(A, n, y, k), k => f(k) * Sum(b => A(k, b) * g(b), n), n);
  }

  lemma {:induction false} FormByColumns(A: Matrix, n: nat, x: seq<real>, y: seq<real>, f: int -> real, g: int -> real)
    requires Symmetric(A) && forall k :: f(k) == At(x, k) && g(k) == At(y, k)
    ensures Form(A, n, y, x) == Sum(k => Sum(i => f(i) * A(i, k), n) * g(k), n)
  {
    forall k | 0 <= k < n ensures Row(A, n, x, k) == Sum(i => f(i) * A(i, k), n) {
      SumEq(b => A(k, b) * At(x, b), i => f(i) * A(i, k), n);
    }
    hide Row;
    SumEq(k => At(y, k) * Row(A, n, x, k), k => Sum(i => f(i) * A(i, k), n) * g(k), n);
  }

  lemma {:induction false} FormSymmetric(A: Matrix, n: nat, x: seq<real>, y: seq<real>)
    requires Symmetric(A)
    ensures Form(A, n, x, y) == Form(A, n, y, x)
  {
    var f, g := k => At(x, k), k => At(y, k);
    FormByRows(A, n, x, y, f, g);
    FormByColumns(A, n, x, y, f, g);
    Bilinear(f, A, g, n, n);
  }

  /** z == a x + b y, entry by entry. */
  ghost predicate Combination(z: seq<real>, a: real, x: seq<real>, b: real, y: seq<real>) {
    |z| == |x| == |y| && forall k | 0 <= k < |z| :: z[k] == a * x[k] + b * y[k]
  }

  /** value == a p + b q */
  ghost predicate Linear(value: real, a: real, p: real, b: real, q: real) { value == a * p + b * q }

  lemma {:induction false} FormLinear(A: Matrix, n: nat, z: seq<real>, a: real, x: seq<real>, b: real, y: seq<real>, w: seq<real>)
    requires Combination(z, a, x, b, y) && |z| == n
    ensures Linear(Form(A, n, z, w), a, Form(A, n, x, w), b, Form(A, n, y, w))
  {
    hide Row;
    var f, g, h := k => At(x, k) * Row(A, n, w, k), k => At(y, k) * Row(A, n, w, k), k => At(z, k) * Row(A, n, w, k);
    forall k | 0 <= k < n ensures h(k) == a * f(k) + b * g(k) {
      Spread(a, x[k], b, y[k], Row(A, n, w, k));
    }
    SumEq(f, k => At(x, k) * Row(A, n, w, k), n);
    SumEq(g, k => At(y, k) * Row(A, n, w, k), n);
    SumEq(h, k => At(z, k) * Row(A, n, w, k), n);
    hide Combination, At;
    SumLinear(a, f, b, g, h, n);
  }

  lemma Spread(a: real, x: real, b: real, y: real, r: real)
    ensures (a * x + b * y) * r == a * (x * r) + b * (y * r)
  {}

  // ---- families of vectors -------------------------------------------------------------------

  /** Entry (i, j) of v A v'. */
  ghost function Gram(A: Matrix, v: Mat, i: int, j: int): real {
    if 0 <= i < |v| && 0 <= j < |v| then Form(A, |v|, v[i], v[j]) else 0.0
  }

  lemma {:induction false} GramSymmetric(A: Matrix, v: Mat)
    requires Symmetric(A)
    ensures forall i, j :: Gram(A, v, i, j) == Gram(A, v, j, i)
  {
    forall i, j ensures Gram(A, v, i, j) == Gram(A, v, j, i) {
      if 0 <= i < |v| && 0 <= j < |v| { FormSymmetric(A, |v|, v[i], v[j]); }
    }
  }

  /** v' is v with rows p and q turned: p' = s q + c p, q' = c q - s p. */
  ghost predicate Rotated(v: Mat, v': Mat, n: nat, p: int, q: int, s: real, c: real) {
    && Square(v, n) && Square(v', n) && 0 <= p < q < n
    && (forall i | 0 <= i < n && i != p && i != q :: v'[i] == v[i])
    && Combination(v'[p], s, v[q], c, v[p]) && Combination(v'[q], c, v[q], -s, v[p])
  }

  /** The turned rows against a third vector. */
  lemma {:induction false} RotatedSide(A: Matrix, v: Mat, v': Mat, n: nat, p: int, q: int, s: real, c: real, j: int)
    requires Rotated(v, v', n, p, q, s, c) && 0 <= j < n && j != p && j != q
    ensures Linear(Gram(A, v', p, j), s, Gram(A, v, q, j), c, Gram(A, v, p, j))
    ensures Linear(Gram(A, v', q, j), c, Gram(A, v, q, j), -s, Gram(A, v, p, j))
  {
    FormLinear(A, n, v'[p], s, v[q], c, v[p], v[j]);
    FormLinear(A, n, v'[q], c, v[q], -s, v[p], v[j]);
  }

  /** The turned rows against each other. */
  lemma {:induction false} RotatedCorner(A: Matrix, v: Mat, v': Mat, n: nat, p: int, q: int, s: real, c: real)
    requires Rotated(v, v', n, p, q, s, c) && Symmetric(A)
    ensures Corner(Gram(A, v', p, p), Gram(A, v', p, q), Gram(A, v', q, q), Gram(A, v, p, p), Gram(A, v, p, q), Gram(A, v, q, q), s, c)
  {
    FormLinear(A, n, v'[p], s, v[q], c, v[p], v'[p]);
    FormLinear(A, n, v'[p], s, v[q], c, v[p], v[p]);
    FormLinear(A, n, v'[p], s, v[q], c, v[p], v[q]);
    FormLinear(A, n, v'[q], c, v[q], -s, v[p], v'[q]);
    FormLinear(A, n, v'[q], c, v[q], -s, v[p], v[p]);
    FormLinear(A, n, v'[q], c, v[q], -s, v[p], v[q]);
    FormLinear(A, n, v'[p], s, v[q], c, v[p], v'[q]);
    FormSymmetric(A, n, v[p], v[q]);
    FormSymmetric(A, n, v'[p], v[p]);
    FormSymmetric(A, n, v'[p], v[q]);
    FormSymmetric(A, n, v'[q], v[p]);
    FormSymmetric(A, n, v'[q], v[q]);
    FormSymmetric(A, n, v'[p], v'[q]);
    hide Form, Rotated, Combination;
    Turn(Gram(A, v', p, p), Gram(A, v', p, q), Gram(A, v', q, q), Form(A, n, v'[p], v[p]), Form(A, n, v'[p], v[q]),
         Form(A, n, v'[q], v[p]), Form(A, n, v'[q], v[q]), Gram(A, v, p, p), Gram(A, v, p, q), Gram(A, v, q, q), s, c);
  }

  /** The two-by-two block after a turn, from the block before. */
  ghost predicate Corner(pp': real, pq': real, qq': real, pp: real, pq: real, qq: real, s: real, c: real) {
    && pp' == s * s * qq + 2.0 * (s * c * pq) + c * c * pp
    && qq' == c * c * qq - 2.0 * (s * c * pq) + s * s * pp
    && pq' == s * c * qq + c * c * pq - s * s * pq - s * c * pp
  }

  lemma Turn(pp': real, pq': real, qq': real, x: real, y: real, z: real, w: real, pp: real, pq: real, qq: real, s: real, c: real)
    requires Linear(pp', s, y, c, x) && Linear(x, s, pq, c, pp) && Linear(y, s, qq, c, pq)
    requires Linear(qq', c, w, -s, z) && Linear(z, c, pq, -s, pp) && Linear(w, c, qq, -s, pq)
    requires Linear(pq', s, w, c, z)
    ensures Corner(pp', pq', qq', pp, pq, qq, s, c)
  {}
}

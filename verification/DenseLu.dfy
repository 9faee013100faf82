/** In-place Crout LU decomposition with implicit partial pivoting, and the solver that uses it. */
module DenseLu {
  import opened Sums
  import opened Matrices
  import opened Permutations

  /** Entry (i, j), zero outside the matrix. */
  function E(m: Mat, i: int, j: int): real {
    if 0 <= i < |m| && 0 <= j < |m[i]| then m[i][j] else 0.0
  }

  /** The first m terms of row i times column j of the packed factors. */
  ghost function Dot(m: Mat, i: int, j: int, n: nat): real { Sum(k => E(m, i, k) * E(m, k, j), n) }

  lemma {:induction false} DotSame(m: Mat, m': Mat, i: int, i': int, j: int, n: nat)
    requires forall k | 0 <= k < n :: E(m', i', k) == E(m, i, k) && E(m', k, j) == E(m, k, j)
    ensures Dot(m', i', j, n) == Dot(m, i, j, n)
  {
    SumEq(k => E(m', i', k) * E(m', k, j), k => E(m, i, k) * E(m, k, j), n);
  }

  /** What the packed factors multiply to at (i, j), the unit diagonal of L understood. */
  ghost function Rebuilt(m: Mat, i: int, j: nat): real {
    if 0 <= i <= j then Dot(m, i, j, i) + E(m, i, j) else Dot(m, i, j, j + 1)
  }

  /** The factors themselves. */
  function L(m: Mat, i: int, k: int): real { if k < i then E(m, i, k) else if k == i then 1.0 else 0.0 }
  function U(m: Mat, k: int, j: int): real { if k <= j then E(m, k, j) else 0.0 }

  ghost function Product(m: Mat, i: int, j: int): real { Sum(k => L(m, i, k) * U(m, k, j), |m|) }

  lemma ZeroProduct(x: real)
    ensures x * 0.0 == 0.0 && 0.0 * x == 0.0 && 1.0 * x == x
  {}

  /** Only the terms up to the smaller index survive in row i of L times column j of U. */
  lemma {:induction false} ProductIsRebuilt(m: Mat, n: nat, i: nat, j: nat)
    requires Square(m, n) && i < n && j < n
    ensures Product(m, i, j) == Rebuilt(m, i, j)
  {
    var f, g := k => L(m, i, k) * U(m, k, j), k => E(m, i, k) * E(m, k, j);
    var l := if i <= j then i + 1 else j + 1;
    forall k | l <= k < n ensures f(k) == 0.0 {
      ZeroProduct(L(m, i, k));
      ZeroProduct(U(m, k, j));
    }
    forall k | 0 <= k < i && k <= j ensures f(k) == g(k) {
      assert L(m, i, k) == E(m, i, k) && U(m, k, j) == E(m, k, j);
    }
    ZeroProduct(U(m, i, j));
    assert i <= j ==> f(i) == E(m, i, j);
    SumEq(f, k => L(m, i, k) * U(m, k, j), n);
    SumEq(g, k => E(m, i, k) * E(m, k, j), if i <= j then i else j + 1);
    hide L, U, E;
    SumTail(f, l, n);
    SumEq(f, g, if i <= j then i else j + 1);
  }

  const TINY := 0.00000000000000000001

  // ---- one column ----------------------------------------------------------------------------

  /** m' differs from m in column j at most. */
  ghost predicate OtherColumns(m: Mat, m': Mat, n: nat, j: int) {
    Square(m, n) && Square(m', n) && forall i, c | 0 <= i < n && 0 <= c < n && c != j :: m'[i][c] == m[i][c]
  }

  /** Entry (i, j) has had the first l products taken off. */
  ghost predicate Reduced(m: Mat, m': Mat, i: int, j: int, l: nat) {
    Dot(m', i, j, l) + E(m', i, j) == E(m, i, j)
  }

  /** The entry less its first l products. */
  method Residual(a: array2<real>, i: nat, j: nat, l: nat) returns (sum: real)
    requires i < a.Length0 && j < a.Length1 && l <= a.Length0 && l <= a.Length1
    ensures Dot(Rows(a), i, j, l) + sum == E(Rows(a), i, j)
  {
    sum := a[i, j];
    ghost var m := Rows(a);
    var k := 0;
    while k < l
      invariant 0 <= k <= l && Dot(m, i, j, k) + sum == E(m, i, j)
    {
      assert a[i, k] == E(m, i, k) && a[k, j] == E(m, k, j);
      sum := sum - a[i, k] * a[k, j];
      k := k + 1;
    }
  }

  /** Replacing entry (i, j) of a matrix leaves the products of the other rows above it alone. */
  lemma {:induction false} WriteDot(m: Mat, m': Mat, n: nat, i: nat, j: nat, i': nat, l: nat)
    requires Square(m, n) && Square(m', n) && i < n && j < n && i' < n && l <= i && l <= j
    requires forall r, c | 0 <= r < n && 0 <= c < n && !(r == i && c == j) :: m'[r][c] == m[r][c]
    ensures Dot(m', i', j, l) == Dot(m, i', j, l)
  {
    DotSame(m, m', i', i', j, l);
  }

  /** Store the residual at (i, j). */
  method Reduce(a: array2<real>, n: nat, i: nat, j: nat, l: nat)
    requires a.Length0 == a.Length1 == n && i < n && j < n && l <= i && l <= j
    modifies a
    ensures Reduced(old(Rows(a)), Rows(a), i, j, l)
    ensures forall r, c | 0 <= r < n && 0 <= c < n && !(r == i && c == j) :: a[r, c] == old(a[r, c])
  {
    ghost var m := Rows(a);
    var sum := Residual(a, i, j, l);
    a[i, j] := sum;
    WriteDot(m, Rows(a), n, i, j, i, l);
  }

  /** Run down column j from the top to the diagonal, forming the entries of U. */
  method UpperPart(a: array2<real>, n: nat, j: nat)
    requires a.Length0 == a.Length1 == n && j < n
    modifies a
    ensures OtherColumns(old(Rows(a)), Rows(a), n, j)
    ensures forall i | 0 <= i < j :: Reduced(old(Rows(a)), Rows(a), i, j, i)
    ensures forall i | j <= i < n :: a[i, j] == old(a[i, j])
  {
    ghost var m := Rows(a);
    var i := 0;
    while i < j
      invariant 0 <= i <= j && OtherColumns(m, Rows(a), n, j)
      invariant forall r | 0 <= r < i :: Reduced(m, Rows(a), r, j, r)
      invariant forall r | i <= r < n :: a[r, j] == m[r][j]
    {
      ghost var m1 := Rows(a);
      Reduce(a, n, i, j, i);
      UpperKeeps(m, m1, Rows(a), n, i, j);
      i := i + 1;
    }
  }

  lemma {:induction false} UpperKeeps(m: Mat, m1: Mat, m2: Mat, n: nat, i: nat, j: nat)
    requires OtherColumns(m, m1, n, j) && Square(m2, n) && i < j < n
    requires Reduced(m1, m2, i, j, i) && m1[i][j] == m[i][j]
    requires forall r, c | 0 <= r < n && 0 <= c < n && !(r == i && c == j) :: m2[r][c] == m1[r][c]
    requires forall r | 0 <= r < i :: Reduced(m, m1, r, j, r)
    ensures OtherColumns(m, m2, n, j) && forall r | 0 <= r <= i :: Reduced(m, m2, r, j, r)
  {
    forall r | 0 <= r <= i ensures Reduced(m, m2, r, j, r) {
      if r < i { WriteDot(m1, m2, n, i, j, r, r); assert Reduced(m, m1, r, j, r); }
    }
  }

  /** The scaled size of a residual. */
  function Weight(s: real, x: real): real { s * Abs(x) }

  /** Row i of column j, scaled, is no larger than row imax. */
  ghost predicate Largest(m: Mat, scale: seq<real>, j: int, imax: int, i: int) {
    0 <= i < |scale| && 0 <= imax < |scale| && Weight(scale[i], E(m, i, j)) <= Weight(scale[imax], E(m, imax, j))
  }

  /** Run down column j from the diagonal, forming residuals, and find the largest scaled one. */
  method LowerPart(a: array2<real>, n: nat, j: nat, scale: array<real>) returns (imax: nat)
    requires a.Length0 == a.Length1 == scale.Length == n && j < n && forall i | 0 <= i < n :: scale[i] > 0.0
    modifies a
    ensures OtherColumns(old(Rows(a)), Rows(a), n, j)
    ensures forall i | 0 <= i < j :: a[i, j] == old(a[i, j])
    ensures forall i | j <= i < n :: Reduced(old(Rows(a)), Rows(a), i, j, j)
    ensures j <= imax < n && forall i | j <= i < n :: Largest(Rows(a), scale[..], j, imax, i)
  {
    ghost var m := Rows(a);
    var big := 0.0;
    imax := 0;
    var i := j;
    while i < n
      invariant j <= i <= n && OtherColumns(m, Rows(a), n, j)
      invariant forall r | 0 <= r < j || i <= r < n :: a[r, j] == m[r][j]
      invariant forall r | j <= r < i :: Reduced(m, Rows(a), r, j, j)
      invariant forall r | j <= r < i :: Weight(scale[r], a[r, j]) <= big
      invariant big >= 0.0 && (i == j ==> big == 0.0) && (i > j ==> j <= imax < i && big == Weight(scale[imax], a[imax, j]))
    {
      ghost var m1 := Rows(a);
      Reduce(a, n, i, j, j);
      LowerKeeps(m, m1, Rows(a), n, i, j);
      ScaledPositive(scale[i], a[i, j]);
      hide Reduced, Weight, OtherColumns;
      var dum := Weight(scale[i], a[i, j]);
      if dum >= big {
        big := dum;
        imax := i;
      }
      i := i + 1;
    }
  }

  lemma ScaledPositive(s: real, x: real)
    requires s > 0.0
    ensures Weight(s, x) >= 0.0
  {}

  lemma {:induction false} LowerKeeps(m: Mat, m1: Mat, m2: Mat, n: nat, i: nat, j: nat)
    requires OtherColumns(m, m1, n, j) && Square(m2, n) && j <= i < n
    requires Reduced(m1, m2, i, j, j) && m1[i][j] == m[i][j]
    requires forall r, c | 0 <= r < n && 0 <= c < n && !(r == i && c == j) :: m2[r][c] == m1[r][c]
    requires forall r | j <= r < i :: Reduced(m, m1, r, j, j)
    ensures OtherColumns(m, m2, n, j) && forall r | j <= r <= i :: Reduced(m, m2, r, j, j)
  {
    forall r | j <= r <= i ensures Reduced(m, m2, r, j, j) {
      if r < i { WriteDot(m1, m2, n, i, j, r, j); assert Reduced(m, m1, r, j, j); }
    }
  }

  /** Exchange two rows. */
  method SwapRows(a: array2<real>, n: nat, i: nat, j: nat)
    requires a.Length0 == a.Length1 == n && i < n && j < n
    modifies a
    ensures Rows(a) == Swap(old(Rows(a)), i, j)
  {
    ghost var m := Rows(a);
    var k := 0;
    while k < n
      invariant 0 <= k <= n
      invariant forall c | 0 <= c < k :: a[i, c] == m[j][c] && a[j, c] == m[i][c]
      invariant forall r, c | 0 <= r < n && 0 <= c < n && ((r != i && r != j) || c >= k) :: a[r, c] == m[r][c]
    {
      var dum := a[i, k];
      a[i, k] := a[j, k];
      a[j, k] := dum;
      k := k + 1;
    }
    forall r | 0 <= r < n ensures Rows(a)[r] == Swap(m, i, j)[r] {}
  }

  ghost predicate Multiplies(q: real, p: real, x: real) { q * p == x }

  /** Replace a zero pivot, and divide the entries below it. */
  method Divide(a: array2<real>, n: nat, j: nat) returns (tiny: bool)
    requires a.Length0 == a.Length1 == n && j < n
    modifies a
    ensures tiny <==> old(a[j, j]) == 0.0
    ensures a[j, j] == if tiny then TINY else old(a[j, j])
    ensures OtherColumns(old(Rows(a)), Rows(a), n, j) && forall i | 0 <= i < j :: a[i, j] == old(a[i, j])
    ensures forall i | j < i < n :: Multiplies(a[i, j], a[j, j], old(a[i, j]))
  {
    ghost var m := Rows(a);
    tiny := a[j, j] == 0.0;
    if tiny { a[j, j] := TINY; }
    if j != n - 1 {
      var pivot := 1.0 / a[j, j];
      var i := j + 1;
      while i < n
        invariant j < i <= n && a[j, j] == (if tiny then TINY else m[j][j]) && a[j, j] != 0.0
        invariant pivot == 1.0 / a[j, j]
        invariant forall r, c | 0 <= r < n && 0 <= c < n && (c != j || r < j || r >= i) && !(r == j && c == j) :: a[r, c] == m[r][c]
        invariant forall r | j < r < i :: Multiplies(a[r, j], a[j, j], m[r][j])
      {
        Undivide(m[i][j], a[j, j], pivot);
        hide Multiplies;
        a[i, j] := a[i, j] * pivot;
        i := i + 1;
      }
    }
  }

  lemma Undivide(x: real, p: real, q: real)
    requires p != 0.0 && q == 1.0 / p
    ensures Multiplies(x * q, p, x)
  {
    assert q * p == 1.0;
    assert (x * q) * p == x * (q * p);
  }

  // ---- the invariant over columns ------------------------------------------------------------

  ghost function Min(i: int, j: int): int { if i < j then i else j }

  /** TINY on the diagonal where a pivot was replaced. */
  ghost function Added(tiny: seq<bool>, i: int, c: int): real {
    if i == c && 0 <= c < |tiny| && tiny[c] then TINY else 0.0
  }

  /** Entry (i, c): in a finished column the factors rebuild the permuted matrix, elsewhere it is still there. */
  ghost predicate EntryDone(m: Mat, A: Mat, pm: seq<nat>, tiny: seq<bool>, i: int, c: nat) {
    && 0 <= i < |pm|
    && if c < |tiny| then Rebuilt(m, i, c) == E(A, pm[i], c) + Added(tiny, i, c) else E(m, i, c) == E(A, pm[i], c)
  }

  ghost predicate Done(m: Mat, A: Mat, n: nat, pm: seq<nat>, tiny: seq<bool>) {
    && Square(m, n) && Permutes(pm, n) && |tiny| <= n
    && forall i, c | 0 <= i < n && 0 <= c < n :: EntryDone(m, A, pm, tiny, i, c)
  }

  /** As Done, but with column |tiny| reduced: residuals on and below its diagonal. */
  ghost predicate EntryReduced(m: Mat, A: Mat, pm: seq<nat>, tiny: seq<bool>, i: int, c: nat) {
    if c == |tiny| then 0 <= i < |pm| && Dot(m, i, c, if i < c then i else c) + E(m, i, c) == E(A, pm[i], c)
    else EntryDone(m, A, pm, tiny, i, c)
  }

  ghost predicate ColumnReduced(m: Mat, A: Mat, n: nat, pm: seq<nat>, tiny: seq<bool>) {
    && Square(m, n) && Permutes(pm, n) && |tiny| < n
    && forall i, c | 0 <= i < n && 0 <= c < n :: EntryReduced(m, A, pm, tiny, i, c)
  }

  /** A column rebuilt from columns up to c does not see changes in column j > c. */
  lemma {:induction false} RebuiltSame(m: Mat, m': Mat, n: nat, j: nat, i: nat, c: nat)
    requires OtherColumns(m, m', n, j) && c < j < n && i < n
    ensures Rebuilt(m', i, c) == Rebuilt(m, i, c)
  {
    DotSame(m, m', i, i, c, if i <= c then i else c + 1);
  }

  lemma {:induction false} ReduceColumn(m: Mat, m1: Mat, m2: Mat, A: Mat, n: nat, pm: seq<nat>, tiny: seq<bool>, j: nat)
    requires Done(m, A, n, pm, tiny) && |tiny| == j < n
    requires OtherColumns(m, m1, n, j) && OtherColumns(m1, m2, n, j)
    requires forall i | 0 <= i < j :: Reduced(m, m1, i, j, i) && m2[i][j] == m1[i][j]
    requires forall i | j <= i < n :: Reduced(m1, m2, i, j, j) && m1[i][j] == m[i][j]
    ensures ColumnReduced(m2, A, n, pm, tiny)
  {
    forall i, c | 0 <= i < n && 0 <= c < n ensures EntryReduced(m2, A, pm, tiny, i, c) {
      assert EntryDone(m, A, pm, tiny, i, c);
      if c < j {
        RebuiltSame(m, m1, n, j, i, c);
        RebuiltSame(m1, m2, n, j, i, c);
      } else if c == j && i < j {
        assert Reduced(m, m1, i, j, i);
        DotSame(m1, m2, i, i, j, i);
      } else if c == j {
        assert Reduced(m1, m2, i, j, j);
      }
    }
  }

  /** Exchanging two rows not yet finished exchanges the permutation with them. */
  lemma {:induction false} SwapReduced(m: Mat, A: Mat, n: nat, pm: seq<nat>, tiny: seq<bool>, j: nat, l: nat)
    requires ColumnReduced(m, A, n, pm, tiny) && |tiny| == j <= l < n
    ensures ColumnReduced(Swap(m, j, l), A, n, Swap(pm, j, l), tiny)
  {
    var m', pm' := Swap(m, j, l), Swap(pm, j, l);
    SwapPermutes(pm, n, j, l);
    hide Permutes;
    forall i, c | 0 <= i < n && 0 <= c < n ensures EntryReduced(m', A, pm', tiny, i, c) {
      var i' := if i == j then l else if i == l then j else i;
      SwapEntry(m, m', A, n, pm, pm', tiny, j, l, i, i', c);
    }
  }

  lemma {:induction false} SwapEntry(m: Mat, m': Mat, A: Mat, n: nat, pm: seq<nat>, pm': seq<nat>, tiny: seq<bool>, j: nat, l: nat, i: nat, i': nat, c: nat)
    requires Square(m, n) && |pm| == n && |tiny| == j <= l < n && m' == Swap(m, j, l) && pm' == Swap(pm, j, l)
    requires i < n && c < n && i' == if i == j then l else if i == l then j else i
    requires EntryReduced(m, A, pm, tiny, i', c)
    ensures EntryReduced(m', A, pm', tiny, i, c)
  {
    assert pm'[i] == pm[i'] && m'[i] == m[i'];
    if c < j {
      DotSame(m, m', i', i, c, if i <= c then i else c + 1);
    } else if c == j {
      DotSame(m, m', i', i, c, if i < c then i else c);
    }
  }

  /** Dividing by the pivot finishes the column. */
  lemma {:induction false} FinishColumn(m: Mat, m': Mat, A: Mat, n: nat, pm: seq<nat>, tiny: seq<bool>, j: nat, t: bool)
    requires ColumnReduced(m, A, n, pm, tiny) && |tiny| == j && OtherColumns(m, m', n, j)
    requires t <==> m[j][j] == 0.0
    requires m'[j][j] == (if t then TINY else m[j][j]) && forall i | 0 <= i < j :: m'[i][j] == m[i][j]
    requires forall i | j < i < n :: Multiplies(m'[i][j], m'[j][j], m[i][j])
    ensures Done(m', A, n, pm, tiny + [t])
  {
    hide Permutes;
    forall i, c | 0 <= i < n && 0 <= c < n ensures EntryDone(m', A, pm, tiny + [t], i, c) {
      assert EntryReduced(m, A, pm, tiny, i, c);
      if c < j {
        RebuiltSame(m, m', n, j, i, c);
      } else if c == j {
        DotSame(m, m', i, i, j, if i < j then i else j);
        if i > j { LastTerm(m', i, j, m[i][j]); }
      }
    }
  }

  lemma {:induction false} LastTerm(m: Mat, i: nat, j: nat, x: real)
    requires j < i < |m| && j < |m[i]| && j < |m[j]| && Multiplies(m[i][j], m[j][j], x)
    ensures Rebuilt(m, i, j) == Dot(m, i, j, j) + x
  {}

  /** Where a pivot was replaced, nothing was left below it. */
  ghost predicate ZeroBelow(m: Mat, n: nat, tiny: seq<bool>) {
    Square(m, n) && |tiny| <= n && forall c, i | 0 <= c < |tiny| && c < i < n && tiny[c] :: m[i][c] == 0.0
  }

  lemma {:induction false} ZeroBelowNext(m: Mat, m1: Mat, m2: Mat, m4: Mat, n: nat, tiny: seq<bool>, t: bool, j: nat, l: nat, scale: seq<real>)
    requires ZeroBelow(m, n, tiny) && |tiny| == j <= l < n && |scale| == n
    requires OtherColumns(m, m1, n, j) && OtherColumns(m1, m2, n, j) && OtherColumns(Swap(m2, j, l), m4, n, j)
    requires forall i | j <= i < n :: scale[i] > 0.0 && Largest(m2, scale, j, l, i)
    requires t ==> m2[l][j] == 0.0 && m4[j][j] == TINY
    requires forall i | j < i < n :: Multiplies(m4[i][j], m4[j][j], Swap(m2, j, l)[i][j])
    ensures ZeroBelow(m4, n, tiny + [t])
  {
    var m3 := Swap(m2, j, l);
    forall c, i | 0 <= c < |tiny + [t]| && c < i < n && (tiny + [t])[c] ensures m4[i][c] == 0.0 {
      if c < j {
        assert m3[i][c] == m2[if i == j then l else if i == l then j else i][c];
      } else {
        var i' := if i == l then j else i;
        assert m3[i][j] == m2[i'][j] && Largest(m2, scale, j, l, i');
        NoWeight(scale[i'], m2[i'][j], scale[l]);
        assert Multiplies(m4[i][j], TINY, 0.0);
      }
    }
  }

  lemma NoWeight(s: real, x: real, s': real)
    requires s > 0.0 && Weight(s, x) <= Weight(s', 0.0)
    ensures x == 0.0
  {
    assert s * Abs(x) <= 0.0;
  }

  // ---- the decomposition ---------------------------------------------------------------------

  /** Row i has an entry that is not zero. */
  ghost predicate NonZeroRow(m: Mat, i: int) { 0 <= i < |m| && exists j | 0 <= j < |m[i]| :: m[i][j] != 0.0 }

  /** big is the largest size in row i. */
  ghost predicate RowMax(m: Mat, i: int, big: real)
    requires 0 <= i < |m|
  {
    (forall k | 0 <= k < |m[i]| :: Abs(m[i][k]) <= big) && (exists k | 0 <= k < |m[i]| :: Abs(m[i][k]) == big)
  }

  method RowScale(a: array2<real>, n: nat, i: nat) returns (big: real)
    requires a.Length0 == a.Length1 == n && i < n
    ensures big >= 0.0 && (big > 0.0 <==> NonZeroRow(Rows(a), i)) && (big > 0.0 ==> RowMax(Rows(a), i, big))
  {
    ghost var m := Rows(a);
    big := 0.0;
    var j := 0;
    while j < n
      invariant 0 <= j <= n && big >= 0.0
      invariant big > 0.0 <==> exists k | 0 <= k < j :: m[i][k] != 0.0
      invariant (forall k | 0 <= k < j :: Abs(m[i][k]) <= big) && (big > 0.0 ==> exists k | 0 <= k < j :: Abs(m[i][k]) == big)
    {
      var temp := Abs(a[i, j]);
      assert a[i, j] == m[i][j];
      if temp > big { big := temp; }
      j := j + 1;
    }
  }

  /** s brings the largest entry of row i to size one. */
  ghost predicate IsScale(m: Mat, i: int, s: real)
    requires 0 <= i < |m|
  {
    s > 0.0 && (forall k | 0 <= k < |m[i]| :: Weight(s, m[i][k]) <= 1.0) && (exists k | 0 <= k < |m[i]| :: Weight(s, m[i][k]) == 1.0)
  }

  lemma InverseOfMax(m: Mat, i: nat, big: real)
    requires i < |m| && big > 0.0 && RowMax(m, i, big)
    ensures IsScale(m, i, 1.0 / big)
  {
    InversePositive(big);
    forall k | 0 <= k < |m[i]| ensures Weight(1.0 / big, m[i][k]) <= 1.0 && (Abs(m[i][k]) == big ==> Weight(1.0 / big, m[i][k]) == 1.0) {
      Unscaled(big, Abs(m[i][k]));
    }
  }

  lemma Unscaled(big: real, x: real)
    requires big > 0.0 && x <= big
    ensures (1.0 / big) * x <= 1.0 && (x == big ==> (1.0 / big) * x == 1.0)
  {
    var s := 1.0 / big;
    InversePositive(big);
    assert s * big == 1.0;
    assert s * (big - x) >= 0.0;
  }

  /** Scaling factors, or failure when a row is zero. */
  method Scales(a: array2<real>, n: nat, scale: array<real>) returns (ok: bool)
    requires a.Length0 == a.Length1 == scale.Length == n
    modifies scale
    ensures ok <==> forall i | 0 <= i < n :: NonZeroRow(Rows(a), i)
    ensures ok ==> forall i | 0 <= i < n :: IsScale(Rows(a), i, scale[i])
  {
    hide NonZeroRow, IsScale, RowMax;
    var i := 0;
    while i < n
      invariant 0 <= i <= n && forall r | 0 <= r < i :: NonZeroRow(Rows(a), r) && IsScale(Rows(a), r, scale[r])
    {
      var big := RowScale(a, n, i);
      if big == 0.0 { return false; }
      InverseOfMax(Rows(a), i, big);
      scale[i] := 1.0 / big;
      i := i + 1;
    }
    ok := true;
  }

  lemma InversePositive(x: real)
    requires x > 0.0
    ensures 1.0 / x > 0.0
  {}

  // ---- the pivots are the largest scaled residuals -------------------------------------------

  /** Every multiplier of the first k columns, scaled by its row, is at most the scale of the pivot's row. */
  ghost predicate Pivoted(m: Mat, n: nat, s: seq<real>, pm: seq<nat>, k: nat) {
    && |m| == |s| == |pm| == n && k <= n && (forall i | 0 <= i < n :: pm[i] < n)
    && forall c, i | 0 <= c < k && c < i < n :: Weight(s[pm[i]], E(m, i, c)) <= s[pm[c]]
  }

  /** Written out. */
  lemma MultiplierSmall(m: Mat, n: nat, s: seq<real>, pm: seq<nat>, k: nat, i: nat, c: nat)
    requires Pivoted(m, n, s, pm, k) && c < k && c < i < n
    ensures s[pm[i]] * (if E(m, i, c) < 0.0 then -E(m, i, c) else E(m, i, c)) <= s[pm[c]]
  {
    assert Weight(s[pm[i]], E(m, i, c)) <= s[pm[c]];
    hide E;
  }

  /** The working scales of the rows not yet finished are those rows' own. */
  ghost predicate Carried(scale: seq<real>, s: seq<real>, pm: seq<nat>, j: nat) {
    && |scale| == |s| == |pm| && (forall i | 0 <= i < |pm| :: pm[i] < |s|)
    && forall i | j <= i < |s| :: scale[i] == s[pm[i]]
  }

  lemma AbsTimes(q: real, p: real, x: real)
    requires Multiplies(q, p, x)
    ensures Abs(q) * Abs(p) == Abs(x)
  {
    assert Abs(q) * Abs(p) == Abs(q * p) by { SignTimes(q, p); }
  }

  lemma SignTimes(q: real, p: real)
    ensures Abs(q) * Abs(p) == Abs(q * p)
  {
    if q >= 0.0 && p >= 0.0 {
      assert q * p >= 0.0;
    } else if q < 0.0 && p < 0.0 {
      assert (-q) * (-p) == q * p && (-q) * (-p) >= 0.0;
    } else if q < 0.0 {
      assert (-q) * p >= 0.0 && (-q) * p == -(q * p);
    } else {
      assert q * (-p) >= 0.0 && q * (-p) == -(q * p);
    }
  }

  /** Dividing a residual no larger than the pivot, both scaled, leaves a multiplier within the pivot's scale. */
  lemma MultiplierBound(q: real, p: real, x: real, s: real, sp: real)
    requires Multiplies(q, p, x) && p != 0.0 && Weight(s, x) <= Weight(sp, p)
    ensures Weight(s, q) <= sp
  {
    AbsTimes(q, p, x);
    var a, b := Abs(q), Abs(p);
    assert b > 0.0;
    assert (s * a) * b <= sp * b;
    CancelLess(s * a, sp, b);
  }

  lemma CancelLess(x: real, y: real, b: real)
    requires b > 0.0 && x * b <= y * b
    ensures x <= y
  {
    PositiveTimes(x - y, b);
    assert (x - y) * b == x * b - y * b;
  }

  lemma PositiveTimes(x: real, b: real)
    requires b > 0.0
    ensures x > 0.0 ==> x * b > 0.0
  {}

  lemma {:induction false} PivotedNext(m: Mat, m1: Mat, m2: Mat, m4: Mat, n: nat, s: seq<real>, pm: seq<nat>, scale: seq<real>, t: bool, j: nat, l: nat)
    requires Pivoted(m, n, s, pm, j) && Carried(scale, s, pm, j) && j <= l < n && |scale| == n && forall i | 0 <= i < n :: s[i] > 0.0
    requires OtherColumns(m, m1, n, j) && OtherColumns(m1, m2, n, j) && OtherColumns(Swap(m2, j, l), m4, n, j)
    requires forall i | j <= i < n :: Largest(m2, scale, j, l, i)
    requires (t ==> m2[l][j] == 0.0) && m4[j][j] == (if t then TINY else m2[l][j]) && m4[j][j] != 0.0
    requires forall i | j < i < n :: Multiplies(m4[i][j], m4[j][j], Swap(m2, j, l)[i][j])
    ensures Pivoted(m4, n, s, Swap(pm, j, l), j + 1)
  {
    var m3, pm' := Swap(m2, j, l), Swap(pm, j, l);
    forall c, i | 0 <= c < j + 1 && c < i < n ensures Weight(s[pm'[i]], E(m4, i, c)) <= s[pm'[c]] {
      var i' := if i == l then j else if i == j then l else i;
      assert m3[i][c] == m2[i'][c] && pm'[i] == pm[i'];
      if c < j {
        assert E(m4, i, c) == E(m, i', c);
      } else {
        assert Largest(m2, scale, j, l, i') && scale[i'] == s[pm[i']] && scale[l] == s[pm[l]];
        if t {
          NoWeight(scale[i'], m2[i'][j], scale[l]);
          ZeroMultiplier(m4[i][j], m4[j][j], s[pm'[i]]);
        } else {
          MultiplierBound(m4[i][j], m4[j][j], m2[i'][j], scale[i'], scale[l]);
        }
      }
    }
  }

  lemma ZeroMultiplier(q: real, p: real, s: real)
    requires Multiplies(q, p, 0.0) && p != 0.0
    ensures Weight(s, q) == 0.0
  {
    assert q == (q * p) / p;
  }

  lemma CarriedNext(scale: seq<real>, s: seq<real>, pm: seq<nat>, j: nat, l: nat)
    requires Carried(scale, s, pm, j) && j <= l < |s|
    ensures Carried(if j != l then scale[l := scale[j]] else scale, s, Swap(pm, j, l), j + 1)
  {}

  /** The state between columns. */
  ghost predicate Between(m: Mat, A: Mat, n: nat, index: seq<nat>, tiny: seq<bool>) {
    && Pivots(index, n) && |index| == |tiny| && Done(m, A, n, Perm(n, index), tiny) && ZeroBelow(m, n, tiny)
    && forall c | 0 <= c < |tiny| :: m[c][c] != 0.0 && (tiny[c] ==> m[c][c] == 0.00000000000000000001)
  }

  lemma BetweenFacts(m: Mat, A: Mat, n: nat, index: seq<nat>, tiny: seq<bool>)
    requires Between(m, A, n, index, tiny)
    ensures Pivots(index, n) && |index| == |tiny| && Done(m, A, n, Perm(n, index), tiny)
  {}

  /** One column of the decomposition. */
  method Column(a: array2<real>, n: nat, j: nat, scale: array<real>, ghost A: Mat, ghost index: seq<nat>, ghost tiny: seq<bool>, ghost s: seq<real>)
    returns (imax: nat, ghost t: bool)
    requires a.Length0 == a.Length1 == scale.Length == n == |s| && j < n && |tiny| == j && forall i | 0 <= i < n :: s[i] > 0.0
    requires Pivots(index, n) && Pivoted(Rows(a), n, s, Perm(n, index), j) && Carried(scale[..], s, Perm(n, index), j)
    requires Between(Rows(a), A, n, index, tiny) && forall i | 0 <= i < n :: scale[i] > 0.0
    modifies a, scale
    ensures j <= imax < n && Between(Rows(a), A, n, index + [imax], tiny + [t])
    ensures Pivoted(Rows(a), n, s, Perm(n, index + [imax]), j + 1) && Carried(scale[..], s, Perm(n, index + [imax]), j + 1)
    ensures forall i | 0 <= i < n :: scale[i] > 0.0
  {
    hide Between, Done, Perm, ColumnReduced, Pivoted, Carried, Largest, Reduced;
    ghost var m, sc := Rows(a), scale[..];
    BetweenFacts(m, A, n, index, tiny);
    UpperPart(a, n, j);
    ghost var m1 := Rows(a);
    imax := LowerPart(a, n, j, scale);
    ghost var m2 := Rows(a);
    assert scale[..] == sc && forall i | j <= i < n :: Largest(m2, sc, j, imax, i);
    ReduceColumn(m, m1, m2, A, n, Perm(n, index), tiny, j);
    if j != imax {
      SwapRows(a, n, imax, j);
      scale[imax] := scale[j];
    }
    ghost var m3 := Rows(a);
    assert m3 == Swap(m2, j, imax);
    t := Divide(a, n, j);
    ColumnEnds(m, m1, m2, Rows(a), A, n, index, tiny, t, j, imax, sc);
    PermSnoc(n, index, imax);
    PivotedNext(m, m1, m2, Rows(a), n, s, Perm(n, index), sc, t, j, imax);
    CarriedNext(sc, s, Perm(n, index), j, imax);
    assert scale[..] == if j != imax then sc[imax := sc[j]] else sc;
  }

  lemma PermSnoc(n: nat, index: seq<nat>, l: nat)
    requires Pivots(index, n) && |index| <= l < n
    ensures Pivots(index + [l], n) && Perm(n, index + [l]) == Swap(Perm(n, index), |index|, l)
  {
    assert (index + [l])[..|index|] == index;
  }

  lemma {:induction false} ColumnEnds(m: Mat, m1: Mat, m2: Mat, m4: Mat, A: Mat, n: nat, index: seq<nat>, tiny: seq<bool>, t: bool,
                                      j: nat, l: nat, scale: seq<real>)
    requires Between(m, A, n, index, tiny) && |tiny| == j <= l < n && |scale| == n
    requires ColumnReduced(m2, A, n, Perm(n, index), tiny)
    requires OtherColumns(m, m1, n, j) && OtherColumns(m1, m2, n, j) && OtherColumns(Swap(m2, j, l), m4, n, j)
    requires forall i | j <= i < n :: scale[i] > 0.0 && Largest(m2, scale, j, l, i)
    requires var m3 := Swap(m2, j, l);
             (t <==> m3[j][j] == 0.0) && m4[j][j] == (if t then TINY else m3[j][j])
             && (forall i | 0 <= i < j :: m4[i][j] == m3[i][j])
             && (forall i | j < i < n :: Multiplies(m4[i][j], m4[j][j], m3[i][j]))
    ensures Between(m4, A, n, index + [l], tiny + [t])
  {
    assert (index + [l])[..j] == index;
    ZeroBelowNext(m, m1, m2, m4, n, tiny, t, j, l, scale);
    SwapReduced(m2, A, n, Perm(n, index), tiny, j, l);
    assert Perm(n, index + [l]) == Swap(Perm(n, index), j, l);
    FinishColumn(Swap(m2, j, l), m4, A, n, Swap(Perm(n, index), j, l), tiny, j, t);
    hide Done, ZeroBelow, ColumnReduced, Perm;
    forall c | 0 <= c < j ensures m4[c][c] == m[c][c] {}
  }

  /** luDecomp. index and scale are filled; fails, leaving a alone, exactly when a row is zero. */
  method LuDecomp(a: array2<real>, n: nat, index: array<nat>, scale: array<real>) returns (ok: bool, ghost tiny: seq<bool>, ghost s: seq<real>)
    requires a.Length0 == a.Length1 == index.Length == scale.Length == n
    modifies a, index, scale
    ensures ok <==> forall i | 0 <= i < n :: NonZeroRow(old(Rows(a)), i)
    ensures ok ==> |tiny| == n && Between(Rows(a), old(Rows(a)), n, index[..], tiny)
    ensures ok ==> |s| == n && (forall i | 0 <= i < n :: IsScale(old(Rows(a)), i, s[i])) && Pivoted(Rows(a), n, s, Perm(n, index[..]), n)
    ensures !ok ==> Rows(a) == old(Rows(a))
  {
    ghost var A := Rows(a);
    tiny, s := [], [];
    ok := Scales(a, n, scale);
    if !ok { return; }
    s := scale[..];
    StartDone(A, n);
    StartPivoted(A, n, s);
    hide Between, Pivoted, Carried, IsScale, Perm;
    var j := 0;
    while j < n
      invariant 0 <= j <= n && |tiny| == j && Between(Rows(a), A, n, index[..j], tiny)
      invariant Pivoted(Rows(a), n, s, Perm(n, index[..j]), j) && Carried(scale[..], s, Perm(n, index[..j]), j)
      invariant forall i | 0 <= i < n :: scale[i] > 0.0
    {
      ghost var done := index[..j];
      var imax, t := Column(a, n, j, scale, A, done, tiny, s);
      index[j] := imax;
      assert index[..j + 1] == done + [imax];
      tiny := tiny + [t];
      j := j + 1;
    }
    assert index[..n] == index[..];
  }

  lemma {:induction false} StartDone(A: Mat, n: nat)
    requires Square(A, n)
    ensures Between(A, A, n, [], [])
  {
    PermOnto(n, []);
  }

  lemma StartPivoted(A: Mat, n: nat, s: seq<real>)
    requires Square(A, n) && |s| == n
    ensures Pivots([], n) && Pivoted(A, n, s, Perm(n, []), 0) && Carried(s, s, Perm(n, []), 0)
  {}

  /** L U == P A, with 1e-20 added exactly on the diagonal entries whose pivot was zero. */
  lemma {:induction false} Factors(m: Mat, A: Mat, n: nat, index: seq<nat>, tiny: seq<bool>, i: nat, j: nat)
    requires Between(m, A, n, index, tiny) && |tiny| == n && i < n && j < n
    ensures Perm(n, index)[i] < n
    ensures Product(m, i, j) == E(A, Perm(n, index)[i], j) + if i == j && tiny[j] then 0.00000000000000000001 else 0.0
  {
    ProductIsRebuilt(m, n, i, j);
    assert EntryDone(m, A, Perm(n, index), tiny, i, j);
  }

  // ---- the solver ----------------------------------------------------------------------------

  /** Row i of L applied to the first l entries of y. */
  ghost function RowTimes(m: Mat, i: int, y: seq<real>, l: nat): real { Sum(k => E(m, i, k) * At(y, k), l) }

  /** y_i + sum over k < i of L(i, k) y_k == pb_i, for the first l rows. */
  ghost predicate ForwardTo(m: Mat, y: seq<real>, pb: seq<real>, l: nat) {
    l <= |y| == |pb| && forall i | 0 <= i < l :: ForwardAt(m, y, pb, i)
  }
  ghost predicate ForwardAt(m: Mat, y: seq<real>, pb: seq<real>, i: nat) {
    RowTimes(m, i, y, i) + At(y, i) == At(pb, i)
  }

  lemma {:induction false} RowTimesSame(m: Mat, i: int, y: seq<real>, y': seq<real>, l: nat)
    requires forall k | 0 <= k < l :: At(y', k) == At(y, k)
    ensures RowTimes(m, i, y', l) == RowTimes(m, i, y, l)
  {
    SumEq(k => E(m, i, k) * At(y', k), k => E(m, i, k) * At(y, k), l);
  }

  /** Leading zeros contribute nothing. */
  lemma {:induction false} LeadingZeros(m: Mat, i: int, y: seq<real>, z: nat)
    requires forall k | 0 <= k < z :: At(y, k) == 0.0
    ensures RowTimes(m, i, y, z) == 0.0
  {
    SumTail(k => E(m, i, k) * At(y, k), 0, z);
  }

  /** The products of row i with the solved part, skipping leading zeros. */
  method Known(a: array2<real>, i: nat, b: array<real>, z: nat, sum0: real) returns (sum: real)
    requires i < a.Length0 && i <= a.Length1 && i <= b.Length && z <= i && forall k | 0 <= k < z :: b[k] == 0.0
    ensures sum + RowTimes(Rows(a), i, b[..], i) == sum0
  {
    ghost var m := Rows(a);
    LeadingZeros(m, i, b[..], z);
    sum := sum0;
    var j := z;
    while j <= i - 1
      invariant z <= j <= i && sum + RowTimes(m, i, b[..], j) == sum0
    {
      assert a[i, j] == E(m, i, j) && b[j] == At(b[..], j);
      sum := sum - a[i, j] * b[j];
      j := j + 1;
    }
  }

  /** b after the first i exchanges: from i on as exchanged, below i the solution so far. */
  ghost predicate PartlySolved(m: Mat, b: seq<real>, b0: seq<real>, index: seq<nat>, i: nat) {
    && i <= |index| == |b| == |b0| && Pivots(index[..i], |b0|)
    && ForwardTo(m, b, Exchanged(b0, index[..i]), i)
    && forall k | i <= k < |b| :: b[k] == Exchanged(b0, index[..i])[k]
  }

  lemma {:induction false} ForwardNext(m: Mat, b: seq<real>, b': seq<real>, b0: seq<real>, index: seq<nat>, i: nat)
    requires PartlySolved(m, b, b0, index, i) && i < |index| && i <= index[i] < |b|
    requires |b'| == |b| && (forall k | 0 <= k < i :: b'[k] == b[k]) && (forall k | i < k < |b| :: b'[k] == if k == index[i] then b[i] else b[k])
    requires b'[i] + RowTimes(m, i, b, i) == b[index[i]]
    ensures PartlySolved(m, b', b0, index, i + 1)
  {
    var p, q := index[..i], index[..i + 1];
    assert q[..i] == p && Pivots(q, |b0|);
    var x, x' := Exchanged(b0, p), Exchanged(b0, q);
    assert x' == Swap(x, i, index[i]);
    forall r | 0 <= r < i + 1 ensures ForwardAt(m, b', x', r) {
      RowTimesSame(m, r, b, b', r);
      if r < i { assert ForwardAt(m, b, x, r); }
    }
  }

  lemma PartlyStart(m: Mat, b0: seq<real>, index: seq<nat>)
    requires |index| == |b0|
    ensures PartlySolved(m, b0, b0, index, 0)
  {}

  lemma PartlyEnd(m: Mat, b: seq<real>, b0: seq<real>, index: seq<nat>)
    requires PartlySolved(m, b, b0, index, |index|)
    ensures Pivots(index, |b0|) && ForwardTo(m, b, Exchanged(b0, index), |index|)
  {
    assert index[..|index|] == index;
  }

  /** Transform b: exchange and forward-substitute in one sweep, allowing for leading zeros. */
  method Forward(a: array2<real>, n: nat, index: seq<nat>, b: array<real>)
    requires a.Length0 == a.Length1 == |index| == b.Length == n && Pivots(index, n)
    modifies b
    ensures ForwardTo(Rows(a), b[..], Exchanged(old(b[..]), index), n)
  {
    hide PartlySolved, RowTimes, ForwardTo, Exchanged;
    ghost var b0, m := b[..], Rows(a);
    PartlyStart(m, b0, index);
    var nonZero := -1;
    var i := 0;
    while i < n
      invariant 0 <= i <= n && -1 <= nonZero < i
      invariant PartlySolved(m, b[..], b0, index, i)
      invariant forall k | 0 <= k < (if nonZero == -1 then i else nonZero) :: b[k] == 0.0
    {
      ghost var b1 := b[..];
      var iperm := index[i];
      var sum := b[iperm];
      b[iperm] := b[i];
      if nonZero != -1 {
        RowTimesSame(m, i, b1, b[..], i);
        sum := Known(a, i, b, nonZero, sum);
      } else {
        LeadingZeros(m, i, b1, i);
        if sum != 0.0 { nonZero := i; }
      }
      b[i] := sum;
      ForwardNext(m, b1, b[..], b0, index, i);
      i := i + 1;
    }
    PartlyEnd(m, b[..], b0, index);
  }

  /** Row i of U applied to x from column l on. */
  ghost function RowFrom(m: Mat, i: int, x: seq<real>, l: nat, n: nat): real
    requires l <= n
    decreases n - l
  {
    if l == n then 0.0 else E(m, i, l) * At(x, l) + RowFrom(m, i, x, l + 1, n)
  }

  /** U(i, i) x_i + sum over j > i of U(i, j) x_j == y_i, for rows l and on. */
  ghost predicate BackFrom(m: Mat, x: seq<real>, y: seq<real>, l: nat) {
    |x| == |y| && forall i | l <= i < |x| :: RowFrom(m, i, x, i, |x|) == y[i]
  }

  lemma {:induction false} RowFromSame(m: Mat, i: int, x: seq<real>, x': seq<real>, l: nat, n: nat)
    requires l <= n && forall k | l <= k < n :: At(x', k) == At(x, k)
    ensures RowFrom(m, i, x', l, n) == RowFrom(m, i, x, l, n)
    decreases n - l
  {
    if l < n { RowFromSame(m, i, x, x', l + 1, n); }
  }

  lemma {:induction false} RowFromSplit(m: Mat, i: int, x: seq<real>, j: nat, l: nat, n: nat)
    requires j <= l < n
    ensures RowFrom(m, i, x, j, n) == RowFrom(m, i, x, j, l) + E(m, i, l) * At(x, l) + RowFrom(m, i, x, l + 1, n)
    decreases l - j
  {
    if j < l { RowFromSplit(m, i, x, j + 1, l, n); }
  }

  /** The products of row i of U with the solved part. */
  method Above(a: array2<real>, n: nat, i: nat, b: array<real>) returns (sum: real)
    requires a.Length0 == a.Length1 == b.Length == n && i < n
    ensures sum + RowFrom(Rows(a), i, b[..], i + 1, n) == b[i]
  {
    ghost var m := Rows(a);
    sum := b[i];
    var j := i + 1;
    while j < n
      invariant i < j <= n && sum + RowFrom(m, i, b[..], i + 1, j) == b[i]
    {
      RowFromSplit(m, i, b[..], i + 1, j, j + 1);
      assert a[i, j] == E(m, i, j) && b[j] == At(b[..], j);
      sum := sum - a[i, j] * b[j];
      j := j + 1;
    }
  }

  lemma DivideBack(s: real, u: real)
    requires u != 0.0
    ensures u * (s / u) == s
  {}

  /** Backsubstitution. */
  method Backward(a: array2<real>, n: nat, b: array<real>)
    requires a.Length0 == a.Length1 == b.Length == n && forall i | 0 <= i < n :: a[i, i] != 0.0
    modifies b
    ensures BackFrom(Rows(a), b[..], old(b[..]), 0)
  {
    ghost var y, m := b[..], Rows(a);
    var i := n;
    while i > 0
      invariant 0 <= i <= n && BackFrom(m, b[..], y, i) && forall k | 0 <= k < i :: b[k] == y[k]
    {
      i := i - 1;
      ghost var x := b[..];
      var sum := Above(a, n, i, b);
      DivideBack(sum, a[i, i]);
      b[i] := sum / a[i, i];
      forall r | i <= r < n ensures RowFrom(m, r, b[..], r, n) == y[r] {
        RowFromSame(m, r, x, b[..], if r == i then i + 1 else r, n);
      }
    }
  }

  /** Row i of a matrix given by its entries, applied to x. */
  ghost function Times(f: int -> real, x: seq<real>): real { Sum(j => f(j) * At(x, j), |x|) }

  lemma {:induction false} TimesIs(f: int -> real, x: seq<real>, h: int -> real)
    requires forall j | 0 <= j < |x| :: h(j) == f(j) * At(x, j)
    ensures Times(f, x) == Sum(h, |x|)
  {
    SumEq(j => f(j) * At(x, j), h, |x|);
  }

  lemma {:induction false} TimesEq(f: int -> real, g: int -> real, x: seq<real>)
    requires forall j | 0 <= j < |x| :: f(j) == g(j)
    ensures Times(f, x) == Times(g, x)
  {
    TimesIs(f, x, j => g(j) * At(x, j));
  }

  lemma {:induction false} RowFromIsU(m: Mat, i: nat, x: seq<real>, l: nat)
    requires i <= l <= |x|
    ensures RowFrom(m, i, x, l, |x|) == Sum(j => U(m, i, j) * At(x, j), |x|) - Sum(j => U(m, i, j) * At(x, j), l)
    decreases |x| - l
  {
    if l < |x| { RowFromIsU(m, i, x, l + 1); }
  }

  lemma {:induction false} BackwardIsU(m: Mat, x: seq<real>, y: seq<real>, i: nat)
    requires BackFrom(m, x, y, 0) && i < |x|
    ensures Times(j => U(m, i, j), x) == y[i]
  {
    RowFromIsU(m, i, x, i);
    SumUnit(j => U(m, i, j) * At(x, j), -1, i);
    TimesIs(j => U(m, i, j), x, j => U(m, i, j) * At(x, j));
  }

  /** A row that is one on the diagonal and zero after it. */
  lemma {:induction false} TimesUnitRow(f: int -> real, y: seq<real>, i: nat, h: int -> real)
    requires i < |y| && f(i) == 1.0 && (forall k | i < k < |y| :: f(k) == 0.0) && forall k | 0 <= k < i :: h(k) == f(k) * At(y, k)
    ensures Times(f, y) == Sum(h, i) + At(y, i)
  {
    var g := k => f(k) * At(y, k);
    ZeroProduct(At(y, i));
    forall k | i < k < |y| ensures g(k) == 0.0 { ZeroProduct(At(y, k)); }
    TimesIs(f, y, g);
    SumEq(h, g, i);
    hide At;
    SumTail(g, i + 1, |y|);
  }

  lemma {:induction false} ForwardIsL(m: Mat, y: seq<real>, pb: seq<real>, i: nat)
    requires ForwardTo(m, y, pb, |y|) && i < |y|
    ensures Times(k => L(m, i, k), y) == pb[i]
  {
    assert ForwardAt(m, y, pb, i);
    hide E;
    TimesUnitRow(k => L(m, i, k), y, i, k => E(m, i, k) * At(y, k));
  }

  /** Row f of a left factor, applied to what the right factor A makes of g. */
  lemma {:induction false} Applied(f: int -> real, A: (int, int) -> real, g: int -> real, y: seq<real>)
    requires forall k | 0 <= k < |y| :: At(y, k) == Sum(j => A(k, j) * g(j), |y|)
    ensures Times(f, y) == Sum(k => f(k) * Sum(j => A(k, j) * g(j), |y|), |y|)
  {
    TimesIs(f, y, k => f(k) * Sum(j => A(k, j) * g(j), |y|));
  }

  lemma {:induction false} Associates(f: int -> real, A: (int, int) -> real, g: int -> real, P: int -> real, x: seq<real>, y: seq<real>)
    requires |x| == |y| && (forall j | 0 <= j < |x| :: g(j) == At(x, j))
    requires forall k | 0 <= k < |y| :: At(y, k) == Sum(j => A(k, j) * g(j), |y|)
    requires forall j | 0 <= j < |x| :: P(j) == Sum(k => f(k) * A(k, j), |x|)
    ensures Times(P, x) == Times(f, y)
  {
    hide At;
    Applied(f, A, g, y);
    Bilinear(f, A, g, |x|, |x|);
    TimesIs(P, x, j => Sum(k => f(k) * A(k, j), |x|) * g(j));
  }

  /** L (U x) == (L U) x. */
  lemma {:induction false} Associate(m: Mat, n: nat, x: seq<real>, y: seq<real>, i: nat)
    requires Square(m, n) && |x| == |y| == n && i < n
    requires forall k | 0 <= k < n :: Times(j => U(m, k, j), x) == y[k]
    ensures Times(j => Product(m, i, j), x) == Times(k => L(m, i, k), y)
  {
    var f, A, g := k => L(m, i, k), (k, j) => U(m, k, j), j => At(x, j);
    hide L, U, E;
    forall k | 0 <= k < n ensures At(y, k) == Sum(j => A(k, j) * g(j), n) { TimesIs(j => U(m, k, j), x, j => A(k, j) * g(j)); }
    forall j | 0 <= j < n ensures Product(m, i, j) == Sum(k => f(k) * A(k, j), n) {
      SumEq(k => L(m, i, k) * U(m, k, j), k => f(k) * A(k, j), n);
    }
    hide At, Product;
    Associates(f, A, g, j => Product(m, i, j), x, y);
    TimesEq(f, k => L(m, i, k), y);
  }

  /** x solves the factored system: row i of L U times x is the entry of b that the exchanges bring to i. */
  ghost predicate Solves(m: Mat, index: seq<nat>, x: seq<real>, b: seq<real>) {
    && |x| == |b| == |index| && Pivots(index, |b|)
    && forall i | 0 <= i < |x| :: Perm(|b|, index)[i] < |b| && Times(j => Product(m, i, j), x) == b[Perm(|b|, index)[i]]
  }

  lemma {:induction false} Solved(m: Mat, n: nat, index: seq<nat>, b: seq<real>, y: seq<real>, x: seq<real>)
    requires Square(m, n) && |index| == |b| == n && Pivots(index, n)
    requires ForwardTo(m, y, Exchanged(b, index), n) && BackFrom(m, x, y, 0)
    ensures Solves(m, index, x, b)
  {
    ExchangedIsPerm(b, index);
    forall k | 0 <= k < n ensures Times(j => U(m, k, j), x) == y[k] { BackwardIsU(m, x, y, k); }
    forall i | 0 <= i < n ensures Times(j => Product(m, i, j), x) == b[Perm(n, index)[i]] {
      Associate(m, n, x, y, i);
      ForwardIsL(m, y, Exchanged(b, index), i);
    }
  }

  /** luSolve: b becomes the solution of the factored system. */
  method LuSolve(a: array2<real>, n: nat, index: seq<nat>, b: array<real>)
    requires a.Length0 == a.Length1 == |index| == b.Length == n && Pivots(index, n)
    requires forall i | 0 <= i < n :: a[i, i] != 0.0
    modifies b
    ensures Solves(Rows(a), index, b[..], old(b[..]))
  {
    ghost var b0 := b[..];
    Forward(a, n, index, b);
    ghost var y := b[..];
    Backward(a, n, b);
    Solved(Rows(a), n, index, b0, y, b[..]);
  }

  /** With no pivot replaced, solving the factors of A solves A x == b, row by row. */
  lemma {:induction false} SolvesOriginal(m: Mat, A: Mat, n: nat, index: seq<nat>, tiny: seq<bool>, x: seq<real>, b: seq<real>, r: nat)
    requires Between(m, A, n, index, tiny) && |tiny| == n && Solves(m, index, x, b) && |b| == n && r < n
    requires forall c | 0 <= c < n :: !tiny[c]
    ensures Times(j => E(A, r, j), x) == b[r]
  {
    var p := Perm(n, index);
    assert Occurs(p, r);
    var i :| 0 <= i < n && p[i] == r;
    forall j | 0 <= j < n ensures Product(m, i, j) == E(A, r, j) { Factors(m, A, n, index, tiny, i, j); }
    TimesEq(j => Product(m, i, j), j => E(A, r, j), x);
    assert Times(j => Product(m, i, j), x) == b[p[i]];
  }
}


/** The safeguarded Newton/bisection root finder. */
module FindRoot {
  import opened Sums

  /** x lies between a and b, in either order. */
  predicate Between(x: real, a: real, b: real) { (a <= x <= b) || (b <= x <= a) }

  /** f changes sign from x1 to x2. */
  ghost predicate Brackets(f: real -> real, x1: real, x2: real) { f(x1) < 0.0 <= f(x2) }

  /** The derivative is not zero where the function is. */
  predicate Simple(f: real -> real, df: real -> real, x: real) { f(x) == 0.0 ==> df(x) != 0.0 }

  /** So at every zero between the ends: otherwise a Newton step could divide zero by zero. */
  ghost predicate SimpleRoots(f: real -> real, df: real -> real, a: real, b: real) { forall x: real | Between(x, a, b) :: Simple(f, df, x) }

  lemma Positive(x: real, y: real)
    requires x > 0.0 && y > 0.0
    ensures Mul(x, y) > 0.0
  {}

  lemma Signs(x: real, y: real)
    ensures Mul(-x, y) == -Mul(x, y) && Mul(x, -y) == -Mul(x, y)
  {}

  /** A product that is not positive has factors of different sign. */
  lemma NotBothSides(a: real, b: real)
    requires Mul(a, b) <= 0.0
    ensures !(a > 0.0 && b > 0.0) && !(a < 0.0 && b < 0.0)
  {
    if a > 0.0 && b > 0.0 { Positive(a, b); }
    if a < 0.0 && b < 0.0 {
      Signs(a, b);
      Signs(a, -b);
      Positive(-a, -b);
    }
  }

  /** The distance of a Newton step from an end, scaled by the slope. */
  lemma StepDistance(root: real, x: real, y: real, dy: real, dx: real)
    requires dy != 0.0 && Mul(dx, dy) == y
    ensures Mul(root - x, dy) - y == Mul(root - dx - x, dy)
  {}

  lemma SlopeSign(a: real, dy: real)
    requires dy != 0.0
    ensures dy > 0.0 && a > 0.0 ==> Mul(a, dy) > 0.0
    ensures dy > 0.0 && a < 0.0 ==> Mul(a, dy) < 0.0
    ensures dy < 0.0 && a > 0.0 ==> Mul(a, dy) < 0.0
    ensures dy < 0.0 && a < 0.0 ==> Mul(a, dy) > 0.0
  {
    Signs(a, dy);
    if dy > 0.0 && a > 0.0 { Positive(a, dy); }
    if dy > 0.0 && a < 0.0 { Positive(-a, dy); }
    if dy < 0.0 && a > 0.0 { Positive(a, -dy); }
    if dy < 0.0 && a < 0.0 { Signs(-a, dy); Positive(-a, -dy); }
  }

  /** The guard of the Newton step keeps it between the ends. */
  lemma NewtonInside(root: real, x1: real, x2: real, y: real, dy: real, dx: real)
    requires dy != 0.0 && Mul(dx, dy) == y && Mul(Mul(root - x2, dy) - y, Mul(root - x1, dy) - y) <= 0.0
    ensures Between(root - dx, x1, x2)
  {
    StepDistance(root, x1, y, dy, dx);
    StepDistance(root, x2, y, dy, dx);
    var a, b := root - dx - x2, root - dx - x1;
    SlopeSign(a, dy);
    SlopeSign(b, dy);
    hide Mul;
    NotBothSides(Mul(a, dy), Mul(b, dy));
  }

  /** With a zero slope the guard fails, unless the value is zero too. */
  lemma FlatBisects(root: real, x1: real, x2: real, y: real)
    requires y != 0.0
    ensures Mul(Mul(root - x2, 0.0) - y, Mul(root - x1, 0.0) - y) > 0.0
  {
    assert Mul(root - x2, 0.0) == 0.0 && Mul(root - x1, 0.0) == 0.0;
    if y > 0.0 { Positive(y, y); } else { Positive(-y, -y); }
    Signs(y, -y);
    Signs(y, y);
  }

  /** The test for bisecting: a Newton step would leave the bracket, or steps are not shrinking fast enough. */
  predicate Bisects(root: real, x1: real, x2: real, y: real, dy: real, dxPrev: real) {
    Mul(Mul(root - x2, dy) - y, Mul(root - x1, dy) - y) > 0.0 || Abs(2.0 * y) > Abs(Mul(dxPrev, dy))
  }

  /** Exactly when a Newton step would divide by zero: the slope and the value are both zero. */
  lemma DividesByZeroIff(root: real, x1: real, x2: real, y: real, dxPrev: real)
    ensures !Bisects(root, x1, x2, y, 0.0, dxPrev) <==> y == 0.0
  {
    if y == 0.0 {
      ZeroProducts(root - x2, root - x1, dxPrev);
    } else {
      FlatBisects(root, x1, x2, y);
    }
  }

  /** The cube between -1 and 1: at the first point evaluated, the middle, a Newton step divides zero by zero. */
  lemma CubeDividesByZero(f: real -> real, df: real -> real)
    requires forall x: real :: f(x) == x * x * x && df(x) == 3.0 * x * x
    ensures var s := Begin(-1.0, f(-1.0), 1.0);
            Sound(f, s, -1.0, 1.0) && f(s.root) == df(s.root) == 0.0 && !Bisects(s.root, s.x1, s.x2, f(s.root), df(s.root), s.dxPrev)
  {
    var s := Begin(-1.0, f(-1.0), 1.0);
    assert f(-1.0) == -1.0 && f(1.0) == 1.0 && s.root == 0.0;
    DividesByZeroIff(s.root, s.x1, s.x2, f(s.root), s.dxPrev);
  }

  lemma ZeroProducts(a: real, b: real, c: real)
    ensures Mul(a, 0.0) == 0.0 && Mul(b, 0.0) == 0.0 && Mul(c, 0.0) == 0.0 && Mul(0.0, 0.0) == 0.0
  {}

  lemma AbsTimes(x: real, y: real)
    ensures Abs(Mul(x, y)) == Mul(Abs(x), Abs(y))
  {
    Signs(x, y);
    Signs(-x, y);
    NonNegativeTimes(Abs(x), Abs(y));
  }

  lemma NonNegativeTimes(x: real, y: real)
    requires x >= 0.0 && y >= 0.0
    ensures Mul(x, y) >= 0.0
  {}

  /** Scaling by a positive number keeps an order. */
  lemma OrderTimes(x: real, y: real, k: real)
    requires k > 0.0
    ensures x > y <==> Mul(x, k) > Mul(y, k)
  {
    assert Mul(x - y, k) == Mul(x, k) - Mul(y, k);
    if x > y { Positive(x - y, k); }
    if y > x {
      Positive(y - x, k);
      assert Mul(y - x, k) == -Mul(x - y, k);
    }
  }

  /** Two numbers of one sign. */
  lemma SameSide(a: real, b: real, dy: real)
    requires dy != 0.0
    ensures Mul(Mul(a, dy), Mul(b, dy)) > 0.0 <==> (a > 0.0 && b > 0.0) || (a < 0.0 && b < 0.0)
  {
    if (a > 0.0 && b > 0.0) || (a < 0.0 && b < 0.0) {
      SlopeSign(a, dy);
      SlopeSign(b, dy);
      hide Mul;
      BothSides(Mul(a, dy), Mul(b, dy));
    } else {
      EitherSide(a, b, dy);
    }
  }

  lemma BothSides(p: real, q: real)
    requires (p > 0.0 && q > 0.0) || (p < 0.0 && q < 0.0)
    ensures Mul(p, q) > 0.0
  {
    if p > 0.0 {
      Positive(p, q);
    } else {
      Positive(-p, -q);
      assert Mul(-p, -q) == Mul(p, q);
    }
  }

  /** Exactly when the search bisects: the Newton point is outside the bracket, or the Newton step is more than half the step before last. */
  lemma BisectsIff(root: real, x1: real, x2: real, y: real, dy: real, dxPrev: real)
    requires dy != 0.0
    ensures Bisects(root, x1, x2, y, dy, dxPrev) <==> !Between(root - y / dy, x1, x2) || 2.0 * Abs(y / dy) > Abs(dxPrev)
  {
    var dx := y / dy;
    assert Mul(dx, dy) == y;
    StepDistance(root, x1, y, dy, dx);
    StepDistance(root, x2, y, dy, dx);
    SameSide(root - dx - x2, root - dx - x1, dy);
    AbsTimes(dxPrev, dy);
    AbsTimes(2.0 * dx, dy);
    assert Mul(2.0 * dx, dy) == 2.0 * y;
    OrderTimes(Abs(2.0 * dx), Abs(dxPrev), Abs(dy));
    hide Mul;
  }

  /** Where the search stands: the bracket, the point last evaluated, the step before the last and the last. */
  datatype Search = Search(x1: real, x2: real, root: real, dxPrev: real, dx: real)

  /** The next step: half the bracket, or Newton's. */
  ghost function NextStep(f: real -> real, df: real -> real, s: Search): real
    requires Simple(f, df, s.root)
  {
    if Bisects(s.root, s.x1, s.x2, f(s.root), df(s.root), s.dxPrev) then (s.x2 - s.x1) * 0.5
    else
      DividesByZeroIff(s.root, s.x1, s.x2, f(s.root), s.dxPrev);
      f(s.root) / df(s.root)
  }

  ghost function NextRoot(f: real -> real, df: real -> real, s: Search): real
    requires Simple(f, df, s.root)
  {
    if Bisects(s.root, s.x1, s.x2, f(s.root), df(s.root), s.dxPrev) then s.x1 + NextStep(f, df, s) else s.root - NextStep(f, df, s)
  }

  /** The bracket end whose sign the new point has moves there. */
  ghost function Narrowed(f: real -> real, df: real -> real, s: Search): Search
    requires Simple(f, df, s.root)
  {
    var root := NextRoot(f, df, s);
    if f(root) < 0.0 then Search(root, s.x2, root, s.dx, NextStep(f, df, s)) else Search(s.x1, root, root, s.dx, NextStep(f, df, s))
  }

  ghost predicate Converged(f: real -> real, df: real -> real, tol: real, s: Search)
    requires Simple(f, df, s.root)
  {
    Abs(NextStep(f, df, s)) <= Mul(tol, Abs(NextRoot(f, df, s)))
  }

  /** The search after k passes that did not converge: sound, so only points between the ends are ever evaluated. */
  ghost function After(f: real -> real, df: real -> real, a: real, b: real, s: Search, k: nat): (r: Search)
    requires SimpleRoots(f, df, a, b) && Sound(f, s, a, b)
    ensures Sound(f, r, a, b) && Between(r.root, a, b) && Simple(f, df, r.root)
  {
    if k == 0 then s
    else
      var p := After(f, df, a, b, s, k - 1);
      NarrowedSound(f, df, p, a, b);
      Narrowed(f, df, p)
  }

  /** The search begins at the middle of the ends, ordered so that the function is negative at the first. */
  function Begin(a: real, y1: real, b: real): Search {
    var x1, x2 := if y1 > 0.0 then b else a, if y1 > 0.0 then a else b;
    Search(x1, x2, (x1 + x2) * 0.5, Abs(x2 - x1), Abs(x2 - x1))
  }

  /** The bracket surrounds a sign change, lies in the initial interval, and contains the point last evaluated. */
  ghost predicate Sound(f: real -> real, s: Search, a: real, b: real) {
    Brackets(f, s.x1, s.x2) && Between(s.x1, a, b) && Between(s.x2, a, b) && Between(s.root, s.x1, s.x2)
  }

  /** Either step stays inside the bracket. */
  lemma StepInside(f: real -> real, df: real -> real, s: Search)
    requires Simple(f, df, s.root) && Between(s.root, s.x1, s.x2)
    ensures Between(NextRoot(f, df, s), s.x1, s.x2)
  {
    var y, dy := f(s.root), df(s.root);
    if !Bisects(s.root, s.x1, s.x2, y, dy, s.dxPrev) {
      DividesByZeroIff(s.root, s.x1, s.x2, y, s.dxPrev);
      assert Mul(y / dy, dy) == y;
      NewtonInside(s.root, s.x1, s.x2, y, dy, y / dy);
    }
  }

  /** Every pass, Newton or bisection, keeps the bracket sound and inside the one before. */
  lemma NarrowedSound(f: real -> real, df: real -> real, s: Search, a: real, b: real)
    requires Simple(f, df, s.root) && Sound(f, s, a, b)
    ensures Sound(f, Narrowed(f, df, s), a, b) && Between(Narrowed(f, df, s).x1, s.x1, s.x2) && Between(Narrowed(f, df, s).x2, s.x1, s.x2)
  {
    StepInside(f, df, s);
    hide NextRoot, NextStep;
  }

  /** The search begins with the ends, the negative one first, at their middle, both steps counted as the whole interval. */
  lemma BeginIs(f: real -> real, a: real, b: real)
    requires (f(a) < 0.0 < f(b)) || (f(b) < 0.0 < f(a))
    ensures var s := Begin(a, f(a), b);
            f(s.x1) < 0.0 < f(s.x2) && ((s.x1 == a && s.x2 == b) || (s.x1 == b && s.x2 == a))
            && s.root == (a + b) / 2.0 && s.dxPrev == s.dx == Abs(b - a)
  {}

  lemma BeginSound(f: real -> real, a: real, b: real)
    requires (f(a) < 0.0 < f(b)) || (f(b) < 0.0 < f(a))
    ensures Sound(f, Begin(a, f(a), b), a, b)
  {}

  /** The Newton point of a search is taken when it lies in the bracket and the step is at most half the step before last. */
  ghost predicate Newton(f: real -> real, df: real -> real, s: Search) {
    && df(s.root) != 0.0 && Between(s.root - f(s.root) / df(s.root), s.x1, s.x2)
    && 2.0 * Abs(f(s.root) / df(s.root)) <= Abs(s.dxPrev)
  }

  /** One pass written out: to the Newton point or to the middle, and the end with the new point's sign moves there. */
  lemma PassIs(f: real -> real, df: real -> real, s: Search)
    requires Simple(f, df, s.root)
    ensures NextRoot(f, df, s) == if Newton(f, df, s) then s.root - f(s.root) / df(s.root) else (s.x1 + s.x2) / 2.0
    ensures NextStep(f, df, s) == if Newton(f, df, s) then s.root - NextRoot(f, df, s) else (s.x2 - s.x1) / 2.0
    ensures var t := Narrowed(f, df, s);
            t.root == NextRoot(f, df, s) && t.dx == NextStep(f, df, s) && t.dxPrev == s.dx
            && t.x1 == (if f(t.root) < 0.0 then t.root else s.x1) && t.x2 == (if f(t.root) < 0.0 then s.x2 else t.root)
  {
    var y, dy := f(s.root), df(s.root);
    if dy != 0.0 { BisectsIff(s.root, s.x1, s.x2, y, dy, s.dxPrev); } else { DividesByZeroIff(s.root, s.x1, s.x2, y, s.dxPrev); }
    hide Bisects;
  }

  /** A step of at most tol times the size of x. */
  predicate Small(step: real, tol: real, x: real) { Abs(step) <= tol * Abs(x) }

  /** The tolerance is relative: the last step of a success is small for its result, every step before it and every step of a failed
      search is not small for the point it led to. */
  ghost predicate Relative(f: real -> real, df: real -> real, a: real, b: real, tol: real, s: Search, root: real, fail: bool, passes: nat)
    requires SimpleRoots(f, df, a, b) && Sound(f, s, a, b)
  {
    && (forall k | 0 <= k < passes :: var p := After(f, df, a, b, s, k); !Small(NextStep(f, df, p), tol, NextRoot(f, df, p)))
    && (!fail ==> Small(NextStep(f, df, After(f, df, a, b, s, passes)), tol, root))
  }

  lemma EndedRelative(f: real -> real, df: real -> real, a: real, b: real, tol: real, s: Search, maxIter: nat, root: real, fail: bool, passes: nat)
    requires SimpleRoots(f, df, a, b) && Sound(f, s, a, b) && Ended(f, df, a, b, tol, s, maxIter, root, fail, passes)
    ensures Relative(f, df, a, b, tol, s, root, fail, passes)
  {
    hide After, NextStep, NextRoot, Sound, SimpleRoots, Simple;
  }

  lemma SmallerStill(e: real, d: real, tol: real, x: real)
    requires Abs(e) <= Abs(d) && Small(d, tol, x)
    ensures Small(e, tol, x)
  {}

  /** A success after a bisection: the sign change is within tol times the size of the result. */
  lemma BisectionResult(f: real -> real, df: real -> real, a: real, b: real, tol: real, s: Search, root: real, passes: nat, x: real)
    requires SimpleRoots(f, df, a, b) && Sound(f, s, a, b) && Relative(f, df, a, b, tol, s, root, false, passes)
    requires var p := After(f, df, a, b, s, passes); root == NextRoot(f, df, p) && !Newton(f, df, p) && Between(x, p.x1, p.x2)
    ensures var p := After(f, df, a, b, s, passes); f(p.x1) < 0.0 <= f(p.x2) && Small(x - root, tol, root)
  {
    var p := After(f, df, a, b, s, passes);
    PassIs(f, df, p);
    var d := NextStep(f, df, p);
    assert Small(d, tol, root) && d == (p.x2 - p.x1) * 0.5 && root == p.x1 + d;
    BisectionClose(p.x1, p.x2, root, d, x);
    hide Small, After, NextStep, NextRoot, Newton;
    SmallerStill(x - root, d, tol, root);
  }

  /** The square less 9e-20 between 1e-10 and 1e-9, to one percent: the first Newton step, of 1.9e-10, is not small for 3.6e-10. */
  lemma TinyRoots(f: real -> real, df: real -> real)
    requires forall x: real :: f(x) == x * x - 0.00000000000000000009 && df(x) == 2.0 * x
    ensures var s := Begin(0.0000000001, f(0.0000000001), 0.000000001);
            Simple(f, df, s.root) && Newton(f, df, s) && !Small(NextStep(f, df, s), 0.01, NextRoot(f, df, s))
  {
    var s := Begin(0.0000000001, f(0.0000000001), 0.000000001);
    assert f(0.0000000001) < 0.0 && s.root == 0.00000000055 && Abs(s.dxPrev) == 0.0000000009;
    var q := f(s.root) / df(s.root);
    assert f(s.root) == 0.0000000000000000002125 && df(s.root) == 0.0000000011;
    assert 0.00000000019 < q < 0.0000000002;
    PassIs(f, df, s);
  }

  /** How the search from s ends: at the first pass that converges, or out of passes. */
  ghost predicate Ended(f: real -> real, df: real -> real, a: real, b: real, tol: real, s: Search, maxIter: nat, root: real, fail: bool, passes: nat)
    requires SimpleRoots(f, df, a, b) && Sound(f, s, a, b)
  {
    && passes <= maxIter && (forall k | 0 <= k < passes :: !Converged(f, df, tol, After(f, df, a, b, s, k)))
    && (fail <==> passes == maxIter) && (!fail ==> Converged(f, df, tol, After(f, df, a, b, s, passes)))
    && root == if fail then After(f, df, a, b, s, passes).root else NextRoot(f, df, After(f, df, a, b, s, passes))
  }

  /** The step of one pass. */
  method OnePass(f: real -> real, df: real -> real, x1: real, x2: real, root: real, y: real, dy: real, dxPrev: real, ghost s: Search) returns (root': real, dx': real)
    requires Simple(f, df, s.root) && s.x1 == x1 && s.x2 == x2 && s.root == root && s.dxPrev == dxPrev && y == f(root) && dy == df(root)
    ensures root' == NextRoot(f, df, s) && dx' == NextStep(f, df, s)
  {
    if Bisects(root, x1, x2, y, dy, dxPrev) {
      dx' := (x2 - x1) * 0.5;
      root' := x1 + dx';
    } else {
      DividesByZeroIff(root, x1, x2, y, dxPrev);
      dx' := y / dy;
      root' := root - dx';
    }
  }

  /** What a search between ends of different sign promises. */
  ghost predicate Searched(f: real -> real, df: real -> real, a: real, b: real, tol: real, maxIter: nat, root: real, fail: bool, passes: nat)
    requires SimpleRoots(f, df, a, b)
  {
    var s := Begin(a, f(a), b);
    && Sound(f, s, a, b) && Ended(f, df, a, b, tol, s, maxIter, root, fail, passes)
    && Relative(f, df, a, b, tol, s, root, fail, passes)
  }

  /** f and df stand for the function object; y1 and y2 are its values at the ends; passes counts those that did not converge. */
  method FindRootBetween(f: real -> real, df: real -> real, a: real, y1: real, b: real, y2: real, tol: real, maxIter: nat)
    returns (root: real, fail: bool, ghost passes: nat)
    requires SimpleRoots(f, df, a, b) && y1 == f(a) && y2 == f(b)
    ensures (y1 > 0.0 && y2 > 0.0) || (y1 < 0.0 && y2 < 0.0) ==> fail
    ensures y1 == 0.0 ==> !fail && root == a
    ensures y1 != 0.0 && y2 == 0.0 ==> !fail && root == b
    ensures (y1 < 0.0 < y2) || (y2 < 0.0 < y1) ==> Searched(f, df, a, b, tol, maxIter, root, fail, passes)
    ensures !fail ==> Between(root, a, b)
  {
    passes := 0;
    if (y1 > 0.0 && y2 > 0.0) || (y1 < 0.0 && y2 < 0.0) {
      return 0.0, true, passes;
    }
    if y1 == 0.0 { return a, false, passes; }
    if y2 == 0.0 { return b, false, passes; }
    var x1, x2 := a, b;
    if y1 > 0.0 { x1, x2 := x2, x1; }
    BeginSound(f, a, b);
    root, fail, passes := Narrow(f, df, x1, x2, tol, maxIter, a, b, Begin(a, y1, b));
    EndedRelative(f, df, a, b, tol, Begin(a, y1, b), maxIter, root, fail, passes);
  }

  /** The loop. */
  method Narrow(f: real -> real, df: real -> real, x1_: real, x2_: real, tol: real, maxIter: nat, ghost a: real, ghost b: real, ghost s: Search)
    returns (root: real, fail: bool, ghost passes: nat)
    requires SimpleRoots(f, df, a, b) && Sound(f, s, a, b) && s == Search(x1_, x2_, (x1_ + x2_) * 0.5, Abs(x2_ - x1_), Abs(x2_ - x1_))
    ensures Ended(f, df, a, b, tol, s, maxIter, root, fail, passes) && (!fail ==> Between(root, a, b))
  {
    hide NextStep, NextRoot, SimpleRoots, Sound, Bisects, Mul;
    var x1, x2 := x1_, x2_;
    root := (x1 + x2) * 0.5;
    var dxPrev := Abs(x2 - x1);
    var dx := dxPrev;
    var y, dy := f(root), df(root);
    var iter := 0;
    passes := 0;
    while iter < maxIter
      invariant 0 <= iter <= maxIter && passes == iter && Search(x1, x2, root, dxPrev, dx) == After(f, df, a, b, s, iter)
      invariant y == f(root) && dy == df(root) && forall k | 0 <= k < iter :: !Converged(f, df, tol, After(f, df, a, b, s, k))
    {
      ghost var now := After(f, df, a, b, s, iter);
      ResultInside(f, df, now, a, b);
      var step;
      root, step := OnePass(f, df, x1, x2, root, y, dy, dxPrev, now);
      dxPrev, dx := dx, step;
      if Abs(dx) <= Mul(tol, Abs(root)) {
        return root, false, passes;
      }
      y, dy := f(root), df(root);
      if y < 0.0 { x1 := root; } else { x2 := root; }
      iter, passes := iter + 1, passes + 1;
    }
    fail := true;
  }

  lemma ResultInside(f: real -> real, df: real -> real, s: Search, a: real, b: real)
    requires Simple(f, df, s.root) && Sound(f, s, a, b)
    ensures Between(NextRoot(f, df, s), a, b)
  {
    StepInside(f, df, s);
    hide NextRoot;
  }

  /** The overload that evaluates the ends itself. */
  method FindRootIn(f: real -> real, df: real -> real, a: real, b: real, tol: real, maxIter: nat) returns (root: real, fail: bool, ghost passes: nat)
    requires SimpleRoots(f, df, a, b)
    ensures (f(a) > 0.0 && f(b) > 0.0) || (f(a) < 0.0 && f(b) < 0.0) ==> fail
    ensures f(a) == 0.0 ==> !fail && root == a
    ensures f(a) != 0.0 && f(b) == 0.0 ==> !fail && root == b
    ensures (f(a) < 0.0 < f(b)) || (f(b) < 0.0 < f(a)) ==> Searched(f, df, a, b, tol, maxIter, root, fail, passes)
    ensures !fail ==> Between(root, a, b)
  {
    var y1, y2 := f(a), f(b);
    root, fail, passes := FindRootBetween(f, df, a, y1, b, y2, tol, maxIter);
  }

  /** Differences to points on either side, scaled alike, have a product that is not positive. */
  lemma EitherSide(a: real, b: real, dy: real)
    requires (a <= 0.0 <= b) || (b <= 0.0 <= a)
    ensures Mul(Mul(a, dy), Mul(b, dy)) <= 0.0
  {
    var p, q := Abs(a), Abs(b);
    NonNegativeTimes(p, q);
    var d := Abs(dy);
    assert Mul(a, b) == -Mul(p, q) && Mul(d, d) == Mul(dy, dy);
    NonNegativeTimes(d, d);
    NonNegativeTimes(Mul(p, q), Mul(d, d));
    assert Mul(Mul(a, dy), Mul(b, dy)) == Mul(Mul(a, b), Mul(dy, dy));
    Signs(Mul(p, q), Mul(d, d));
  }

  /** A zero is returned by the next pass, for any tolerance that is not negative. */
  lemma ZeroIsReturned(f: real -> real, df: real -> real, tol: real, s: Search)
    requires Simple(f, df, s.root) && f(s.root) == 0.0 && Between(s.root, s.x1, s.x2) && tol >= 0.0
    ensures NextRoot(f, df, s) == s.root && Converged(f, df, tol, s)
  {
    var dy := df(s.root);
    EitherSide(s.root - s.x2, s.root - s.x1, dy);
    assert 0.0 / dy == 0.0;
    NonNegativeTimes(tol, Abs(s.root));
  }

  /** So the search never passes by a zero: once the point evaluated is one, it ends there. */
  lemma ZeroEndsSearch(f: real -> real, df: real -> real, a: real, b: real, tol: real, s: Search, maxIter: nat, root: real, fail: bool, passes: nat, k: nat)
    requires SimpleRoots(f, df, a, b) && Sound(f, s, a, b) && Ended(f, df, a, b, tol, s, maxIter, root, fail, passes) && tol >= 0.0
    requires k <= passes && k < maxIter && f(After(f, df, a, b, s, k).root) == 0.0
    ensures !fail && passes == k && root == After(f, df, a, b, s, k).root
  {
    ZeroIsReturned(f, df, tol, After(f, df, a, b, s, k));
    hide After, NextRoot, NextStep, Converged, SimpleRoots, Sound;
  }

  /** After a bisection the sign change is no farther from the result than the step. */
  lemma BisectionClose(x1: real, x2: real, root: real, dx: real, x: real)
    requires dx == (x2 - x1) * 0.5 && root == x1 + dx && Between(x, x1, x2)
    ensures Abs(x - root) <= Abs(dx)
  {}
}

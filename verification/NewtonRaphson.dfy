/** Newton-Raphson on a system of equations, each step solved by LU decomposition. */
module NewtonRaphson {
  import opened Sums
  import opened Matrices
  import opened DenseLu
  import opened LuSingular

  /** A system of n equations and its jacobian; evaluating it may fail. */
  datatype System = System(n: nat, f: seq<real> -> seq<real>, jac: seq<real> -> Mat, fails: seq<real> -> bool) {
    ghost predicate Valid() { forall x: seq<real> | |x| == n :: |f(x)| == n && Square(jac(x), n) }
  }

  /** The step p from x was solved from the factors of the jacobian at x. */
  ghost predicate NewtonStep(sys: System, x: seq<real>, p: seq<real>, tiny: seq<bool>)
    requires sys.Valid() && |x| == sys.n
  {
    && |p| == |tiny| == sys.n
    && exists m: Mat, index: seq<nat>, b: seq<real> ::
         Between(m, sys.jac(x), sys.n, index, tiny) && |index| == sys.n && Negated(b, sys.f(x)) && Solves(m, index, p, b)
  }

  ghost predicate Negated(b: seq<real>, f: seq<real>) { |b| == |f| && forall i | 0 <= i < |b| :: b[i] == -f[i] }

  ghost predicate Added(x': seq<real>, x: seq<real>, p: seq<real>) {
    |x'| == |x| == |p| && forall i | 0 <= i < |x| :: x'[i] == x[i] + p[i]
  }

  /** Every component of the step is within the tolerance, relative to x. */
  ghost predicate Within(p: seq<real>, x: seq<real>, tol: real) {
    |p| == |x| && forall i | 0 <= i < |x| :: Under(p[i], x[i], tol)
  }
  predicate Under(p: real, x: real, tol: real) { Abs(p) <= Abs(x) * tol }

  /** Where the jacobian is not singular the step satisfies J(x) p == -f(x) exactly. */
  lemma {:induction false} StepExact(sys: System, x: seq<real>, p: seq<real>, tiny: seq<bool>, r: nat)
    requires sys.Valid() && |x| == sys.n && NewtonStep(sys, x, p, tiny) && !Singular(sys.jac(x), sys.n) && r < sys.n
    ensures Entry(sys.jac(x), r, p) == -sys.f(x)[r]
  {
    var m: Mat, index: seq<nat>, b: seq<real> :|
      Between(m, sys.jac(x), sys.n, index, tiny) && |index| == sys.n && Negated(b, sys.f(x)) && Solves(m, index, p, b);
    RegularIsSolved(m, sys.jac(x), sys.n, index, tiny, p, b, r);
  }

  lemma ValidAt(sys: System, x: seq<real>)
    requires sys.Valid() && |x| == sys.n
    ensures |sys.f(x)| == sys.n && Square(sys.jac(x), sys.n)
  {}

  method LoadMatrix(n: nat, m: Mat, fjac: array2<real>)
    requires n == fjac.Length0 == fjac.Length1 && Square(m, n)
    modifies fjac
    ensures Rows(fjac) == m
  {
    forall i, j | 0 <= i < n && 0 <= j < n { fjac[i, j] := m[i][j]; }
    forall i | 0 <= i < n ensures Rows(fjac)[i] == m[i] {}
  }

  /** The right-hand side. */
  method LoadNegated(n: nat, f: seq<real>, p: array<real>)
    requires |f| == n == p.Length
    modifies p
    ensures Negated(p[..], f)
  {
    var i := 0;
    while i < n
      invariant 0 <= i <= n && forall k | 0 <= k < i :: p[k] == -f[k]
    {
      p[i] := -f[i];
      i := i + 1;
    }
  }

  /** Factor a and solve for p in place. */
  method FactorAndSolve(a: array2<real>, n: nat, index: array<nat>, p: array<real>, scale: array<real>)
    returns (ok: bool, ghost tiny: seq<bool>)
    requires n == a.Length0 == a.Length1 == p.Length == index.Length == scale.Length && p != scale
    modifies a, index, p, scale
    ensures ok ==> |tiny| == n && Between(Rows(a), old(Rows(a)), n, index[..], tiny) && Solves(Rows(a), index[..], p[..], old(p[..]))
    ensures !ok ==> exists i | 0 <= i < n :: !NonZeroRow(old(Rows(a)), i)
  {
    ghost var b := p[..];
    ghost var s;
    ok, tiny, s := LuDecomp(a, n, index, scale);
    if ok {
      assert p[..] == b;
      ghost var m := Rows(a);
      forall i | 0 <= i < n ensures a[i, i] != 0.0 { assert m[i][i] != 0.0; }
      LuSolve(a, n, index[..], p);
    }
  }

  /** Solve for the step; fails when a row of the jacobian is zero. */
  method Solve(sys: System, x: seq<real>, fjac: array2<real>, index: array<nat>, p: array<real>, scale: array<real>)
    returns (ok: bool, ghost tiny: seq<bool>)
    requires sys.Valid() && |x| == sys.n == fjac.Length0 == fjac.Length1 == p.Length == index.Length == scale.Length
    requires p != scale
    modifies fjac, index, p, scale
    ensures ok ==> NewtonStep(sys, x, p[..], tiny)
    ensures !ok ==> exists i | 0 <= i < sys.n :: !NonZeroRow(sys.jac(x), i)
  {
    ValidAt(sys, x);
    LoadMatrix(sys.n, sys.jac(x), fjac);
    LoadNegated(sys.n, sys.f(x), p);
    ghost var b := p[..];
    hide Between, Solves, NonZeroRow, Negated;
    ok, tiny := FactorAndSolve(fjac, sys.n, index, p, scale);
  }

  /** Take the step, noting whether all of it was within tolerance. */
  method Update(x: array<real>, p: array<real>, tol: real) returns (all: bool)
    requires x.Length == p.Length && x != p
    modifies x
    ensures Added(x[..], old(x[..]), p[..]) && (all <==> Within(p[..], old(x[..]), tol))
  {
    all := true;
    var i := 0;
    while i < x.Length
      invariant 0 <= i <= x.Length
      invariant forall k | 0 <= k < i :: x[k] == old(x[k]) + p[k]
      invariant forall k | i <= k < x.Length :: x[k] == old(x[k])
      invariant all <==> forall k | 0 <= k < i :: Under(p[k], old(x[k]), tol)
    {
      if !Under(p[i], x[i], tol) { all := false; }
      x[i] := x[i] + p[i];
      i := i + 1;
    }
  }

  /** The evaluation at x succeeded, and p is the step taken from x to x'. */
  ghost predicate Taken(sys: System, x: seq<real>, p: seq<real>, x': seq<real>)
    requires sys.Valid() && |x| == sys.n
  {
    !sys.fails(x) && Added(x', x, p) && exists tiny: seq<bool> :: NewtonStep(sys, x, p, tiny)
  }

  /** The iterates xs and the steps ps between them; no step but perhaps the last is within tolerance. */
  ghost predicate Run(sys: System, xs: seq<seq<real>>, ps: seq<seq<real>>, tol: real)
    requires sys.Valid()
  {
    && |xs| == |ps| + 1 && (forall k | 0 <= k < |xs| :: |xs[k]| == sys.n) && (forall k | 0 <= k < |ps| :: |ps[k]| == sys.n)
    && (forall k | 0 <= k < |ps| :: Taken(sys, xs[k], ps[k], xs[k + 1]))
    && (forall k | 0 <= k < |ps| - 1 :: !Within(ps[k], xs[k], tol))
  }

  lemma {:induction false} RunNext(sys: System, xs: seq<seq<real>>, ps: seq<seq<real>>, tol: real, p: seq<real>, tiny: seq<bool>, x': seq<real>)
    requires sys.Valid() && Run(sys, xs, ps, tol) && !sys.fails(xs[|ps|]) && NewtonStep(sys, xs[|ps|], p, tiny) && Added(x', xs[|ps|], p)
    requires forall k | 0 <= k < |ps| :: !Within(ps[k], xs[k], tol)
    ensures Run(sys, xs + [x'], ps + [p], tol)
  {
    hide Within, NewtonStep;
    assert Taken(sys, xs[|ps|], p, x') by { hide Added; assert NewtonStep(sys, xs[|ps|], p, tiny); }
    hide Taken;
  }

  ghost predicate NoneWithin(xs: seq<seq<real>>, ps: seq<seq<real>>, tol: real)
    requires |xs| == |ps| + 1
  {
    forall k | 0 <= k < |ps| :: !Within(ps[k], xs[k], tol)
  }

  lemma {:induction false} NoneNext(xs: seq<seq<real>>, ps: seq<seq<real>>, tol: real, p: seq<real>, x': seq<real>)
    requires |xs| == |ps| + 1 && NoneWithin(xs, ps, tol) && !Within(p, xs[|ps|], tol)
    ensures NoneWithin(xs + [x'], ps + [p], tol)
  {
    hide Within;
  }

  /** Every component of the step p is at most tol times that of x, in size. */
  ghost predicate AllSmall(p: seq<real>, x: seq<real>, tol: real) {
    |p| == |x| && forall i | 0 <= i < |x| :: (if p[i] < 0.0 then -p[i] else p[i]) <= tol * (if x[i] < 0.0 then -x[i] else x[i])
  }

  lemma WithinIff(p: seq<real>, x: seq<real>, tol: real)
    ensures Within(p, x, tol) <==> AllSmall(p, x, tol)
  {
    if |p| == |x| {
      forall i | 0 <= i < |x| ensures Under(p[i], x[i], tol) <==> (if p[i] < 0.0 then -p[i] else p[i]) <= tol * (if x[i] < 0.0 then -x[i] else x[i]) {}
    }
  }

  /** Of the steps only the last of a success has all components small. */
  ghost predicate Paced(xs: seq<seq<real>>, ps: seq<seq<real>>, tol: real, done: bool)
    requires |xs| == |ps| + 1
  {
    && (done ==> |ps| > 0 && AllSmall(ps[|ps| - 1], xs[|ps| - 1], tol))
    && forall k | 0 <= k < (if done then |ps| - 1 else |ps|) :: !AllSmall(ps[k], xs[k], tol)
  }

  lemma PacedBy(sys: System, xs: seq<seq<real>>, ps: seq<seq<real>>, tol: real, done: bool)
    requires sys.Valid() && Run(sys, xs, ps, tol)
    requires if done then |ps| > 0 && Within(ps[|ps| - 1], xs[|ps| - 1], tol) else NoneWithin(xs, ps, tol)
    ensures Paced(xs, ps, tol, done)
  {
    forall k | 0 <= k < |ps| ensures Within(ps[k], xs[k], tol) <==> AllSmall(ps[k], xs[k], tol) { WithinIff(ps[k], xs[k], tol); }
    hide Within, AllSmall, Taken;
  }

  /** A return, or the failure thrown: by the evaluation, by luDecomp, or at the end. */
  datatype Outcome = Converged | EvalFailed | ZeroRow | IterationsExceeded

  /** newtonRaphson: stops at the first step within tolerance, or where the first failure is. */
  method NewtonRaphson(maxIter: nat, x: array<real>, sys: System, tol: real) returns (outcome: Outcome, ghost xs: seq<seq<real>>, ghost ps: seq<seq<real>>)
    requires sys.Valid() && x.Length == sys.n
    modifies x
    ensures Run(sys, xs, ps, tol) && xs[0] == old(x[..]) && xs[|ps|] == x[..] && |ps| <= maxIter
    ensures Paced(xs, ps, tol, outcome.Converged?)
    ensures outcome.EvalFailed? ==> |ps| < maxIter && sys.fails(x[..])
    ensures outcome.ZeroRow? ==> |ps| < maxIter && !sys.fails(x[..]) && exists i | 0 <= i < sys.n :: !NonZeroRow(sys.jac(x[..]), i)
    ensures outcome.IterationsExceeded? ==> |ps| == maxIter
  {
    hide Under, Added, NewtonStep, NonZeroRow, Between, Run, NoneWithin, Within, Paced;
    var n := sys.n;
    var fjac, index, p, scale := new real[n, n], new nat[n], new real[n], new real[n];
    ghost var start := x[..];
    xs, ps := [start], [];
    ItersStart(sys, start, tol);
    hide Iters;
    var k := 0;
    while k < maxIter
      invariant 0 <= k <= maxIter && Iters(sys, xs, ps, tol, start, x[..], k)
    {
      ItersFacts(sys, xs, ps, tol, start, x[..], k);
      PacedBy(sys, xs, ps, tol, false);
      if sys.fails(x[..]) { return EvalFailed, xs, ps; }
      ghost var before := x[..];
      var solved, tiny := Solve(sys, x[..], fjac, index, p, scale);
      if !solved { return ZeroRow, xs, ps; }
      var all := Update(x, p, tol);
      ItersNext(sys, xs, ps, tol, start, before, k, p[..], tiny, x[..]);
      xs, ps := xs + [x[..]], ps + [p[..]];
      if all {
        PacedBy(sys, xs, ps, tol, true);
        return Converged, xs, ps;
      }
      k := k + 1;
    }
    ItersFacts(sys, xs, ps, tol, start, x[..], k);
    PacedBy(sys, xs, ps, tol, false);
    outcome := IterationsExceeded;
  }

  /** After k steps from start, none within tolerance, the iterate is x. */
  ghost predicate Iters(sys: System, xs: seq<seq<real>>, ps: seq<seq<real>>, tol: real, start: seq<real>, x: seq<real>, k: nat)
    requires sys.Valid()
  {
    Run(sys, xs, ps, tol) && NoneWithin(xs, ps, tol) && |ps| == k && xs[0] == start && xs[k] == x
  }

  lemma ItersStart(sys: System, start: seq<real>, tol: real)
    requires sys.Valid() && |start| == sys.n
    ensures Iters(sys, [start], [], tol, start, start, 0)
  {}

  lemma ItersFacts(sys: System, xs: seq<seq<real>>, ps: seq<seq<real>>, tol: real, start: seq<real>, x: seq<real>, k: nat)
    requires sys.Valid() && Iters(sys, xs, ps, tol, start, x, k)
    ensures |ps| == k && |xs| == k + 1 && |x| == sys.n && Run(sys, xs, ps, tol) && NoneWithin(xs, ps, tol) && xs[0] == start && xs[k] == x
  {}

  /** One more step; unless it is within tolerance, the iteration goes on. */
  lemma ItersNext(sys: System, xs: seq<seq<real>>, ps: seq<seq<real>>, tol: real, start: seq<real>, x: seq<real>, k: nat,
                  p: seq<real>, tiny: seq<bool>, x': seq<real>)
    requires sys.Valid() && Iters(sys, xs, ps, tol, start, x, k) && |x| == sys.n
    requires !sys.fails(x) && NewtonStep(sys, x, p, tiny) && Added(x', x, p)
    ensures var ps', xs' := ps + [p], xs + [x'];
            Run(sys, xs', ps', tol) && |xs'| == |ps'| + 1 == k + 2 && xs'[0] == start && xs'[k + 1] == x' && ps'[k] == p && xs'[k] == x
            && (!Within(p, x, tol) ==> Iters(sys, xs', ps', tol, start, x', k + 1))
  {
    hide Within, NewtonStep, Added, Taken;
    RunNext(sys, xs, ps, tol, p, tiny, x');
    if !Within(p, x, tol) { NoneNext(xs, ps, tol, p, x'); }
  }
}

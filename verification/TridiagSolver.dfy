/** The eigen-solver itself: shifts, sweeps, levels and the final sort, on the arrays. */
module TridiagSolver {
  import opened Sums
  import opened Matrices
  import opened Forms
  import opened TridiagEv
  import opened Permutations

  // ---- one step on the arrays ----------------------------------------------------------------

  lemma DivideTimes(f: real, r: real)
    requires r != 0.0
    ensures Times(f / r, r, f)
  {}

  ghost predicate Root(r: real, f: real, g: real) { r >= 0.0 && Sq(r) == Sq(f) + Sq(g) }

  function Radius(sqrt: real -> real, f: real, g: real): real { sqrt(f * f + g * g) }

  lemma RootOf(sqrt: real -> real, f: real, g: real)
    requires IsSqrt(sqrt)
    ensures Root(Radius(sqrt, f, g), f, g)
  {
    SquareSign(f);
    SquareSign(g);
    var x := Sq(f) + Sq(g);
    assert sqrt(x) * sqrt(x) == x;
  }

  lemma Breaks(r: real, f: real, g: real)
    requires Root(r, f, g)
    ensures r == 0.0 <==> f == 0.0 && g == 0.0
  {
    SquareSign(f);
    SquareSign(g);
    SquareSign(r);
    hide Sq;
  }

  lemma TurnedBy(f: real, g: real, r: real)
    requires Root(r, f, g) && r != 0.0
    ensures Turned(f, g, r, f / r, g / r)
  {
    DivideTimes(f, r);
    DivideTimes(g, r);
    hide Times;
  }

  /** The shift and the entry that the turned corner leaves. */
  method TurnCorner(d1: real, d2: real, b: real, s: real, c: real) returns (p: real, g: real)
    ensures Stored(d1, d2, b, s, c, p, g)
  {
    var r := (d2 - d1) * s + 2.0 * c * b;
    p := s * r;
    g := c * r - b;
  }

  /** One pass of the inner loop past the break: turn the plane (i - 1, i) by the direction of (f, g). */
  method TurnPlane(d: array<real>, e: array<real>, v: array2<real>, n: nat, i: nat, f: real, b: real, r: real, p: real, g: real)
    returns (s': real, c': real, p': real, g': real)
    requires 1 <= i < n == d.Length <= e.Length && v.Length0 == v.Length1 == n && d != e
    requires Root(r, f, g) && r != 0.0
    modifies d, v
    ensures Turned(f, g, r, s', c')
    ensures Stored(old(d[i - 1]) - p, old(d[i]), b, s', c', p', g')
    ensures d[..] == old(d[..])[i - 1 := old(d[i - 1]) - p + p']
    ensures Rotated(old(Rows(v)), Rows(v), n, i - 1, i, s', c')
  {
    hide Root, Turned, Stored, Rotated;
    s', c' := f / r, g / r;
    TurnedBy(f, g, r);
    p', g' := TurnCorner(d[i - 1] - p, d[i], b, s', c');
    d[i - 1] := d[i - 1] - p + p';
    TurnRows(v, n, i, s', c');
  }

  // ---- a sweep -------------------------------------------------------------------------------

  ghost function Trace(d: seq<real>): real { Sum(k => At(d, k), |d|) }

  lemma {:induction false} TraceUpdate(d: seq<real>, k: nat, x: real)
    requires k < |d|
    ensures Trace(d[k := x]) == Trace(d) - d[k] + x
  {
    SumOne(j => At(d, j), j => At(d[k := x], j), k, |d|);
  }

  /** Mid-sweep: v is orthogonal, v A v' is the bulged block above a finished tail, and p is still owed to the trace. */
  ghost predicate Sweeping(A: Matrix, v: Mat, n: nat, d: seq<real>, e: seq<real>, h: int, w: Sweep, total: real) {
    Ortho(v, n) && OrthoColumns(v, n) && Bulged(A, v, d, e, h, w) && Tail(A, v, n, d, h) && Trace(d) == total + w.p
  }

  /** Between sweeps: v is orthogonal and v A v' is the tridiagonal block of d and e above a finished tail. */
  ghost predicate Sound(A: Matrix, v: Mat, n: nat, d: seq<real>, e: seq<real>, h: int, total: real) {
    Ortho(v, n) && OrthoColumns(v, n) && Block(A, v, d, e, h) && Tail(A, v, n, d, h) && Trace(d) == total
  }

  lemma {:induction false} SweepAdvances(A: Matrix, v: Mat, v': Mat, n: nat, d: seq<real>, e: seq<real>, w: Sweep, d': seq<real>, e': seq<real>, w': Sweep, r: real, h: nat, total: real)
    requires Symmetric(A) && Sweeping(A, v, n, d, e, h, w, total) && Step(d, e, w, d', e', w', r) && w.i <= h < n == |d|
    requires Rotated(v, v', n, w.i - 1, w.i, w'.s, w'.c)
    ensures Sweeping(A, v', n, d', e', h, w', total)
  {
    assert w.i >= 1 && |d'| == n && forall j | h < j < n :: d'[j] == d[j];
    assert Trace(d') == total + w'.p by { TraceUpdate(d, w.i - 1, d[w.i - 1] - w.p + w'.p); }
    TurnUnit(Mul(w.s, e[w.i]), w.g, r, w'.s, w'.c);
    hide Step, Rotated, Ortho, OrthoColumns, Bulged, Tail, Trace, Unit, Turned, Stored;
    StepKeeps(A, v, v', n, d, e, w, d', e', w', r, h);
    OrthoKept(v, v', n, w.i - 1, w.i, w'.s, w'.c);
    ColumnsKept(v, v', n, w.i - 1, w.i, w'.s, w'.c);
    TailKept(A, v, v', n, d, d', w.i - 1, w.i, w'.s, w'.c, h);
  }

  lemma {:induction false} SweepStarts(A: Matrix, v: Mat, n: nat, d: seq<real>, e: seq<real>, h: int, g: real, total: real)
    requires Sound(A, v, n, d, e, h, total)
    ensures Sweeping(A, v, n, d, e, h, Sweep(1, 1.0, 1.0, 0.0, g), total)
  {
    hide Ortho, OrthoColumns, Bulged, Tail, Trace;
    SweepBegins(A, v, d, e, h, g);
  }

  lemma {:induction false} SweepCloses(A: Matrix, v: Mat, n: nat, d: seq<real>, e: seq<real>, h: nat, w: Sweep, total: real)
    requires Sweeping(A, v, n, d, e, h, w, total) && w.i == h + 1 && 1 <= h < n == |d| <= |e|
    ensures Sound(A, v, n, d[h := d[h] - w.p], e[h := w.g][0 := 0.0], h, total)
  {
    assert Tail(A, v, n, d[h := d[h] - w.p], h);
    hide Ortho, OrthoColumns, Bulged, Tail, Trace;
    SweepEnds(A, v, d, e, h, w);
    TraceUpdate(d, h, d[h] - w.p);
  }

  // ---- a zero radius -------------------------------------------------------------------------

  /** An off-diagonal zero strictly inside the block: no sweep can get past it. */
  ghost predicate Stuck(e: seq<real>, z: nat, h: nat) { 1 <= z < h < |e| && e[z] == 0.0 }

  /** The sweep has not yet met the zero, or met it and carries nothing on. */
  ghost predicate Jammed(e: seq<real>, z: nat, h: nat, w: Sweep) {
    Stuck(e, z, h) && (1 <= w.i <= z || (w.i == z + 1 && w.s == 0.0 && w.g == 0.0))
  }

  lemma ZeroTurn(g: real, r: real, s: real, c: real)
    requires Turned(0.0, g, r, s, c)
    ensures s == 0.0
  {
    CancelRight(s, 0.0, r);
  }

  lemma ZeroStored(d1: real, d2: real, c: real, p: real, g: real)
    requires Stored(d1, d2, 0.0, 0.0, c, p, g)
    ensures p == 0.0 && g == 0.0
  {}

  lemma ZeroMul(x: real)
    ensures Mul(x, 0.0) == 0.0 && Mul(0.0, x) == 0.0
  {}

  lemma JamAdvances(d: seq<real>, e: seq<real>, w: Sweep, d': seq<real>, e': seq<real>, w': Sweep, r: real, z: nat, h: nat)
    requires Jammed(e, z, h, w) && Step(d, e, w, d', e', w', r)
    ensures Jammed(e', z, h, w')
  {
    hide Mul, Turned, Stored;
    ZeroMul(w.s);
    ZeroMul(w.c);
    if w.i == z {
      ZeroTurn(w.g, r, w'.s, w'.c);
      ZeroStored(d[z - 1] - w.p, d[z], w'.c, w'.p, w'.g);
    } else if w.i == z + 1 {
      ZeroMul(e[w.i]);
      NoTurn(r, w'.s, w'.c);
    }
  }

  lemma NoTurn(r: real, s: real, c: real)
    ensures !Turned(0.0, 0.0, r, s, c)
  {
    SquareSign(r);
  }

  lemma UnitMul(x: real)
    ensures Mul(1.0, x) == x
  {}

  /** What a sweep is given: a sound state, or one with a zero inside, and a shifted first entry. */
  ghost predicate Ready(A: Matrix, v: Mat, n: nat, d: seq<real>, e: seq<real>, h: nat, g: real, total: real, z: nat) {
    && 1 <= h < n == |d| <= |e| && e[h] != 0.0
    && (if z == 0 then Sound(A, v, n, d, e, h, total) else Stuck(e, z, h))
    && (h == 1 ==> Shifted(d[0], d[1], e[1], g))
  }

  /** What a sweep leaves: it completes in a sound state, or breaks and leaves a zero inside and e[h] as it was. */
  ghost predicate Swept(ok: bool, A: Matrix, v: Mat, n: nat, d: seq<real>, e: seq<real>, h: nat, total: real, z: nat, z': nat, last: real) {
    && 1 <= h < |e| && (ok ==> z == 0 && Sound(A, v, n, d, e, h, total)) && (h == 1 ==> ok && e[1] == 0.0)
    && (!ok ==> z' > 0 && Stuck(e, z', h) && e[h] == last)
  }

  /** The loop invariant of a sweep: sound so far (z == 0), or jammed by the zero at z. */
  ghost predicate Running(A: Matrix, v: Mat, n: nat, d: seq<real>, e: seq<real>, h: nat, w: Sweep, total: real, z: nat, last: real) {
    && 1 <= w.i <= h + 1 <= n == |d| <= |e| && (w.i <= h ==> e[h] == last) && (w.i == 1 ==> w.s == 1.0)
    && (if z == 0 then Sweeping(A, v, n, d, e, h, w, total) else Jammed(e, z, h, w))
    && (h == 1 ==> if w.i == 1 then w.p == 0.0 && w.c == 1.0 && Shifted(d[0], d[1], e[1], w.g) else w.g == 0.0)
  }

  /** g == a - mu for an eigenvalue mu of the two-by-two matrix [a, e; e, b]. */
  ghost predicate Shifted(a: real, b: real, e: real, g: real) { g * (g + b - a) == e * e }

  /** r g', for g' as a step stores it, in terms of what was turned. */
  lemma StoredTimes(c: real, r: real, r2: real, e: real, g: real, x: real, g': real)
    requires Times(c, r, g) && Times(r2, r, x) && g' == c * r2 - e
    ensures Mul(g', Sq(r)) == Mul(g, x) - Mul(e, Sq(r))
  {
    assert (c * r2) * (r * r) == (c * r) * (r2 * r);
  }

  /** On an eigenvalue the two parts cancel. */
  lemma EigenvalueCancels(a: real, b: real, e: real, g: real)
    requires Shifted(a, b, e, g)
    ensures Mul(g, (b - a) * e + 2.0 * (g * e)) == Mul(e, Sq(e) + Sq(g))
  {
    assert g * (g + b - a) == g * g + g * (b - a);
    assert g * ((b - a) * e + 2.0 * (g * e)) == (g * (b - a) + 2.0 * (g * g)) * e;
  }

  lemma RadiusNotZero(f: real, g: real, r: real, s: real, c: real)
    requires Turned(f, g, r, s, c)
    ensures Sq(r) != 0.0 && Sq(r) == Sq(f) + Sq(g) && Times(s, r, f) && Times(c, r, g)
  {
    SquareSign(r);
  }

  /** A sweep of two rows started on an eigenvalue leaves nothing off the diagonal. */
  lemma ShiftedFolds(a: real, b: real, e: real, g: real, r: real, s: real, c: real, p': real, g': real)
    requires Shifted(a, b, e, g) && Turned(e, g, r, s, c) && Stored(a, b, e, s, c, p', g')
    ensures g' == 0.0
  {
    hide Shifted, Turned, Times, Sq, Mul;
    var r2, x := (b - a) * s + 2.0 * c * e, (b - a) * e + 2.0 * (g * e);
    RadiusNotZero(e, g, r, s, c);
    TimesSum(s, c, r, e, g, b - a, e, r2);
    StoredTimes(c, r, r2, e, g, x, g');
    EigenvalueCancels(a, b, e, g);
    ZeroOnly(g', Sq(r));
  }

  lemma ZeroOnly(x: real, y: real)
    requires Mul(x, y) == 0.0 && y != 0.0
    ensures x == 0.0
  {}

  lemma TimesSum(s: real, c: real, r: real, f: real, g: real, x: real, y: real, z: real)
    requires Times(s, r, f) && Times(c, r, g) && z == x * s + 2.0 * c * y
    ensures Times(z, r, x * f + 2.0 * (g * y))
  {
    assert (x * s) * r == x * (s * r);
    assert (2.0 * c * y) * r == 2.0 * ((c * r) * y);
  }

  lemma {:induction false} RunAdvances(A: Matrix, v: Mat, v': Mat, n: nat, d: seq<real>, e: seq<real>, w: Sweep, d': seq<real>, e': seq<real>, w': Sweep, r: real, h: nat, total: real, z: nat, last: real)
    requires Symmetric(A) && Running(A, v, n, d, e, h, w, total, z, last) && Step(d, e, w, d', e', w', r) && w.i <= h
    requires Rotated(v, v', n, w.i - 1, w.i, w'.s, w'.c)
    ensures Running(A, v', n, d', e', h, w', total, z, last)
  {
    hide Sweeping, Jammed, Rotated, Turned, Stored, Mul, Shifted;
    if z == 0 {
      SweepAdvances(A, v, v', n, d, e, w, d', e', w', r, h, total);
    } else {
      JamAdvances(d, e, w, d', e', w', r, z, h);
    }
    if h == 1 {
      UnitMul(e[1]);
      ShiftedFolds(d[0], d[1], e[1], w.g, r, w'.s, w'.c, w'.p, w'.g);
    }
  }

  /** A zero radius leaves a zero inside the block. */
  lemma {:induction false} RunBreaks(A: Matrix, v: Mat, n: nat, d: seq<real>, e: seq<real>, w: Sweep, h: nat, total: real, z: nat, last: real, v': Mat, d': seq<real>) returns (z': nat)
    requires Running(A, v, n, d, e, h, w, total, z, last) && w.i <= h && last != 0.0 && Mul(w.s, e[w.i]) == 0.0
    ensures Swept(false, A, v', n, d', e[w.i - 1 := 0.0][0 := 0.0], h, total, z, z', last)
  {
    hide Sweeping;
    z' := if w.i > 1 then w.i - 1 else if z == 0 then 1 else z;
    UnitMul(e[w.i]);
  }

  lemma {:induction false} RunStarts(A: Matrix, v: Mat, n: nat, d: seq<real>, e: seq<real>, h: nat, g: real, total: real, z: nat)
    requires Ready(A, v, n, d, e, h, g, total, z)
    ensures Running(A, v, n, d, e, h, Sweep(1, 1.0, 1.0, 0.0, g), total, z, e[h])
  {
    hide Sound, Sweeping, Shifted;
    if z == 0 { SweepStarts(A, v, n, d, e, h, g, total); }
  }

  lemma {:induction false} RunCloses(A: Matrix, v: Mat, n: nat, d: seq<real>, e: seq<real>, h: nat, w: Sweep, total: real, z: nat, last: real)
    requires Running(A, v, n, d, e, h, w, total, z, last) && w.i == h + 1 && 1 <= h < n
    ensures Swept(true, A, v, n, d[h := d[h] - w.p], e[h := w.g][0 := 0.0], h, total, z, 0, last)
  {
    hide Sweeping, Sound;
    SweepCloses(A, v, n, d, e, h, w, total);
  }

  // ---- the sweep as a trace of states --------------------------------------------------------

  /** The diagonal and couplings in mid-sweep, and where the sweep stands. */
  datatype Bulge = Bulge(d: seq<real>, e: seq<real>, w: Sweep)

  /** One turn, by a positive radius. */
  ghost predicate Turns(a: Bulge, b: Bulge) { exists r: real :: r > 0.0 && Step(a.d, a.e, a.w, b.d, b.e, b.w, r) }

  ghost predicate Chain(trace: seq<Bulge>) { |trace| > 0 && forall k | 0 <= k < |trace| - 1 :: Turns(trace[k], trace[k + 1]) }

  /** After the last plane: what is owed is paid, and the carried entry stored. */
  ghost predicate Closes(b: Bulge, h: nat, d': seq<real>, e': seq<real>) {
    b.w.i == h + 1 && h < |b.d| && h < |b.e| && d' == b.d[h := b.d[h] - b.w.p] && e' == b.e[h := b.w.g][0 := 0.0]
  }

  /** A zero radius: what is owed is paid, and the sweep ends there. */
  ghost predicate BreaksOff(b: Bulge, h: nat, d': seq<real>, e': seq<real>) {
    && 1 <= b.w.i <= h < |b.d| <= |b.e| && Mul(b.w.s, b.e[b.w.i]) == 0.0 && b.w.g == 0.0
    && d' == b.d[b.w.i - 1 := b.d[b.w.i - 1] - b.w.p] && e' == b.e[b.w.i - 1 := 0.0][0 := 0.0]
  }

  /** A sweep of rows 0..h with first entry g turns (d, e) into (d', e'). */
  ghost predicate Chased(d: seq<real>, e: seq<real>, h: nat, g: real, d': seq<real>, e': seq<real>) {
    exists trace: seq<Bulge> :: Chain(trace) && trace[0] == Bulge(d, e, Sweep(1, 1.0, 1.0, 0.0, g))
      && (Closes(trace[|trace| - 1], h, d', e') || BreaksOff(trace[|trace| - 1], h, d', e'))
  }

  lemma ChainOfOne(b: Bulge)
    ensures Chain([b])
  {}

  lemma ChainNext(trace: seq<Bulge>, b: Bulge)
    requires Chain(trace) && Turns(trace[|trace| - 1], b)
    ensures Chain(trace + [b])
  {
    hide Turns;
  }

  lemma ChasedBy(trace: seq<Bulge>, d: seq<real>, e: seq<real>, h: nat, g: real, d': seq<real>, e': seq<real>)
    requires Chain(trace) && trace[0] == Bulge(d, e, Sweep(1, 1.0, 1.0, 0.0, g))
    requires Closes(trace[|trace| - 1], h, d', e') || BreaksOff(trace[|trace| - 1], h, d', e')
    ensures Chased(d, e, h, g, d', e')
  {
    hide Chain, Closes, BreaksOff;
  }

  lemma TurnsBy(d: seq<real>, e: seq<real>, w: Sweep, d': seq<real>, e': seq<real>, w': Sweep, r: real, f: real, g: real)
    requires Step(d, e, w, d', e', w', r) && Root(r, f, g) && r != 0.0
    ensures Turns(Bulge(d, e, w), Bulge(d', e', w'))
  {
    hide Step;
  }

  /** One pass of the inner loop: turn a plane, or break on a zero radius. */
  method SweepStep(d: array<real>, e: array<real>, v: array2<real>, n: nat, h: nat, i: nat, s: real, c: real, p: real, g: real, sqrt: real -> real,
                   ghost A: Matrix, ghost total: real, ghost z: nat, ghost last: real)
    returns (go: bool, s': real, c': real, p': real, g': real, ghost z': nat)
    requires IsSqrt(sqrt) && Symmetric(A) && 1 <= i <= h < n == d.Length <= e.Length && v.Length0 == v.Length1 == n && d != e && last != 0.0
    requires Running(A, Rows(v), n, d[..], e[..], h, Sweep(i, s, c, p, g), total, z, last)
    modifies d, e, v
    ensures go ==> Running(A, Rows(v), n, d[..], e[..], h, Sweep(i + 1, s', c', p', g'), total, z, last)
    ensures !go ==> Swept(false, A, Rows(v), n, d[..], e[..], h, total, z, z', last)
    ensures go ==> Turns(Bulge(old(d[..]), old(e[..]), Sweep(i, s, c, p, g)), Bulge(d[..], e[..], Sweep(i + 1, s', c', p', g')))
    ensures !go ==> BreaksOff(Bulge(old(d[..]), old(e[..]), Sweep(i, s, c, p, g)), h, d[..], e[..])
  {
    hide Running, Sound, Radius, Root, IsSqrt, Mul, Stored, Turned, Rotated, Stuck, Symmetric, Rows, Swept, Turns;
    ghost var d1, e1, v1, w := d[..], e[..], Rows(v), Sweep(i, s, c, p, g);
    var f, b := Mul(s, e[i]), Mul(c, e[i]);
    var r := Radius(sqrt, f, g);
    RootOf(sqrt, f, g);
    e[i - 1] := r;
    s', c', p', g', z' := s, c, p, g, z;
    if r == 0.0 {
      d[i - 1] := d[i - 1] - p;
      e[0] := 0.0;
      Breaks(r, f, g);
      z' := RunBreaks(A, v1, n, d1, e1, w, h, total, z, last, Rows(v), d[..]);
      go := false;
    } else {
      s', c', p', g' := TurnPlane(d, e, v, n, i, f, b, r, p, g);
      RunAdvances(A, v1, Rows(v), n, d1, e1, w, d[..], e[..], Sweep(i + 1, s', c', p', g'), r, h, total, z, last);
      TurnsBy(d1, e1, w, d[..], e[..], Sweep(i + 1, s', c', p', g'), r, f, g);
      go := true;
    }
  }

  /** What a completed sweep writes last. */
  method Settle(d: array<real>, e: array<real>, h: nat, p: real, g: real)
    requires h < d.Length && h < e.Length && d != e
    modifies d, e
    ensures d[..] == old(d[..])[h := old(d[h]) - p] && e[..] == old(e[..])[h := g][0 := 0.0]
  {
    d[h] := d[h] - p;
    e[h] := g;
    e[0] := 0.0;
  }

  /** A sweep of the rows 0..h with first entry g0: it completes, or breaks on a zero radius. */
  method ChaseBulge(d: array<real>, e: array<real>, v: array2<real>, n: nat, h: nat, g0: real, sqrt: real -> real, ghost A: Matrix, ghost total: real, ghost z: nat)
    returns (ok: bool, ghost z': nat)
    requires IsSqrt(sqrt) && Symmetric(A) && 1 <= h < n == d.Length <= e.Length && v.Length0 == v.Length1 == n && d != e
    requires e[h] != 0.0 && Ready(A, Rows(v), n, d[..], e[..], h, g0, total, z)
    modifies d, e, v
    ensures Swept(ok, A, Rows(v), n, d[..], e[..], h, total, z, z', old(e[h]))
    ensures Chased(old(d[..]), old(e[..]), h, g0, d[..], e[..])
  {
    hide Running, IsSqrt, Symmetric, Rows, Swept, Ready, Turns, Chain, Chased;
    var s, c, p, g := 1.0, 1.0, 0.0, g0;
    var i := 1;
    ghost var last := e[h];
    ghost var d0, e0 := d[..], e[..];
    ghost var trace := [Bulge(d0, e0, Sweep(1, s, c, p, g))];
    ChainOfOne(trace[0]);
    RunStarts(A, Rows(v), n, d[..], e[..], h, g, total, z);
    while i <= h
      invariant 1 <= i <= h + 1 && Running(A, Rows(v), n, d[..], e[..], h, Sweep(i, s, c, p, g), total, z, last)
      invariant |trace| > 0 && Chain(trace) && trace[0] == Bulge(d0, e0, Sweep(1, 1.0, 1.0, 0.0, g0))
      invariant trace[|trace| - 1] == Bulge(d[..], e[..], Sweep(i, s, c, p, g))
    {
      ok, s, c, p, g, z' := SweepStep(d, e, v, n, h, i, s, c, p, g, sqrt, A, total, z, last);
      if !ok {
        ChasedBy(trace, d0, e0, h, g0, d[..], e[..]);
        return;
      }
      ChainNext(trace, Bulge(d[..], e[..], Sweep(i + 1, s, c, p, g)));
      trace := trace + [Bulge(d[..], e[..], Sweep(i + 1, s, c, p, g))];
      i := i + 1;
    }
    RunCloses(A, Rows(v), n, d[..], e[..], h, Sweep(i, s, c, p, g), total, z, last);
    Settle(d, e, h, p, g);
    ChasedBy(trace, d0, e0, h, g0, d[..], e[..]);
    ok, z' := true, 0;
  }

  // ---- the shift -----------------------------------------------------------------------------

  /** b - t is an eigenvalue of [a, e; e, b], and the one nearer to b. */
  ghost predicate Wilkinson(a: real, b: real, e: real, t: real) {
    t * (t + a - b) == e * e && Sq(t) <= Sq(e)
  }

  /** The one shift: of two eigenvalues as near to b, t == e picks. */
  ghost predicate Nearest(a: real, b: real, e: real, t: real) { Wilkinson(a, b, e, t) && (a == b ==> t == e) }

  /** q is the root of q^2 - 2 g q - 1 of larger size. */
  ghost predicate LargeRoot(g: real, q: real) { Sq(q) == 2.0 * (g * q) + 1.0 && Sq(q) >= 1.0 }

  lemma LargeRootOf(g: real, r: real)
    requires r >= 0.0 && Sq(r) == 1.0 + Sq(g)
    ensures var q := g + (if g < 0.0 then -r else r); LargeRoot(g, q) && q != 0.0
  {
    var q := g + (if g < 0.0 then -r else r);
    SquareSign(q);
    if g < 0.0 {
      assert g * q == Sq(g) + (-g) * r;
    } else {
      assert g * q == Sq(g) + g * r;
    }
    SquareSign(g);
  }

  lemma ShiftNumerator(e: real, g: real, q: real, x: real)
    requires LargeRoot(g, q) && Times(g, 2.0 * e, x)
    ensures e * (x * q + e) == (e * e) * (q * q)
  {
    assert x * q == 2.0 * e * (g * q);
    assert e * (x * q + e) == e * e * (2.0 * (g * q) + 1.0);
  }

  lemma ShiftScaled(t: real, x: real, q: real, e: real)
    requires Times(t, q, e)
    ensures (t * (t + x)) * (q * q) == e * (x * q + e)
  {
    assert (t * (t + x)) * (q * q) == (t * q) * (t * q + x * q);
  }

  lemma ShiftIsWilkinson(a: real, b: real, e: real, g: real, q: real, t: real)
    requires Times(g, 2.0 * e, a - b) && LargeRoot(g, q) && Times(t, q, e) && q != 0.0
    ensures Wilkinson(a, b, e, t)
  {
    ShiftNumerator(e, g, q, a - b);
    ShiftScaled(t, a - b, q, e);
    SquareSign(q);
    CancelRight(t * (t + (a - b)), e * e, q * q);
    ShiftSmall(t, q, e);
  }

  lemma ShiftSmall(t: real, q: real, e: real)
    requires Times(t, q, e) && Sq(q) >= 1.0
    ensures Sq(t) <= Sq(e)
  {
    SquareTimes(t, q, e);
    SquareSign(t);
    assert Sq(e) == Sq(t) + Sq(t) * (Sq(q) - 1.0);
    Grows(Sq(t), Sq(q) - 1.0);
  }

  lemma Grows(x: real, y: real)
    requires x >= 0.0 && y >= 0.0
    ensures x * y >= 0.0
  {}

  /** The first entry of a sweep of rows 0..h: d[0] less the Wilkinson shift d[h] - t. */
  method Shift(d0: real, a: real, b: real, e: real, sqrt: real -> real) returns (g: real, ghost t: real)
    requires IsSqrt(sqrt) && e != 0.0
    ensures g == d0 - b + t && Nearest(a, b, e, t)
  {
    var g0 := (a - b) / (2.0 * e);
    DivideTimes(a - b, 2.0 * e);
    SquareSign(g0);
    var r := sqrt(1.0 + g0 * g0);
    LargeRootOf(g0, r);
    var q := g0 + (if g0 < 0.0 then -r else r);
    assert a == b ==> g0 == 0.0 && r == 1.0 by { if a == b { RootOfOne(r, g0, 2.0 * e); } }
    hide Wilkinson, LargeRoot, Times, IsSqrt, Sq;
    DivideTimes(e, q);
    ShiftIsWilkinson(a, b, e, g0, q, e / q);
    g, t := d0 - b + e / q, e / q;
  }

  lemma RootOfOne(r: real, g: real, e2: real)
    requires Times(g, e2, 0.0) && e2 != 0.0 && r >= 0.0 && Sq(r) == 1.0 + Sq(g)
    ensures g == 0.0 && r == 1.0
  {
    ZeroOnly(g, e2);
    assert Mul(r - 1.0, r + 1.0) == Sq(r) - 1.0;
    ZeroOnly(r - 1.0, r + 1.0);
  }

  lemma ShiftedOf(a: real, b: real, e: real, t: real)
    requires Wilkinson(a, b, e, t)
    ensures Shifted(a, b, e, a - b + t)
  {
    assert (a - b + t) * ((a - b + t) + b - a) == t * (t + a - b);
  }

  // ---- the sweeps of a level -----------------------------------------------------------------

  /** One sweep of rows 0..h, shifted, turns (d, e) into (d', e'). */
  ghost predicate Sweeps(d: seq<real>, e: seq<real>, h: nat, d': seq<real>, e': seq<real>) {
    exists t: real :: SweepsBy(d, e, h, t, d', e')
  }

  ghost predicate SweepsBy(d: seq<real>, e: seq<real>, h: nat, t: real, d': seq<real>, e': seq<real>) {
    1 <= h < |d| <= |e| && Nearest(d[h - 1], d[h], e[h], t) && Chased(d, e, h, d[0] - d[h] + t, d', e')
  }

  /** Not within 1e-18 of zero. */
  predicate Over(x: real) { x > 0.000000000000000001 || x < -0.000000000000000001 }

  /** The diagonals and couplings before the first and after each sweep of level h. */
  datatype Level = Level(h: nat, ds: seq<seq<real>>, es: seq<seq<real>>) {
    ghost predicate Worked() {
      && |ds| == |es| > 0 && (forall k | 0 <= k < |es| :: 1 <= h < |es[k]|)
      && (forall k | 0 <= k < |ds| - 1 :: Over(es[k][h]) && Sweeps(ds[k], es[k], h, ds[k + 1], es[k + 1]))
    }

    ghost predicate Ends(d: seq<real>, e: seq<real>) { |ds| == |es| > 0 && ds[|ds| - 1] == d && es[|es| - 1] == e }

    /** The coupling is within tolerance after at most twenty sweeps. */
    ghost predicate Done() { 1 <= |es| <= 21 && h < |es[|es| - 1]| && !Over(es[|es| - 1][h]) }

    /** Twenty sweeps were made and the coupling is over the tolerance still. */
    ghost predicate GaveUp() { |es| == 21 && h < |es[20]| && Over(es[20][h]) }
  }

  lemma LevelStarts(h: nat, d: seq<real>, e: seq<real>)
    requires 1 <= h < |e|
    ensures Level(h, [d], [e]).Worked() && Level(h, [d], [e]).Ends(d, e)
  {}

  lemma LevelNext(l: Level, d: seq<real>, e: seq<real>, t: real, d': seq<real>, e': seq<real>)
    requires l.Worked() && l.Ends(d, e) && |d| <= |e| && l.h < |d| && l.h < |e'| && Over(e[l.h])
    requires Nearest(d[l.h - 1], d[l.h], e[l.h], t) && Chased(d, e, l.h, d[0] - d[l.h] + t, d', e')
    ensures var l' := Level(l.h, l.ds + [d'], l.es + [e']); l'.Worked() && l'.Ends(d', e')
  {
    hide Nearest, Chased, Over;
    assert SweepsBy(d, e, l.h, t, d', e');
    assert Sweeps(d, e, l.h, d', e');
    hide Sweeps;
  }

  // ---- a sweep has one result ----------------------------------------------------------------

  lemma NearestUnique(a: real, b: real, e: real, t: real, u: real)
    requires Nearest(a, b, e, t) && Nearest(a, b, e, u) && e != 0.0
    ensures t == u
  {
    if t != u {
      TwoRoots(t, u, a - b, e);
      OppositeRoots(t, u, e);
    }
  }

  /** Two roots of t^2 + x t - e^2 add up to -x and multiply to -e^2. */
  lemma TwoRoots(t: real, u: real, x: real, e: real)
    requires t * (t + x) == e * e && u * (u + x) == e * e && t != u
    ensures t + u == -x && Mul(t, u) == -Sq(e)
  {
    assert Mul(t - u, t + u + x) == t * (t + x) - u * (u + x);
    ZeroOnly(t + u + x, t - u);
    assert t + x == -u;
  }

  /** If neither is larger than e they are e and -e. */
  lemma OppositeRoots(t: real, u: real, e: real)
    requires Mul(t, u) == -Sq(e) && Sq(t) <= Sq(e) && Sq(u) <= Sq(e)
    ensures t + u == 0.0
  {
    assert Sq(t + u) == Sq(t) + Sq(u) - 2.0 * Sq(e);
    SquareSign(t + u);
  }

  lemma RadiusUnique(r: real, q: real)
    requires r > 0.0 && q > 0.0 && r * r == q * q
    ensures r == q
  {
    assert Mul(r - q, r + q) == r * r - q * q;
    ZeroOnly(r - q, r + q);
  }

  lemma TurnedUnique(f: real, g: real, r: real, s: real, c: real, r': real, s': real, c': real)
    requires Turned(f, g, r, s, c) && Turned(f, g, r', s', c') && r > 0.0 && r' > 0.0
    ensures r == r' && s == s' && c == c'
  {
    RadiusUnique(r, r');
    CancelRight(s, s', r);
    CancelRight(c, c', r);
  }

  lemma TurnsUnique(a: Bulge, b: Bulge, c: Bulge)
    requires Turns(a, b) && Turns(a, c)
    ensures b == c
  {
    var r: real :| r > 0.0 && Step(a.d, a.e, a.w, b.d, b.e, b.w, r);
    var q: real :| q > 0.0 && Step(a.d, a.e, a.w, c.d, c.e, c.w, q);
    hide Turns, Stored, Turned, Mul;
    TurnedUnique(Mul(a.w.s, a.e[a.w.i]), a.w.g, r, b.w.s, b.w.c, q, c.w.s, c.w.c);
    StoredUnique(a.d[a.w.i - 1] - a.w.p, a.d[a.w.i], Mul(a.w.c, a.e[a.w.i]), b.w.s, b.w.c, b.w.p, b.w.g, c.w.p, c.w.g);
  }

  lemma StoredUnique(d1: real, d2: real, b: real, s: real, c: real, p: real, g: real, p': real, g': real)
    requires Stored(d1, d2, b, s, c, p, g) && Stored(d1, d2, b, s, c, p', g')
    ensures p == p' && g == g'
  {}

  /** Two chains from one state agree as far as both go. */
  lemma {:induction false} ChainsAgree(x: seq<Bulge>, y: seq<Bulge>, k: nat)
    requires Chain(x) && Chain(y) && x[0] == y[0] && k < |x| && k < |y|
    ensures x[k] == y[k]
  {
    if k > 0 {
      ChainsAgree(x, y, k - 1);
      assert Turns(x[k - 1], x[k - 1 + 1]) && Turns(y[k - 1], y[k - 1 + 1]);
      TurnsUnique(x[k - 1], x[k], y[k]);
    }
  }

  ghost predicate Last(b: Bulge, h: nat, d: seq<real>, e: seq<real>) { Closes(b, h, d, e) || BreaksOff(b, h, d, e) }

  /** The planes come one after the other. */
  lemma {:induction false} PlanesRise(x: seq<Bulge>, j: nat, k: nat)
    requires Chain(x) && j <= k < |x|
    ensures x[k].w.i == x[j].w.i + (k - j)
  {
    if j < k {
      PlanesRise(x, j, k - 1);
      assert Turns(x[k - 1], x[k - 1 + 1]);
    }
  }

  /** Nothing is turned from a state that ends the sweep on a zero radius. */
  lemma NoTurnPastZero(a: Bulge, b: Bulge, h: nat, d: seq<real>, e: seq<real>)
    requires BreaksOff(a, h, d, e)
    ensures !Turns(a, b)
  {
    forall r: real ensures !Step(a.d, a.e, a.w, b.d, b.e, b.w, r) { NoTurn(r, b.w.s, b.w.c); }
  }

  lemma {:induction false} NoLonger(x: seq<Bulge>, y: seq<Bulge>, h: nat, d: seq<real>, e: seq<real>, d': seq<real>, e': seq<real>)
    requires Chain(x) && Chain(y) && x[0] == y[0] && Last(x[|x| - 1], h, d, e) && Last(y[|y| - 1], h, d', e')
    ensures |y| <= |x|
  {
    var k := |x| - 1;
    if |y| > |x| {
      ChainsAgree(x, y, k);
      PlanesRise(y, k, |y| - 1);
      assert Turns(y[k], y[k + 1]);
      hide Turns, Chain;
      if BreaksOff(x[k], h, d, e) { NoTurnPastZero(x[k], y[k + 1], h, d, e); }
    }
  }

  lemma {:induction false} ChasedUnique(d: seq<real>, e: seq<real>, h: nat, g: real, d1: seq<real>, e1: seq<real>, d2: seq<real>, e2: seq<real>)
    requires Chased(d, e, h, g, d1, e1) && Chased(d, e, h, g, d2, e2)
    ensures d1 == d2 && e1 == e2
  {
    var start := Bulge(d, e, Sweep(1, 1.0, 1.0, 0.0, g));
    var x: seq<Bulge> :| Chain(x) && x[0] == start && (Closes(x[|x| - 1], h, d1, e1) || BreaksOff(x[|x| - 1], h, d1, e1));
    var y: seq<Bulge> :| Chain(y) && y[0] == start && (Closes(y[|y| - 1], h, d2, e2) || BreaksOff(y[|y| - 1], h, d2, e2));
    hide Chased, Chain;
    NoLonger(x, y, h, d1, e1, d2, e2);
    NoLonger(y, x, h, d2, e2, d1, e1);
    ChainsAgree(x, y, |x| - 1);
  }

  /** One shift, one chain, one end: what a sweep makes of its arrays is determined. */
  lemma {:induction false} SweepsUnique(d: seq<real>, e: seq<real>, h: nat, d1: seq<real>, e1: seq<real>, d2: seq<real>, e2: seq<real>)
    requires Sweeps(d, e, h, d1, e1) && Sweeps(d, e, h, d2, e2) && h < |e| && e[h] != 0.0
    ensures d1 == d2 && e1 == e2
  {
    var t: real :| SweepsBy(d, e, h, t, d1, e1);
    var u: real :| SweepsBy(d, e, h, u, d2, e2);
    hide Sweeps, Nearest, Chased;
    NearestUnique(d[h - 1], d[h], e[h], t, u);
    ChasedUnique(d, e, h, d[0] - d[h] + t, d1, e1, d2, e2);
  }

  // ---- one level -----------------------------------------------------------------------------

  /** The level is not converged, and an off-diagonal zero inside it stops every sweep. */
  ghost predicate Gap(e: seq<real>, h: nat) { h < |e| && Abs(e[h]) > TOL && exists z: nat :: Stuck(e, z, h) }

  /** Sweep until e[h] is within tolerance, at most MAX_ITER times. A zero inside the level can only end in failure. */
  method Converge(d: array<real>, e: array<real>, v: array2<real>, n: nat, h: nat, sqrt: real -> real, ghost A: Matrix, ghost total: real) returns (ok: bool, ghost l: Level)
    requires IsSqrt(sqrt) && Symmetric(A) && 1 <= h < n == d.Length <= e.Length && v.Length0 == v.Length1 == n && d != e
    requires Sound(A, Rows(v), n, d[..], e[..], h, total)
    modifies d, e, v
    ensures l.h == h && l.Worked() && l.ds[0] == old(d[..]) && l.es[0] == old(e[..]) && l.Ends(d[..], e[..])
    ensures if ok then l.Done() else l.GaveUp()
    ensures ok ==> Sound(A, Rows(v), n, d[..], e[..], h - 1, total)
    ensures h == 1 ==> ok
    ensures Abs(old(e[h])) <= TOL ==> ok && e[..] == old(e[..])
    ensures Gap(old(e[..]), h) ==> !ok
  {
    hide Sound, Symmetric, IsSqrt, Wilkinson, Nearest, Rows, Gap, Trying, Ready, Swept, Abs, Sweeps, Chased, Over, Level.Worked;
    ghost var d0, e0 := d[..], e[..];
    ghost var z := TryStarts(A, Rows(v), n, d0, e0, h, total);
    l := Level(h, [d0], [e0]);
    LevelStarts(h, d0, e0);
    var iter := 0;
    while Abs(e[h]) > TOL
      invariant 0 <= iter <= MAX_ITER && Trying(A, Rows(v), n, d[..], e[..], h, total, z, iter, e0)
      invariant l.h == h && l.Worked() && |l.ds| == |l.es| == iter + 1 && l.ds[0] == d0 && l.es[0] == e0 && l.Ends(d[..], e[..])
      decreases MAX_ITER - iter
    {
      if iter == MAX_ITER {
        TryFails(A, Rows(v), n, d[..], e[..], h, total, z, iter, e0);
        OverIff(e[h]);
        return false, l;
      }
      iter := iter + 1;
      TryNonZero(e[h]);
      OverIff(e[h]);
      var g, t := Shift(d[0], d[h - 1], d[h], e[h], sqrt);
      TryReady(A, Rows(v), n, d[..], e[..], h, total, z, iter - 1, e0, g, t);
      ghost var before, v1, d1, e1 := z, Rows(v), d[..], e[..];
      ok, z := ChaseBulge(d, e, v, n, h, g, sqrt, A, total, z);
      LevelNext(l, d1, e1, t, d[..], e[..]);
      l := Level(h, l.ds + [d[..]], l.es + [e[..]]);
      TryAgain(ok, A, v1, n, d1, e1, h, total, before, iter - 1, e0, Rows(v), d[..], e[..], z);
      if ok { z := 0; }
    }
    OverIff(e[h]);
    TryEnds(A, Rows(v), n, d[..], e[..], h, total, z, iter, e0);
    SoundShrinks(A, Rows(v), n, d[..], e[..], h, total);
    ok := true;
  }

  /** The loop invariant of a level after iter sweeps from e0: sound (z == 0), or stuck with the zero at z and not converged. */
  ghost predicate Trying(A: Matrix, v: Mat, n: nat, d: seq<real>, e: seq<real>, h: nat, total: real, z: nat, iter: nat, e0: seq<real>) {
    && 1 <= h < n == |d| <= |e| == |e0| && (h == 1 ==> iter == 0 || e[h] == 0.0)
    && (if iter == 0 then e == e0 else Abs(e0[h]) > TOL) && (Gap(e0, h) ==> z > 0)
    && (if z == 0 then Sound(A, v, n, d, e, h, total) else Stuck(e, z, h) && Abs(e[h]) > TOL)
  }

  lemma TryStarts(A: Matrix, v: Mat, n: nat, d: seq<real>, e: seq<real>, h: nat, total: real) returns (z: nat)
    requires 1 <= h < n == |d| <= |e| && Sound(A, v, n, d, e, h, total)
    ensures Trying(A, v, n, d, e, h, total, z, 0, e)
  {
    hide Sound;
    z := 0;
    if Gap(e, h) { z :| Stuck(e, z, h); }
  }

  lemma OverIff(x: real)
    ensures Over(x) <==> Abs(x) > TOL
  {}

  lemma TryNonZero(x: real)
    requires Abs(x) > TOL
    ensures x != 0.0
  {}

  lemma TryReady(A: Matrix, v: Mat, n: nat, d: seq<real>, e: seq<real>, h: nat, total: real, z: nat, iter: nat, e0: seq<real>, g: real, t: real)
    requires Trying(A, v, n, d, e, h, total, z, iter, e0) && Abs(e[h]) > TOL
    requires 1 <= h < |d| && g == d[0] - d[h] + t && Nearest(d[h - 1], d[h], e[h], t)
    ensures Ready(A, v, n, d, e, h, g, total, z)
  {
    hide Sound, Wilkinson, Shifted;
    if h == 1 { ShiftedOf(d[0], d[1], e[1], t); }
  }

  lemma TryAgain(ok: bool, A: Matrix, v1: Mat, n: nat, d1: seq<real>, e1: seq<real>, h: nat, total: real, z: nat, iter: nat, e0: seq<real>,
                 v: Mat, d: seq<real>, e: seq<real>, z': nat)
    requires Trying(A, v1, n, d1, e1, h, total, z, iter, e0) && h < |e1| && Swept(ok, A, v, n, d, e, h, total, z, z', e1[h])
    requires Abs(e1[h]) > TOL && |d| == n && |e| == |e1|
    ensures Trying(A, v, n, d, e, h, total, if ok then 0 else z', iter + 1, e0)
  {
    hide Sound;
  }

  lemma TryFails(A: Matrix, v: Mat, n: nat, d: seq<real>, e: seq<real>, h: nat, total: real, z: nat, iter: nat, e0: seq<real>)
    requires Trying(A, v, n, d, e, h, total, z, iter, e0) && iter > 0 && h < |e| && Abs(e[h]) > TOL
    ensures h != 1 && Abs(e0[h]) > TOL
  {
    hide Sound;
  }

  lemma TryEnds(A: Matrix, v: Mat, n: nat, d: seq<real>, e: seq<real>, h: nat, total: real, z: nat, iter: nat, e0: seq<real>)
    requires Trying(A, v, n, d, e, h, total, z, iter, e0) && h < |e| && Abs(e[h]) <= TOL
    ensures Sound(A, v, n, d, e, h, total) && !Gap(e0, h) && (Abs(e0[h]) <= TOL ==> e == e0)
  {
    hide Sound;
  }

  lemma {:induction false} SoundShrinks(A: Matrix, v: Mat, n: nat, d: seq<real>, e: seq<real>, h: nat, total: real)
    requires Sound(A, v, n, d, e, h, total) && 1 <= h < n == |d| <= |e| && Abs(e[h]) <= TOL
    ensures Sound(A, v, n, d, e, h - 1, total)
  {
    hide Ortho, OrthoColumns, Tail, Bulged, Trace, Abs;
    LevelEnds(A, v, n, d, e, h);
  }

  // ---- the sort ------------------------------------------------------------------------------

  /** The rows of v are orthonormal and v A v' is diag(d), but for entries within tolerance off the diagonal. */
  ghost predicate Diagonalises(A: Matrix, v: Mat, n: nat, d: seq<real>) {
    && Ortho(v, n) && OrthoColumns(v, n) && |d| == n
    && (forall i | 0 <= i < n :: Gram(A, v, i, i) == d[i])
    && (forall i, j | 0 <= i < n && 0 <= j < n && i != j :: Sq(Gram(A, v, i, j)) <= 0.000000000000000000000000000000000001)
  }

  lemma {:induction false} SwapDiagonalises(A: Matrix, v: Mat, n: nat, d: seq<real>, i: nat, k: nat)
    requires Diagonalises(A, v, n, d) && i < n && k < n
    ensures Diagonalises(A, Swap(v, i, k), n, Swap(d, i, k)) && Trace(Swap(d, i, k)) == Trace(d)
  {
    SwapTrace(d, i, k);
    SwapColumns(v, n, i, k);
    var v' := Swap(v, i, k);
    var at := (a: int) => if a == i then k else if a == k then i else a;
    forall a, b | 0 <= a < n && 0 <= b < n
      ensures Gram(A, v', a, b) == Gram(A, v, at(a), at(b)) && Gram(Id(), v', a, b) == Gram(Id(), v, at(a), at(b))
    {
      assert v'[a] == v[at(a)] && v'[b] == v[at(b)];
    }
    hide Gram, OrthoColumns, Trace, Sq;
    assert Ortho(v', n) by {
      forall a, b | 0 <= a < n && 0 <= b < n ensures Gram(Id(), v', a, b) == Delta(a, b) {
        assert Gram(Id(), v, at(a), at(b)) == Delta(at(a), at(b));
      }
    }
  }

  lemma {:induction false} SwapTrace(d: seq<real>, i: nat, k: nat)
    requires i < |d| && k < |d|
    ensures Trace(Swap(d, i, k)) == Trace(d)
  {
    TraceUpdate(d, i, d[k]);
    TraceUpdate(d[i := d[k]], k, d[i]);
  }

  lemma {:induction false} SwapColumns(v: Mat, n: nat, i: nat, k: nat)
    requires OrthoColumns(v, n) && i < n && k < n
    ensures OrthoColumns(Swap(v, i, k), n)
  {
    var v' := Swap(v, i, k);
    if i == k { assert v' == v; return; }
    forall a, b | 0 <= a < n && 0 <= b < n ensures ColDot(v', a, b) == Delta(a, b) {
      assert ColDot(v, a, b) == Delta(a, b);
      var f, g := r => Ent(v, r, a) * Ent(v, r, b), r => Ent(v', r, a) * Ent(v', r, b);
      SumPair(f, g, if i < k then i else k, if i < k then k else i, n);
      SumEq(f, r => Ent(v, r, a) * Ent(v, r, b), n);
      SumEq(g, r => Ent(v', r, a) * Ent(v', r, b), n);
    }
  }

  ghost predicate Descending(d: seq<real>, i: nat) { forall a, b | 0 <= a < i && a < b < |d| :: d[a] >= d[b] }

  /** The first largest entry from i on. */
  method Largest(d: array<real>, n: nat, i: nat) returns (k: nat)
    requires i < n == d.Length
    ensures i <= k < n && forall j | i <= j < n :: d[j] <= d[k]
  {
    k := i;
    var p, j := d[k], i + 1;
    while j < n
      invariant i < j <= n && i <= k < j && p == d[k] && forall l | i <= l < j :: d[l] <= p
    {
      if d[j] > p { k, p := j, d[j]; }
      j := j + 1;
    }
  }

  method SwapRows(v: array2<real>, n: nat, i: nat, k: nat)
    requires v.Length0 == v.Length1 == n && i < n && k < n
    modifies v
    ensures Rows(v) == Swap(old(Rows(v)), i, k)
  {
    ghost var m := Rows(v);
    var j := 0;
    while j < n
      invariant 0 <= j <= n
      invariant forall b | 0 <= b < j :: v[i, b] == m[k][b] && v[k, b] == m[i][b]
      invariant forall a, b | 0 <= a < n && 0 <= b < n && ((a != i && a != k) || b >= j) :: v[a, b] == m[a][b]
    {
      v[i, j], v[k, j] := v[k, j], v[i, j];
      j := j + 1;
    }
    forall a | 0 <= a < n ensures Rows(v)[a] == Swap(m, i, k)[a] {}
  }

  lemma NoExchange<T>(s: seq<T>)
    ensures Exchanged(s, []) == s
  {}

  lemma ExchangeNext<T>(s: seq<T>, index: seq<nat>, k: nat)
    requires Pivots(index, |s|) && |index| <= k < |s|
    ensures Pivots(index + [k], |s|) && Exchanged(s, index + [k]) == Swap(Exchanged(s, index), |index|, k)
  {
    assert (index + [k])[..|index|] == index;
  }

  /** Selection sort, largest first; the exchanges move rows of v with their values. */
  method Sort(d: array<real>, v: array2<real>, n: nat, ghost A: Matrix) returns (ghost index: seq<nat>)
    requires d.Length == v.Length0 == v.Length1 == n && Diagonalises(A, Rows(v), n, d[..])
    modifies d, v
    ensures Diagonalises(A, Rows(v), n, d[..]) && Trace(d[..]) == old(Trace(d[..])) && Descending(d[..], n)
    ensures Pivots(index, n) && d[..] == Exchanged(old(d[..]), index) && Rows(v) == Exchanged(old(Rows(v)), index)
  {
    hide Diagonalises, Trace, Rows, Exchanged;
    ghost var d0, v0, total := d[..], Rows(v), Trace(d[..]);
    index := [];
    NoExchange(d0);
    NoExchange(v0);
    var i := 0;
    while i < n - 1
      invariant 0 <= i <= n && |index| == i && Pivots(index, n)
      invariant d[..] == Exchanged(d0, index) && Rows(v) == Exchanged(v0, index)
      invariant Diagonalises(A, Rows(v), n, d[..]) && Trace(d[..]) == total && Descending(d[..], i)
    {
      var k := Largest(d, n, i);
      ghost var d1, v1 := d[..], Rows(v);
      if k != i {
        d[k], d[i] := d[i], d[k];
        SwapRows(v, n, i, k);
      }
      assert d[..] == Swap(d1, i, k);
      assert Rows(v) == Swap(v1, i, k);
      SwapDiagonalises(A, v1, n, d1, i, k);
      ExchangeNext(d0, index, k);
      ExchangeNext(v0, index, k);
      index := index + [k];
      i := i + 1;
    }
  }

  // ---- the whole solver ----------------------------------------------------------------------

  lemma {:induction false} TermBelowSum(f: int -> real, k: nat, n: nat)
    requires k < n && forall i | 0 <= i < n :: f(i) >= 0.0
    ensures f(k) <= Sum(f, n)
  {
    if k == n - 1 { SumNonNegative(f, n - 1); } else { TermBelowSum(f, k, n - 1); }
  }

  lemma {:induction false} LeakBounds(A: Matrix, v: Mat, k: nat, j: nat)
    requires k < j
    ensures Sq(Gram(A, v, k, j)) <= Leak(A, v, j)
  {
    var f := k => Sq(Gram(A, v, k, j));
    forall i ensures f(i) >= 0.0 { SquareSign(Gram(A, v, i, j)); }
    TermBelowSum(f, k, j);
    SumEq(f, k => Sq(Gram(A, v, k, j)), j);
  }

  lemma {:induction false} SoundDiagonalises(A: Matrix, v: Mat, n: nat, d: seq<real>, e: seq<real>, h: int, total: real)
    requires Symmetric(A) && Sound(A, v, n, d, e, h, total) && |d| == n && (h == 0 || n == 0)
    ensures Diagonalises(A, v, n, d)
  {
    GramSymmetric(A, v);
    if n > 0 { assert Gram(A, v, 0, 0) == Entry(d, e, Sweep(0, 0.0, 0.0, 0.0, 0.0), 0, 0); }
    hide Gram, Bulged, OrthoColumns, Leak, Sq, Ortho, Symmetric;
    forall i, j | 0 <= i < n && 0 <= j < n && i != j ensures Sq(Gram(A, v, i, j)) <= TOL2 {
      assert Gram(A, v, i, j) == Gram(A, v, j, i);
      if i < j { LeakBounds(A, v, i, j); } else { LeakBounds(A, v, j, i); }
    }
  }

  /** The rows of the identity. */
  ghost predicate IsId(v: Mat, n: nat) { Square(v, n) && forall i, j | 0 <= i < n && 0 <= j < n :: v[i][j] == Delta(i, j) }

  lemma {:induction false} IdGram(A: Matrix, v: Mat, n: nat, i: nat, j: nat)
    requires IsId(v, n) && i < n && j < n
    ensures Gram(A, v, i, j) == A(i, j)
  {
    forall k | 0 <= k < n ensures Row(A, n, v[j], k) == A(k, j) {
      assert v[j][j] == 1.0;
      forall b | 0 <= b < n && b != j ensures At(v[j], b) == 0.0 { assert v[j][b] == Delta(j, b); }
      SumUnit(b => A(k, b) * At(v[j], b), j, n);
    }
    assert v[i][i] == 1.0;
    forall k | 0 <= k < n && k != i ensures At(v[i], k) == 0.0 { assert v[i][k] == Delta(i, k); }
    SumUnit(k => At(v[i], k) * Row(A, n, v[j], k), i, n);
  }

  lemma {:induction false} IdColumns(v: Mat, n: nat)
    requires IsId(v, n)
    ensures OrthoColumns(v, n)
  {
    forall a, b | 0 <= a < n && 0 <= b < n ensures ColDot(v, a, b) == Delta(a, b) {
      forall i | 0 <= i < n ensures Ent(v, i, a) == Delta(i, a) && Ent(v, i, b) == Delta(i, b) {
        assert v[i][a] == Delta(i, a) && v[i][b] == Delta(i, b);
      }
      SumUnit(i => Ent(v, i, a) * Ent(v, i, b), a, n);
    }
  }

  lemma TriEntry(d: seq<real>, e: seq<real>, n: nat, e': seq<real>, a: nat, b: nat)
    requires |d| == n <= |e'| && n - 1 <= |e| && a <= b < n && forall i | 0 <= i < n - 1 :: e'[i + 1] == e[i]
    ensures Tri(d, e)(a, b) == Entry(d, e', Sweep(0, 0.0, 0.0, 0.0, 0.0), a, b)
  {
    if b == a + 1 {
      assert e'[a + 1] == e[a];
      assert Tri(d, e)(a, b) == At(e, a);
    }
  }

  /** Before the first sweep: v is the identity, e is the off-diagonal moved up by one. */
  lemma {:induction false} SoundAtStart(din: seq<real>, ein: seq<real>, v: Mat, n: nat, e: seq<real>)
    requires IsId(v, n) && |din| == n <= |e| && n - 1 <= |ein| && forall i | 0 <= i < n - 1 :: e[i + 1] == ein[i]
    ensures Sound(Tri(din, ein), v, n, din, e, n - 1, Trace(din))
  {
    var A := Tri(din, ein);
    IdColumns(v, n);
    forall i, j | 0 <= i < n && 0 <= j < n ensures Gram(A, v, i, j) == A(i, j) && Gram(Id(), v, i, j) == Delta(i, j) {
      IdGram(A, v, n, i, j);
      IdGram(Id(), v, n, i, j);
    }
    hide Gram, OrthoColumns, Trace, Tri, Entry, Id;
    forall a, b | 0 <= a <= b <= n - 1 ensures Gram(A, v, a, b) == Entry(din, e, Sweep(0, 0.0, 0.0, 0.0, 0.0), a, b) {
      TriEntry(din, ein, n, e, a, b);
    }
  }

  lemma TriSymmetric(d: seq<real>, e: seq<real>)
    ensures Symmetric(Tri(d, e))
  {}

  method SetIdentity(v: array2<real>, n: nat)
    requires v.Length0 == v.Length1 == n
    modifies v
    ensures IsId(Rows(v), n)
  {
    for j := 0 to n
      invariant forall a, b | 0 <= a < j && 0 <= b < n :: v[a, b] == 0.0
    {
      for k := 0 to n
        invariant forall a, b | 0 <= a < j && 0 <= b < n :: v[a, b] == 0.0
        invariant forall b | 0 <= b < k :: v[j, b] == 0.0
      {
        v[j, k] := 0.0;
      }
    }
    for j := 0 to n
      invariant forall a, b | 0 <= a < n && 0 <= b < n :: v[a, b] == if a == b && a < j then 1.0 else 0.0
    {
      v[j, j] := 1.0;
    }
  }

  const MAX_ORDER := 32

  /** Every off-diagonal entry is within tolerance already. */
  ghost predicate Negligible(e: seq<real>, n: int)
    requires n - 1 <= |e|
  {
    forall i | 0 <= i < n - 1 :: Abs(e[i]) <= 0.000000000000000001
  }

  /** h is the last index whose coupling to the row before exceeds the tolerance, and row z before it is exactly decoupled from
      the row before: ein[i - 1] couples rows i - 1 and i. */
  ghost predicate BlockedAt(e: seq<real>, n: int, h: nat, z: nat)
    requires n - 1 <= |e|
  {
    1 <= z < h < n && e[z - 1] == 0.0 && Abs(e[h - 1]) > 0.000000000000000001 && forall i | h <= i < n - 1 :: Abs(e[i]) <= 0.000000000000000001
  }

  ghost predicate Blocked(e: seq<real>, n: int)
    requires n - 1 <= |e|
  {
    exists h: nat, z: nat :: BlockedAt(e, n, h, z)
  }

  /** The couplings moved up by one, as the solver keeps them. */
  ghost predicate Lifted(e: seq<real>, ein: seq<real>, n: int) {
    n <= |e| && n - 1 <= |ein| && forall i | 0 <= i < n - 1 :: e[i + 1] == ein[i]
  }

  /** While the levels above the blocked one are passed over, nothing changes; then the blocked level fails. */
  lemma BlockedGap(e: seq<real>, ein: seq<real>, n: int, h: nat, z: nat, k: nat)
    requires Lifted(e, ein, n) && BlockedAt(ein, n, h, z) && h <= k < n
    ensures if k == h then Gap(e, k) else Abs(e[k]) <= TOL
  {
    assert e[k - 1 + 1] == ein[k - 1];
    if k == h {
      assert e[z - 1 + 1] == ein[z - 1];
      assert Stuck(e, z, h);
    }
  }

  /** Copy the diagonal, and the couplings shifted up by one. */
  method CopyIn(n: nat, din: array<real>, ein: array<real>, d: array<real>, e: array<real>)
    requires din.Length == d.Length == n <= e.Length && n - 1 <= ein.Length && e.Length > 0 && d != din && d != ein && e != din && e != ein && d != e
    modifies d, e
    ensures d[..] == din[..] && e[0] == 0.0 && forall j | 0 <= j < n - 1 :: e[j + 1] == ein[j]
  {
    for i := 0 to n
      invariant forall j | 0 <= j < i :: d[j] == din[j]
    {
      d[i] := din[i];
    }
    var i := 0;
    while i < n - 1
      invariant 0 <= i && (i <= n - 1 || i == 0) && (forall j | 0 <= j < i :: e[j + 1] == ein[j]) && d[..] == din[..]
    {
      e[i + 1] := ein[i];
      i := i + 1;
    }
    e[0] := 0.0;
  }

  // ---- the levels as a trace -----------------------------------------------------------------

  /** Levels n - 1, n - 2, ... in turn, the first from the input and each of the others from where the one before ended. */
  ghost predicate Ran(levels: seq<Level>, n: nat, din: seq<real>, ein: seq<real>) {
    && |levels| <= n && (forall k | 0 <= k < |levels| :: levels[k].Worked() && levels[k].h == n - 1 - k)
    && (|levels| > 0 ==> levels[0].ds[0] == din && Lifted(levels[0].es[0], ein, n))
    && (forall k | 0 < k < |levels| :: levels[k - 1].Ends(levels[k].ds[0], levels[k].es[0]))
    && (forall k | 0 <= k < |levels| - 1 :: levels[k].Done())
  }

  /** The diagonal when the levels are done. */
  ghost predicate Left(levels: seq<Level>, din: seq<real>, d: seq<real>) {
    if |levels| == 0 then d == din
    else var l := levels[|levels| - 1]; l.Done() && |l.ds| == |l.es| && l.ds[|l.ds| - 1] == d
  }

  /** Where the levels done so far have left the arrays. */
  ghost predicate RanTo(levels: seq<Level>, n: nat, din: seq<real>, ein: seq<real>, d: seq<real>, e: seq<real>) {
    && Ran(levels, n, din, ein)
    && if |levels| == 0 then d == din && Lifted(e, ein, n) else levels[|levels| - 1].Done() && levels[|levels| - 1].Ends(d, e)
  }

  lemma RanStarts(n: nat, din: seq<real>, ein: seq<real>, e: seq<real>)
    requires Lifted(e, ein, n)
    ensures RanTo([], n, din, ein, din, e)
  {}

  lemma RanNext(levels: seq<Level>, n: nat, din: seq<real>, ein: seq<real>, d: seq<real>, e: seq<real>, l: Level, d': seq<real>, e': seq<real>)
    requires RanTo(levels, n, din, ein, d, e) && l.Worked() && l.ds[0] == d && l.es[0] == e && l.h == n - 1 - |levels| && |levels| < n && l.Ends(d', e')
    ensures Ran(levels + [l], n, din, ein) && (l.Done() ==> RanTo(levels + [l], n, din, ein, d', e'))
  {
    hide Level.Worked, Lifted;
  }

  lemma RanLeft(levels: seq<Level>, n: nat, din: seq<real>, ein: seq<real>, d: seq<real>, e: seq<real>)
    requires RanTo(levels, n, din, ein, d, e)
    ensures Ran(levels, n, din, ein) && Left(levels, din, d)
  {
    hide Ran, Level.Worked, Lifted;
  }

  lemma Untouched(e: seq<real>, ein: seq<real>, n: int)
    requires Lifted(e, ein, n) && Negligible(ein, n)
    ensures forall k | 1 <= k < n :: Abs(e[k]) <= TOL
  {
    forall k | 1 <= k < n ensures Abs(e[k]) <= TOL { assert e[k - 1 + 1] == ein[k - 1]; }
  }

  /** The eigenvalues d and the eigenvectors, the rows of v, of the tridiagonal matrix with diagonal din and off-diagonal ein.
      A failure up to order 32 is that of a level that twenty sweeps left over the tolerance; a success is what the levels leave, sorted. */
  method TridiagEV(n: nat, din: array<real>, ein: array<real>, d: array<real>, v: array2<real>, sqrt: real -> real)
    returns (ok: bool, ghost levels: seq<Level>, ghost index: seq<nat>)
    requires IsSqrt(sqrt) && din.Length == d.Length == v.Length0 == v.Length1 == n && n - 1 <= ein.Length && d != din && d != ein
    modifies d, v
    ensures n > 32 ==> !ok
    ensures n <= 2 || (n <= 32 && Negligible(ein[..], n)) ==> ok
    ensures Blocked(ein[..], n) ==> !ok
    ensures n <= 32 ==> Ran(levels, n, din[..], ein[..])
    ensures n <= 32 && !ok ==> |levels| > 0 && levels[|levels| - 1].GaveUp()
    ensures ok ==> |levels| == (if n == 0 then 0 else n - 1)
    ensures ok ==> Pivots(index, n) && exists left :: |left| == n && Left(levels, din[..], left) && d[..] == Exchanged(left, index)
    ensures ok ==> Diagonalises(Tri(din[..], ein[..]), Rows(v), n, d[..])
    ensures ok ==> Descending(d[..], n) && Trace(d[..]) == Trace(din[..])
  {
    hide IsSqrt, Sound, Diagonalises, Trace, Rows, IsId, Tri, Symmetric, Abs, BlockedAt, Blocked, Lifted, Gap, Ran, RanTo, Left, Level.Worked, Exchanged, Negligible;
    levels, index := [], [];
    SetIdentity(v, n);
    if n > MAX_ORDER { return false, [], []; }
    var e := new real[MAX_ORDER];
    CopyIn(n, din, ein, d, e);
    ghost var A, total := Tri(din[..], ein[..]), Trace(din[..]);
    TriSymmetric(din[..], ein[..]);
    SoundAtStart(din[..], ein[..], Rows(v), n, e[..]);
    LiftedOf(e[..], ein[..], n);
    RanStarts(n, din[..], ein[..], e[..]);
    if Negligible(ein[..], n) { Untouched(e[..], ein[..], n); }
    ghost var blocked := Blocked(ein[..], n);
    ghost var top: nat, z: nat := 0, 0;
    if blocked { top, z := BlockedWhere(ein[..], n); }
    var h := n - 1;
    while h >= 1
      invariant blocked ==> h >= top && Lifted(e[..], ein[..], n)
      invariant h < n && (h >= 0 || n == 0) && Sound(A, Rows(v), n, d[..], e[..], h, total)
      invariant Negligible(ein[..], n) ==> forall k | 1 <= k < n :: Abs(e[k]) <= TOL
      invariant RanTo(levels, n, din[..], ein[..], d[..], e[..]) && |levels| == (if n == 0 then 0 else n - 1 - h)
    {
      if blocked { BlockedGap(e[..], ein[..], n, top, z, h); }
      ghost var d1, e1 := d[..], e[..];
      var done, l := Converge(d, e, v, n, h, sqrt, A, total);
      RanNext(levels, n, din[..], ein[..], d1, e1, l, d[..], e[..]);
      levels := levels + [l];
      if !done { return false, levels, []; }
      h := h - 1;
    }
    RanLeft(levels, n, din[..], ein[..], d[..], e[..]);
    SoundDiagonalises(A, Rows(v), n, d[..], e[..], h, total);
    assert Trace(d[..]) == total by { SoundTrace(A, Rows(v), n, d[..], e[..], h, total); }
    ghost var left := d[..];
    index := Sort(d, v, n, A);
    assert |left| == n && Left(levels, din[..], left) && d[..] == Exchanged(left, index);
    ok := true;
  }

  lemma LiftedOf(e: seq<real>, ein: seq<real>, n: int)
    requires n <= |e| && n - 1 <= |ein| && forall j | 0 <= j < n - 1 :: e[j + 1] == ein[j]
    ensures Lifted(e, ein, n)
  {}

  lemma BlockedWhere(ein: seq<real>, n: int) returns (h: nat, z: nat)
    requires n - 1 <= |ein| && Blocked(ein, n)
    ensures BlockedAt(ein, n, h, z) && 1 <= h < n
  {
    h, z :| BlockedAt(ein, n, h, z);
  }

  /** Three rows, the first exactly decoupled: blocked, whatever the diagonal. */
  lemma DecoupledIsBlocked()
    ensures Blocked([0.0, 1.0], 3)
  {
    assert BlockedAt([0.0, 1.0], 3, 2, 1);
  }

  /** So the solver fails on the matrix with couplings 0 and 1, although it is block diagonal already. */
  method DecoupledFails(d0: real, d1: real, d2: real, sqrt: real -> real) returns (ok: bool)
    requires IsSqrt(sqrt)
    ensures !ok
  {
    hide Blocked, Diagonalises, Negligible, IsSqrt;
    var din, ein := new real[3], new real[2];
    din[0], din[1], din[2] := d0, d1, d2;
    ein[0], ein[1] := 0.0, 1.0;
    assert ein[..] == [0.0, 1.0];
    DecoupledIsBlocked();
    var d, v := new real[3], new real[3, 3];
    ghost var levels, index;
    ok, levels, index := TridiagEV(3, din, ein, d, v, sqrt);
  }

  lemma SoundTrace(A: Matrix, v: Mat, n: nat, d: seq<real>, e: seq<real>, h: int, total: real)
    requires Sound(A, v, n, d, e, h, total)
    ensures Trace(d) == total
  {}

  // ---- what a diagonalisation is good for ----------------------------------------------------

  lemma Commute(x: real, y: real, s: real)
    requires s == x
    ensures x * y == y * s
  {}

  /** Column a of V against column b. */
  ghost function Cross(V: Matrix, n: nat, a: int, b: int): real { Sum(i => V(i, a) * V(i, b), n) }

  /** The columns of V are orthonormal. */
  ghost predicate Isometric(V: Matrix, n: nat) {
    forall a, b | 0 <= a < n && 0 <= b < n :: Cross(V, n, a, b) == Delta(a, b)
  }

  /** z == V y */
  ghost predicate Image(V: Matrix, n: nat, y: int -> real, z: int -> real) {
    forall i | 0 <= i < n :: Sum(b => V(i, b) * y(b), n) == z(i)
  }

  lemma {:induction false} ReproduceByColumns(V: Matrix, n: nat, y: int -> real, k: nat)
    requires Isometric(V, n) && k < n
    ensures Sum(b => Cross(V, n, k, b) * y(b), n) == y(k)
  {
    var f := b => Cross(V, n, k, b) * y(b);
    forall b | 0 <= b < n ensures f(b) == if b == k then y(k) else 0.0 {
      assert Cross(V, n, k, b) == Delta(k, b);
    }
    hide Isometric, Cross;
    SumUnit(f, k, n);
    SumEq(f, b => Cross(V, n, k, b) * y(b), n);
  }

  lemma {:induction false} ReproduceByRows(V: Matrix, n: nat, y: int -> real, z: int -> real, k: nat)
    requires Image(V, n, y, z) && k < n
    ensures Sum(i => z(i) * V(i, k), n) == Sum(i => V(i, k) * Sum(b => V(i, b) * y(b), n), n)
  {
    var f, g := i => z(i) * V(i, k), i => V(i, k) * Sum(b => V(i, b) * y(b), n);
    forall i | 0 <= i < n ensures f(i) == g(i) {
      Commute(z(i), V(i, k), Sum(b => V(i, b) * y(b), n));
    }
    hide Image;
    SumEq(f, g, n);
    SumEq(f, i => z(i) * V(i, k), n);
    SumEq(g, i => V(i, k) * Sum(b => V(i, b) * y(b), n), n);
  }

  /** V'V y is y itself, because the columns are orthonormal. */
  lemma {:induction false} Reproduce(V: Matrix, n: nat, y: int -> real, z: int -> real, k: nat)
    requires Isometric(V, n) && Image(V, n, y, z) && k < n
    ensures Sum(i => z(i) * V(i, k), n) == y(k)
  {
    hide Isometric, Image, Cross;
    ReproduceByColumns(V, n, y, k);
    ReproduceByRows(V, n, y, z, k);
    var f := i => V(i, k);
    Bilinear(f, V, y, n, n);
    SumEq(i => V(i, k) * Sum(b => V(i, b) * y(b), n), i => f(i) * Sum(b => V(i, b) * y(b), n), n);
    forall b ensures Sum(i => f(i) * V(i, b), n) == Cross(V, n, k, b) { CrossIs(V, n, f, k, b); }
    SumEq(b => Sum(i => f(i) * V(i, b), n) * y(b), b => Cross(V, n, k, b) * y(b), n);
  }

  lemma {:induction false} CrossIs(V: Matrix, n: nat, f: int -> real, k: nat, b: int)
    requires forall i :: f(i) == V(i, k)
    ensures Sum(i => f(i) * V(i, b), n) == Cross(V, n, k, b)
  {
    SumEq(i => f(i) * V(i, b), i => V(i, k) * V(i, b), n);
  }

  lemma {:induction false} SquaresByRows(V: Matrix, n: nat, y: int -> real, z: int -> real)
    requires Image(V, n, y, z)
    ensures Sum(i => Sq(z(i)), n) == Sum(i => z(i) * Sum(b => V(i, b) * y(b), n), n)
  {
    var f, g := i => Sq(z(i)), i => z(i) * Sum(b => V(i, b) * y(b), n);
    forall i | 0 <= i < n ensures f(i) == g(i) {
      Commute(z(i), z(i), Sum(b => V(i, b) * y(b), n));
    }
    hide Image;
    SumEq(f, g, n);
    SumEq(f, i => Sq(z(i)), n);
    SumEq(g, i => z(i) * Sum(b => V(i, b) * y(b), n), n);
  }

  /** Parseval: an orthogonal matrix keeps lengths. */
  lemma {:induction false} Parseval(V: Matrix, n: nat, y: int -> real, z: int -> real)
    requires Isometric(V, n) && Image(V, n, y, z)
    ensures Sum(k => Sq(y(k)), n) == Sum(i => Sq(z(i)), n)
  {
    hide Isometric, Image;
    Bilinear(z, V, y, n, n);
    SquaresByRows(V, n, y, z);
    var f, g := k => Sq(y(k)), k => Sum(i => z(i) * V(i, k), n) * y(k);
    forall k | 0 <= k < n ensures f(k) == g(k) {
      Reproduce(V, n, y, z, k);
    }
    SumEq(f, g, n);
    SumEq(f, k => Sq(y(k)), n);
    SumEq(g, k => Sum(i => z(i) * V(i, k), n) * y(k), n);
  }

  lemma {:induction false} ColumnsIsometric(v: Mat, n: nat)
    requires OrthoColumns(v, n)
    ensures Isometric((i, k) => Ent(v, i, k), n)
  {
    var V := (i, k) => Ent(v, i, k);
    forall a, b | 0 <= a < n && 0 <= b < n ensures Cross(V, n, a, b) == Delta(a, b) {
      assert ColDot(v, a, b) == Delta(a, b);
      SumEq(i => V(i, a) * V(i, b), i => Ent(v, i, a) * Ent(v, i, b), n);
    }
  }

  /** The squared length of A x - mu x. */
  ghost function Residual(A: Matrix, n: nat, x: seq<real>, mu: real): real { Sum(k => Sq(Row(A, n, x, k) - mu * At(x, k)), n) }

  /** The coefficients of (y - mu x)^2. */
  ghost predicate Coefficients(mu: real, a: real, b: real) { a == -2.0 * mu && b == mu * mu }

  function Lin(a: real, p: real, b: real, q: real): real { a * p + b * q }

  lemma {:induction false} SumLin(a: real, f: int -> real, b: real, g: int -> real, h: int -> real, n: nat)
    requires forall i | 0 <= i < n :: h(i) == Lin(a, f(i), b, g(i))
    ensures Sum(h, n) == Lin(a, Sum(f, n), b, Sum(g, n))
  {
    SumLinear(a, f, b, g, h, n);
  }

  lemma Expand(y: real, mu: real, x: real, a: real, b: real)
    requires Coefficients(mu, a, b)
    ensures Sq(y - Mul(mu, x)) == Lin(1.0, Sq(y), 1.0, Lin(a, Mul(x, y), b, Sq(x)))
  {
    assert Sq(y - mu * x) == y * y - 2.0 * mu * (x * y) + (mu * mu) * (x * x);
  }

  lemma {:induction false} AsProducts(A: Matrix, n: nat, x: seq<real>, mu: real)
    ensures Residual(A, n, x, mu) == Sum(k => Sq(Row(A, n, x, k) - Mul(mu, At(x, k))), n)
    ensures Form(A, n, x, x) == Sum(k => Mul(At(x, k), Row(A, n, x, k)), n)
  {
    hide Row, At;
    SumEq(k => Sq(Row(A, n, x, k) - mu * At(x, k)), k => Sq(Row(A, n, x, k) - Mul(mu, At(x, k))), n);
    SumEq(k => At(x, k) * Row(A, n, x, k), k => Mul(At(x, k), Row(A, n, x, k)), n);
  }

  lemma {:induction false} ResidualExpands(A: Matrix, n: nat, x: seq<real>, mu: real, a: real, b: real)
    requires Coefficients(mu, a, b)
    ensures Residual(A, n, x, mu) == Lin(1.0, Sum(k => Sq(Row(A, n, x, k)), n), 1.0, Lin(a, Form(A, n, x, x), b, Sum(k => Sq(At(x, k)), n)))
  {
    hide Sq, Mul, Row, At, Coefficients, Residual, Form, Lin;
    AsProducts(A, n, x, mu);
    var y, f, g := k => Sq(Row(A, n, x, k)), k => Mul(At(x, k), Row(A, n, x, k)), k => Sq(At(x, k));
    var h, r := k => Lin(a, f(k), b, g(k)), k => Sq(Row(A, n, x, k) - Mul(mu, At(x, k)));
    forall k | 0 <= k < n ensures r(k) == Lin(1.0, y(k), 1.0, h(k)) { Expand(Row(A, n, x, k), mu, At(x, k), a, b); }
    SumLin(1.0, y, 1.0, h, r, n);
    SumLin(a, f, b, g, h, n);
    SumEq(r, k => Sq(Row(A, n, x, k) - Mul(mu, At(x, k))), n);
    SumEq(f, k => Mul(At(x, k), Row(A, n, x, k)), n);
    SumEq(y, k => Sq(Row(A, n, x, k)), n);
    SumEq(g, k => Sq(At(x, k)), n);
  }

  lemma {:induction false} OrthoUnit(v: Mat, n: nat, j: nat)
    requires Ortho(v, n) && j < n
    ensures Sum(k => Sq(At(v[j], k)), n) == 1.0
  {
    assert Gram(Id(), v, j, j) == 1.0;
    forall k | 0 <= k < n ensures Row(Id(), n, v[j], k) == At(v[j], k) {
      SumUnit(b => Id()(k, b) * At(v[j], b), k, n);
    }
    SumEq(k => At(v[j], k) * Row(Id(), n, v[j], k), k => Sq(At(v[j], k)), n);
  }

  /** n - 1 terms within the bound, and one that is zero. */
  lemma Multiple(n: nat, bound: real)
    ensures (n + 1) as real * bound == n as real * bound + bound
  {}

  lemma {:induction false} SumWithin(f: int -> real, j: int, bound: real, n: nat)
    requires bound >= 0.0 && f(j) == 0.0 && forall i | 0 <= i < n && i != j :: f(i) <= bound
    ensures Sum(f, n) <= (if 0 <= j < n then n - 1 else n) as real * bound
  {
    if n > 0 {
      SumWithin(f, j, bound, n - 1);
      if 0 <= j < n - 1 { Multiple(n - 2, bound); } else if j != n - 1 { Multiple(n - 1, bound); }
    }
  }

  /** The coordinates of A v_j in the rows of v are the entries of column j of v A v'. */
  lemma {:induction false} Coordinates(A: Matrix, v: Mat, n: nat, j: nat)
    requires Square(v, n) && j < n
    ensures Image((i, k) => Ent(v, i, k), n, k => Row(A, n, v[j], k), i => Gram(A, v, i, j))
  {
    var V, y := (i, k) => Ent(v, i, k), k => Row(A, n, v[j], k);
    forall i | 0 <= i < n ensures Sum(b => V(i, b) * y(b), n) == Gram(A, v, i, j) {
      SumEq(b => V(i, b) * y(b), k => At(v[i], k) * Row(A, n, v[j], k), n);
    }
  }

  lemma {:induction false} ColumnWithin(A: Matrix, v: Mat, n: nat, d: seq<real>, j: nat)
    requires Diagonalises(A, v, n, d) && j < n
    ensures Sum(i => Sq(Gram(A, v, i, j)), n) <= Sq(d[j]) + (n - 1) as real * TOL2
  {
    var f, g := i => Sq(Gram(A, v, i, j)), i => if i == j then 0.0 else Sq(Gram(A, v, i, j));
    hide Ortho, OrthoColumns, Gram, Sq;
    SumOne(f, g, j, n);
    SumEq(f, i => Sq(Gram(A, v, i, j)), n);
    SumWithin(g, j, TOL2, n);
  }

  lemma Collect(mu: real, a: real, b: real, s: real, bound: real)
    requires Coefficients(mu, a, b) && s <= Sq(mu) + bound
    ensures Lin(1.0, s, 1.0, Lin(a, mu, b, 1.0)) <= bound
  {}

  /** The length of A v_j, read off column j of v A v'. */
  lemma {:induction false} ImageLength(A: Matrix, v: Mat, n: nat, j: nat)
    requires OrthoColumns(v, n) && j < n
    ensures Sum(k => Sq(Row(A, n, v[j], k)), n) == Sum(i => Sq(Gram(A, v, i, j)), n)
  {
    ColumnsIsometric(v, n);
    Coordinates(A, v, n, j);
    hide OrthoColumns, Isometric, Image, Row, Gram, Ent, Sq;
    var x := v[j];
    var y, z := k => Row(A, n, x, k), i => Gram(A, v, i, j);
    Parseval((i, k) => Ent(v, i, k), n, y, z);
    SumEq(k => Sq(Row(A, n, v[j], k)), k => Sq(y(k)), n);
    SumEq(i => Sq(Gram(A, v, i, j)), i => Sq(z(i)), n);
  }

  /** Every row of v is an eigenvector, up to the tolerance: |A v_j - d_j v_j|^2 <= (n - 1) TOL^2. */
  lemma {:induction false} EigenPairs(A: Matrix, v: Mat, n: nat, d: seq<real>, j: nat)
    requires Diagonalises(A, v, n, d) && j < n
    ensures Residual(A, n, v[j], d[j]) <= (n - 1) as real * 0.000000000000000000000000000000000001
  {
    assert Form(A, n, v[j], v[j]) == d[j] by { assert Gram(A, v, j, j) == d[j]; }
    ImageLength(A, v, n, j);
    OrthoUnit(v, n, j);
    ColumnWithin(A, v, n, d, j);
    var a, b := -2.0 * d[j], d[j] * d[j];
    assert Coefficients(d[j], a, b);
    hide Diagonalises, Row, Form, Gram, At, Sq, Residual, Lin, Coefficients, Sum;
    ResidualExpands(A, n, v[j], d[j], a, b);
    Collect(d[j], a, b, Sum(k => Sq(Row(A, n, v[j], k)), n), (n - 1) as real * TOL2);
  }

  lemma TriEntries(d: seq<real>, e: seq<real>, k: int, b: int)
    ensures Tri(d, e)(k, b) == if b == k then At(d, k) else if b == k + 1 then At(e, k) else if b == k - 1 then At(e, k - 1) else 0.0
  {}

  lemma {:induction false} ThreeTerms(f: int -> real, n: nat, k: nat)
    requires k < n && forall b | b < k - 1 || b > k + 1 :: f(b) == 0.0
    ensures Sum(f, n) == f(k) + (if k > 0 then f(k - 1) else 0.0) + (if k < n - 1 then f(k + 1) else 0.0)
  {
    SumTail(f, if k < n - 1 then k + 2 else k + 1, n);
    SumTail(f, 0, if k > 0 then k - 1 else 0);
    assert Sum(f, k + 2) == Sum(f, k + 1) + f(k + 1) && Sum(f, k + 1) == Sum(f, k) + f(k);
    if k > 0 { assert Sum(f, k) == Sum(f, k - 1) + f(k - 1); }
  }

  /** The matrix the solver is given, row by row: d[k] x[k] + e[k - 1] x[k - 1] + e[k] x[k + 1], cut off at the ends. */
  lemma {:induction false} TriRow(d: seq<real>, e: seq<real>, n: nat, x: seq<real>, k: nat)
    requires |d| == |x| == n && n - 1 <= |e| && k < n
    ensures Row(Tri(d, e), n, x, k) == Mul(d[k], x[k]) + (if k > 0 then Mul(e[k - 1], x[k - 1]) else 0.0) + (if k < n - 1 then Mul(e[k], x[k + 1]) else 0.0)
  {
    var T := Tri(d, e);
    var f := b => Mul(T(k, b), At(x, b));
    RowProducts(T, n, x, k);
    SumEq(f, b => Mul(T(k, b), At(x, b)), n);
    forall b ensures f(b) == if b == k then Mul(At(d, k), At(x, k)) else if b == k + 1 then Mul(At(e, k), At(x, b)) else if b == k - 1 then Mul(At(e, k - 1), At(x, b)) else 0.0 {
      TriEntries(d, e, k, b);
      ZeroMul(At(x, b));
    }
    hide Tri, Mul;
    ThreeTerms(f, n, k);
  }
}

/** Choice of the driver model, and the poles and coefficients of the Pi-model driver. */
module DmpPi {
  import opened Sums
  import opened FastExp

  datatype Algorithm = Cap | ZeroC2 | Pi

  /** hasModel: the gate has a delay table; rd is its drive resistance. */
  function ChooseAlgorithm(hasModel: bool, rd: real, c2: real, rpi: real, c1: real): Algorithm {
    if !hasModel then Cap
    else if rd < 0.01 || rpi < rd * 0.001 || c1 == 0.0 || c1 < c2 * 0.001 || rpi == 0.0 then Cap
    else if c2 < c1 * 0.001 then ZeroC2
    else Pi
  }

  /** Whenever the Pi model is chosen for non-negative capacitances, every element is positive. */
  lemma PiIsPositive(rd: real, c2: real, rpi: real, c1: real)
    requires ChooseAlgorithm(true, rd, c2, rpi, c1) == Pi && c1 >= 0.0 && c2 >= 0.0
    ensures rd > 0.0 && c2 > 0.0 && rpi > 0.0 && c1 > 0.0
  {}

  /** The Pi model is for elements of like size: capacitances within a factor of a thousand, a resistance not far below the drive's. */
  lemma PiIff(hasModel: bool, rd: real, c2: real, rpi: real, c1: real)
    requires c1 > 0.0 && c2 >= 0.0 && rpi > 0.0
    ensures ChooseAlgorithm(hasModel, rd, c2, rpi, c1) == Pi
            <==> hasModel && rd >= 0.01 && 1000.0 * rpi >= rd && 1000.0 * c1 >= c2 && 1000.0 * c2 >= c1
    ensures ChooseAlgorithm(hasModel, rd, c2, rpi, c1) == ZeroC2
            <==> hasModel && rd >= 0.01 && 1000.0 * rpi >= rd && 1000.0 * c2 < c1
  {}

  // ---- the characteristic equation a p^2 - b p + 1 = 0 -----------------------------------------

  function Cube(rd: real, c2: real, rpi: real, c1: real): real { Mul(Mul(rpi, c1), Mul(rd, c2)) }
  function Linear(rd: real, c2: real, rpi: real, c1: real): real { Mul(rd, c1 + c2) + Mul(rpi, c1) }

  /** b^2 - 4 a is (rd (c1 + c2) - rpi c1)^2 + 4 rd rpi c1^2. */
  lemma DiscriminantSplits(rd: real, c2: real, rpi: real, c1: real)
    ensures var a, b, d := Cube(rd, c2, rpi, c1), Linear(rd, c2, rpi, c1), Mul(rd, c1 + c2) - Mul(rpi, c1);
            Mul(b, b) - 4.0 * a == Mul(d, d) + 4.0 * Mul(Mul(rd, c1), Mul(rpi, c1))
  {
    var u, w := Mul(rd, c1 + c2), Mul(rpi, c1);
    assert Mul(u, w) == Cube(rd, c2, rpi, c1) + Mul(Mul(rd, c1), Mul(rpi, c1));
    SquareSum(u, w);
  }

  lemma SquareSum(u: real, w: real)
    ensures Mul(u + w, u + w) == Mul(u - w, u - w) + 4.0 * Mul(u, w)
  {}

  lemma SquareNonNegative(x: real)
    ensures Mul(x, x) >= 0.0
  {}

  lemma Elements(rd: real, c2: real, rpi: real, c1: real)
    requires rd > 0.0 && c2 > 0.0 && rpi > 0.0 && c1 > 0.0
    ensures var a, b := Cube(rd, c2, rpi, c1), Linear(rd, c2, rpi, c1); a > 0.0 && b > 0.0 && Mul(b, b) - 4.0 * a > 0.0
    ensures Mul(rpi, c1) > 0.0 && Mul(rd, c2) > 0.0
  {
    DiscriminantSplits(rd, c2, rpi, c1);
    SquareNonNegative(Mul(rd, c1 + c2) - Mul(rpi, c1));
    Positive(rd, c1);
    Positive(rpi, c1);
    Positive(rd, c2);
    Positive(rd, c1 + c2);
    Positive(Mul(rd, c1), Mul(rpi, c1));
    Positive(Mul(rpi, c1), Mul(rd, c2));
    hide Mul;
  }

  /** q is p / a */
  ghost predicate Over(q: real, p: real, a: real) { Mul(q, a) == p }

  lemma OverDivides(p: real, a: real)
    requires a != 0.0
    ensures Over(p / a, p, a)
  {}

  lemma OverUnique(q: real, r: real, p: real, a: real)
    requires Over(q, p, a) && Over(r, p, a) && a != 0.0
    ensures q == r
  {
    assert q == Mul(q, a) / a;
    assert r == Mul(r, a) / a;
  }

  /** Both poles: product 1 / a, sum b / a. */
  ghost predicate Vieta(p1: real, p2: real, a: real, b: real) { Mul(a, Mul(p1, p2)) == 1.0 && Mul(a, p1 + p2) == b }

  lemma PolesProduct(a: real, b: real, s: real, p1: real, p2: real)
    requires a > 0.0 && Mul(s, s) == Mul(b, b) - 4.0 * a && Over(p1, b + s, 2.0 * a) && Over(p2, b - s, 2.0 * a)
    ensures Vieta(p1, p2, a, b)
  {
    Regroup(p1, p2, a);
    DifferenceOfSquares(b, s);
    MulOne(4.0 * a);
    hide Mul;
    OverUnique(Mul(a, Mul(p1, p2)), 1.0, 4.0 * a, 4.0 * a);
  }

  lemma Regroup(p1: real, p2: real, a: real)
    ensures Mul(Mul(p1, 2.0 * a), Mul(p2, 2.0 * a)) == Mul(Mul(a, Mul(p1, p2)), 4.0 * a)
    ensures Mul(p1, 2.0 * a) + Mul(p2, 2.0 * a) == 2.0 * Mul(a, p1 + p2)
  {}

  lemma DifferenceOfSquares(b: real, s: real)
    ensures Mul(b + s, b - s) == Mul(b, b) - Mul(s, s)
  {}

  lemma SmallerRoot(s: real, b: real, a: real)
    requires s >= 0.0 && b > 0.0 && a > 0.0 && Mul(s, s) == Mul(b, b) - 4.0 * a && Mul(b, b) - 4.0 * a > 0.0
    ensures 0.0 < s < b
  {
    MulZero(s);
    if s >= b {
      ScaleLess(s, b, s);
      ScaleLess(b, b, s);
      Distribute(s, b, b);
      hide Mul;
    }
  }

  lemma OverSign(q: real, p: real, a: real)
    requires Over(q, p, a) && a > 0.0 && p > 0.0
    ensures q > 0.0
  {
    if q <= 0.0 { Product(-q, a); }
  }

  lemma OverOrder(q: real, r: real, p: real, o: real, a: real)
    requires Over(q, p, a) && Over(r, o, a) && a > 0.0 && p > o
    ensures q > r
  {
    if q <= r { Product(r - q, a); }
  }

  // ---- the model -----------------------------------------------------------------------------

  /** Everything DmpPi::init leaves, as the source's formulas mean it. */
  datatype Model = Model(z1: real, k0: real, k1: real, k2: real, k3: real, k4: real, p1: real, p2: real, A: real, B: real, D: real)

  /** The poles are real, distinct and positive, and solve the characteristic equation. */
  ghost predicate Poles(m: Model, a: real, b: real) { 0.0 < m.p2 < m.p1 && Vieta(m.p1, m.p2, a, b) }

  /** k3 and k4 are the residues that cancel the ramp's start. */
  ghost predicate Residues(m: Model) { m.k3 == -m.k1 - m.k4 && Over(m.k4, Mul(m.k1, m.p1) + m.k2, m.p2 - m.p1) }

  /** Vieta's sums say that p1 and p2 are the roots of a p^2 - b p + 1. */
  lemma PolesAreRoots(p1: real, p2: real, a: real, b: real)
    requires Vieta(p1, p2, a, b)
    ensures Mul(a, Mul(p1, p1)) - Mul(b, p1) + 1.0 == 0.0 && Mul(a, Mul(p2, p2)) - Mul(b, p2) + 1.0 == 0.0
  {
    assert Mul(b, p1) == Mul(a, Mul(p1, p1)) + Mul(a, Mul(p1, p2));
    assert Mul(b, p2) == Mul(a, Mul(p1, p2)) + Mul(a, Mul(p2, p2));
  }

  /** The output and its slope, for the values e1 and e2 of the two exponentials. */
  function Output(m: Model, t: real, e1: real, e2: real): real { m.k0 * (m.k1 + m.k2 * t + m.k3 * e1 + m.k4 * e2) }
  function Slope(m: Model, e1: real, e2: real): real { m.k0 * (m.k2 - m.k3 * m.p1 * e1 - m.k4 * m.p2 * e2) }

  /** What is left of the mode of pole p at t. */
  function Left(p: real, t: real): real { Exp2(-p * t) }

  /** Output voltage at t, per volt of slew. */
  function Vo(m: Model, t: real): real { Output(m, t, Left(m.p1, t), Left(m.p2, t)) }

  /** Its slope. */
  function DVo(m: Model, t: real): real { Slope(m, Left(m.p1, t), Left(m.p2, t)) }

  lemma ExpAtRest(p: real)
    ensures Left(p, 0.0) == 1.0
  {
    assert -p * 0.0 == 0.0;
    Exp2AtZero();
    hide Exp2;
  }

  /** The output starts at rest: voltage and slope are zero at time zero. */
  lemma StartsAtRest(m: Model)
    requires Residues(m)
    ensures Vo(m, 0.0) == 0.0 && DVo(m, 0.0) == 0.0
  {
    ExpAtRest(m.p1);
    ExpAtRest(m.p2);
    SlopeCancels(m);
    hide Left, Residues;
    var e1, e2 := Left(m.p1, 0.0), Left(m.p2, 0.0);
    UnitFactors(m.k2, m.k3, m.k4, m.p1, m.p2, e1, e2);
    assert m.k1 + m.k3 + m.k4 == 0.0 by { assert Residues(m); ResidueSum(m); }
  }

  lemma UnitFactors(k2: real, k3: real, k4: real, p1: real, p2: real, e1: real, e2: real)
    requires e1 == 1.0 && e2 == 1.0
    ensures k2 * 0.0 == 0.0 && k3 * e1 == k3 && k4 * e2 == k4 && k3 * p1 * e1 == k3 * p1 && k4 * p2 * e2 == k4 * p2
  {}

  lemma ResidueSum(m: Model)
    requires Residues(m)
    ensures m.k1 + m.k3 + m.k4 == 0.0
  {}

  lemma SlopeCancels(m: Model)
    requires Residues(m)
    ensures m.k2 - m.k3 * m.p1 - m.k4 * m.p2 == 0.0
  {
    assert m.k4 * (m.p2 - m.p1) == m.k1 * m.p1 + m.k2;
    assert m.k3 * m.p1 == -m.k1 * m.p1 - m.k4 * m.p1;
    assert m.k4 * (m.p2 - m.p1) == m.k4 * m.p2 - m.k4 * m.p1;
  }

  /** x y == 1 */
  ghost predicate Reciprocal(x: real, y: real) { Mul(x, y) == 1.0 }

  /** k2 is rd c2, whose reciprocal is k0. */
  lemma RampCoefficient(z1: real, w: real, v: real, a: real, q: real, k0: real, k2: real)
    requires Reciprocal(z1, w) && a == Mul(w, v) && Mul(a, q) == 1.0 && Over(k2, z1, q) && Reciprocal(k0, v) && q != 0.0
    ensures k2 == v && Mul(k0, k2) == 1.0
  {
    assert Mul(v, q) == Mul(z1, Mul(a, q)) by {
      assert Mul(z1, Mul(a, q)) == Mul(Mul(z1, w), Mul(v, q));
      MulOne(Mul(v, q));
    }
    MulOne(z1);
    Distribute(z1, 1.0, 1.0);
    OverUnique(k2, v, z1, q);
  }

  /** The steady lag of the ramp response: k0 k1 is minus the drive resistance times the total capacitance. */
  lemma SteadyLag(k0: real, k1: real, k2: real, a: real, b: real, q: real, sum: real, u: real, w: real, v: real)
    requires a == Mul(w, v) && b == u + w && Mul(a, q) == 1.0 && Mul(a, sum) == b && k2 == v && Reciprocal(k0, v)
    requires Over(k1, 1.0 - Mul(k2, sum), q)
    ensures Mul(k0, k1) == -u
  {
    assert k1 == -Mul(v, u) by {
      assert Mul(a, Mul(k1, q)) == k1 by { assert Mul(a, Mul(k1, q)) == Mul(k1, Mul(a, q)); Distribute(k1, 1.0, 1.0); }
      assert Mul(a, 1.0 - Mul(v, sum)) == a - Mul(v, Mul(a, sum));
      assert a - Mul(v, u + w) == -Mul(v, u);
    }
    LagProduct(k0, v, u);
  }

  lemma LagProduct(k0: real, v: real, u: real)
    requires Reciprocal(k0, v)
    ensures Mul(k0, -Mul(v, u)) == -u
  {
    assert Mul(k0, -Mul(v, u)) == -Mul(Mul(k0, v), u);
    MulOne(u);
  }

  /** The current into the Pi starts at zero: its three coefficients cancel. */
  lemma CurrentStartsAtZero(z: real, p1: real, p2: real, A: real, B: real, D: real)
    requires Over(A, z, Mul(p1, p2)) && Over(B, z - p1, Mul(p1, p1 - p2)) && Over(D, z - p2, Mul(p2, p2 - p1)) && p1 != 0.0 && p2 != 0.0 && p1 != p2
    ensures A + B + D == 0.0
  {
    var n := p1 * p2 * (p1 - p2);
    assert A * n == z * (p1 - p2) by { assert A * (p1 * p2) == z; assert A * n == (A * (p1 * p2)) * (p1 - p2); }
    assert B * n == (z - p1) * p2 by { assert B * (p1 * (p1 - p2)) == z - p1; assert B * n == (B * (p1 * (p1 - p2))) * p2; }
    assert D * n == -(z - p2) * p1 by { assert D * (p2 * (p2 - p1)) == z - p2; assert D * n == -(D * (p2 * (p2 - p1))) * p1; }
    assert (A + B + D) * n == 0.0;
    assert p1 * p2 != 0.0 && n != 0.0;
  }

  /** ... and rises with slope one. */
  lemma CurrentSlope(z: real, p1: real, p2: real, B: real, D: real)
    requires Over(B, z - p1, Mul(p1, p1 - p2)) && Over(D, z - p2, Mul(p2, p2 - p1)) && p1 != p2
    ensures Mul(B, p1) + Mul(D, p2) == -1.0
  {
    var n := p1 - p2;
    assert (B * p1) * n == z - p1 by { assert B * (p1 * n) == z - p1; }
    assert (D * p2) * n == -(z - p2) by { assert D * (p2 * (p2 - p1)) == z - p2; }
    assert Over(B * p1 + D * p2, -n, n) && Over(-1.0, -n, n);
    OverUnique(B * p1 + D * p2, -1.0, -n, n);
  }

  /** The steady current is that of all the capacitance behind the drive resistance. */
  lemma SteadyCurrent(rd: real, c: real, c2: real, w: real, a: real, q: real, z: real, A: real)
    requires Over(z, c, Mul(w, c2)) && a == Mul(w, Mul(rd, c2)) && Mul(a, q) == 1.0 && Over(A, z, q)
    ensures A == Mul(rd, c)
  {
    assert A == Mul(a, z) by {
      assert Mul(a, Mul(A, q)) == Mul(A, Mul(a, q));
      Distribute(A, 1.0, 1.0);
    }
    assert Mul(a, z) == Mul(rd, Mul(z, Mul(w, c2)));
  }

  /** What the initialised model promises for the circuit rd, c2, rpi, c1. */
  ghost predicate Good(m: Model, rd: real, c2: real, rpi: real, c1: real) {
    && Poles(m, Cube(rd, c2, rpi, c1), Linear(rd, c2, rpi, c1)) && Residues(m)
    && m.k2 == Mul(rd, c2) && Mul(m.k0, m.k2) == 1.0 && Mul(m.k0, m.k1) == -Mul(rd, c1 + c2)
    && m.A == Mul(rd, c1 + c2) && m.A + m.B + m.D == 0.0 && Mul(m.B, m.p1) + Mul(m.D, m.p2) == -1.0
  }

  // ---- the output at later times -------------------------------------------------------------

  /** A natural mode of the circuit adds nothing to its equation. */
  lemma Mode(a: real, b: real, p: real, x: real)
    requires Mul(a, Mul(p, p)) - Mul(b, p) + 1.0 == 0.0
    ensures Mul(a, Mul(Mul(p, p), x)) - Mul(b, Mul(p, x)) + x == 0.0
  {
    assert Mul(Mul(a, Mul(p, p)) - Mul(b, p) + 1.0, x) == Mul(a, Mul(Mul(p, p), x)) - Mul(b, Mul(p, x)) + x;
  }

  /** The second slope. */
  ghost function Curvature(m: Model, e1: real, e2: real): real { m.k0 * (m.k3 * m.p1 * m.p1 * e1 + m.k4 * m.p2 * m.p2 * e2) }

  /** Voltage and slopes by mode: x3 and x4 are what the two poles contribute. */
  lemma ByMode(m: Model, t: real, e1: real, e2: real, x3: real, x4: real)
    requires x3 == m.k0 * m.k3 * e1 && x4 == m.k0 * m.k4 * e2
    ensures Output(m, t, e1, e2) == Mul(m.k0, m.k1) + Mul(Mul(m.k0, m.k2), t) + x3 + x4
    ensures Slope(m, e1, e2) == Mul(m.k0, m.k2) - Mul(m.p1, x3) - Mul(m.p2, x4)
    ensures Curvature(m, e1, e2) == Mul(Mul(m.p1, m.p1), x3) + Mul(Mul(m.p2, m.p2), x4)
  {
    ModeTerm(m.k0, m.k3, m.p1, e1);
    ModeTerm(m.k0, m.k4, m.p2, e2);
    assert m.k0 * (m.k2 * t) == Mul(Mul(m.k0, m.k2), t);
  }

  lemma ModeTerm(k0: real, k: real, p: real, e: real)
    ensures k0 * (k * e) == k0 * k * e && k0 * (k * p * e) == Mul(p, k0 * k * e) && k0 * (k * p * p * e) == Mul(Mul(p, p), k0 * k * e)
  {}

  /** The circuit's equation at every time: a v'' + b v' + v is the ramp plus rpi c1, whatever the exponentials are worth. */
  lemma CircuitEquation(m: Model, rd: real, c2: real, rpi: real, c1: real, t: real, e1: real, e2: real)
    requires Good(m, rd, c2, rpi, c1)
    ensures Mul(rpi * rd * c1 * c2, Curvature(m, e1, e2)) + Mul(rd * (c1 + c2) + rpi * c1, Slope(m, e1, e2)) + Output(m, t, e1, e2) == t + rpi * c1
  {
    var a, b := Cube(rd, c2, rpi, c1), Linear(rd, c2, rpi, c1);
    Equation(m, rd, c2, rpi, c1, a, b, t, e1, e2, m.k0 * m.k3 * e1, m.k0 * m.k4 * e2);
    hide Output, Slope, Curvature;
    ElementsOf(rd, c2, rpi, c1);
  }

  lemma ElementsOf(rd: real, c2: real, rpi: real, c1: real)
    ensures Cube(rd, c2, rpi, c1) == rpi * rd * c1 * c2 && Linear(rd, c2, rpi, c1) == rd * (c1 + c2) + rpi * c1
    ensures Linear(rd, c2, rpi, c1) - Mul(rd, c1 + c2) == rpi * c1
  {}

  lemma Equation(m: Model, rd: real, c2: real, rpi: real, c1: real, a: real, b: real, t: real, e1: real, e2: real, x3: real, x4: real)
    requires Good(m, rd, c2, rpi, c1) && a == Cube(rd, c2, rpi, c1) && b == Linear(rd, c2, rpi, c1)
    requires x3 == m.k0 * m.k3 * e1 && x4 == m.k0 * m.k4 * e2
    ensures Mul(a, Curvature(m, e1, e2)) + Mul(b, Slope(m, e1, e2)) + Output(m, t, e1, e2) == t + (b - Mul(rd, c1 + c2))
  {
    hide Output, Slope, Curvature, Cube, Linear, Vieta, Residues, Mul;
    ByMode(m, t, e1, e2, x3, x4);
    PolesAreRoots(m.p1, m.p2, a, b);
    Mode(a, b, m.p1, x3);
    Mode(a, b, m.p2, x4);
    MulOne(t);
    CollectModes(a, b, m.p1, m.p2, x3, x4);
  }

  lemma CollectModes(a: real, b: real, p1: real, p2: real, x3: real, x4: real)
    ensures Mul(a, Mul(Mul(p1, p1), x3) + Mul(Mul(p2, p2), x4)) + Mul(b, 1.0 - Mul(p1, x3) - Mul(p2, x4))
         == Mul(a, Mul(Mul(p1, p1), x3)) - Mul(b, Mul(p1, x3)) + Mul(a, Mul(Mul(p2, p2), x4)) - Mul(b, Mul(p2, x4)) + b
  {}

  lemma TimesRd(rd: real, c: real)
    ensures Mul(rd, c) == rd * c
  {}

  /** Without the fast pole's mode. */
  lemma OneMode(m: Model, t: real, e2: real, lag: real)
    requires Mul(m.k0, m.k2) == 1.0 && Mul(m.k0, m.k1) == -lag
    ensures Output(m, t, 0.0, e2) == t - lag + Mul(Mul(m.k0, m.k4), e2)
    ensures e2 == 0.0 ==> Output(m, t, 0.0, e2) == t - lag && Slope(m, 0.0, e2) == 1.0
  {
    hide Output, Slope, Mul;
    ByMode(m, t, 0.0, e2, ZeroTimes(m.k0 * m.k3), m.k0 * m.k4 * e2);
    TimesRd(Mul(m.k0, m.k4), e2);
    TimesRd(m.k0, m.k4);
    MulOne(t);
    MulZero(m.p1);
    MulZero(m.p2);
    MulZero(Mul(m.k0, m.k4));
  }

  function ZeroTimes(x: real): (z: real)
    ensures z == x * 0.0 && z == 0.0
  {
    x * 0.0
  }

  lemma CutOff(p: real, t: real)
    requires Mul(p, t) > 12.0
    ensures Left(p, t) == 0.0
  {}

  /** Once both exponentials are cut off the output follows the ramp, late by the drive resistance times all capacitance. */
  lemma OutputSettles(m: Model, rd: real, c2: real, rpi: real, c1: real, t: real)
    requires Good(m, rd, c2, rpi, c1) && Mul(m.p1, t) > 12.0 && Mul(m.p2, t) > 12.0
    ensures Vo(m, t) == t - rd * (c1 + c2) && DVo(m, t) == 1.0
  {
    hide Output, Slope, Poles, Residues, Mul, Left;
    CutOff(m.p1, t);
    CutOff(m.p2, t);
    TimesRd(rd, c1 + c2);
    OneMode(m, t, 0.0, Mul(rd, c1 + c2));
  }

  /** While only the faster pole is cut off, what is left is the slower one's: its residue k has k (p2 - p1) == 1 - p1 rd (c1 + c2). */
  lemma SlowPoleLeft(m: Model, rd: real, c2: real, rpi: real, c1: real, t: real)
    requires Good(m, rd, c2, rpi, c1) && Mul(m.p1, t) > 12.0
    ensures var k := Mul(m.k0, m.k4);
            Vo(m, t) == t - Mul(rd, c1 + c2) + Mul(k, Left(m.p2, t)) && Mul(k, m.p2 - m.p1) == 1.0 - Mul(m.p1, Mul(rd, c1 + c2))
  {
    hide Output, Slope, Poles, Vieta, Mul, Left;
    CutOff(m.p1, t);
    OneMode(m, t, Left(m.p2, t), Mul(rd, c1 + c2));
    SlowResidue(m.k0, m.k1, m.k2, m.k4, m.p1, m.p2, Mul(rd, c1 + c2));
  }

  lemma SlowResidue(k0: real, k1: real, k2: real, k4: real, p1: real, p2: real, lag: real)
    requires Over(k4, Mul(k1, p1) + k2, p2 - p1) && Mul(k0, k2) == 1.0 && Mul(k0, k1) == -lag
    ensures Mul(Mul(k0, k4), p2 - p1) == 1.0 - Mul(p1, lag)
  {
    assert Mul(Mul(k0, k4), p2 - p1) == Mul(k0, Mul(k4, p2 - p1));
    assert Mul(k0, Mul(k1, p1) + k2) == Mul(p1, Mul(k0, k1)) + Mul(k0, k2);
  }

  /** The quotients that init computes. */
  ghost predicate Computed(m: Model, rd: real, c2: real, rpi: real, c1: real, a: real, b: real, s: real, z: real) {
    && a == Cube(rd, c2, rpi, c1) && b == Linear(rd, c2, rpi, c1) && s >= 0.0 && Mul(s, s) == Mul(b, b) - 4.0 * a
    && Reciprocal(m.z1, Mul(rpi, c1)) && Reciprocal(m.k0, Mul(rd, c2)) && Over(m.p1, b + s, 2.0 * a) && Over(m.p2, b - s, 2.0 * a)
    && var q := Mul(m.p1, m.p2);
    && Over(m.k2, m.z1, q) && Over(m.k1, 1.0 - Mul(m.k2, m.p1 + m.p2), q) && Residues(m)
    && Over(z, c1 + c2, Mul(Mul(rpi, c1), c2)) && Over(m.A, z, q) && Over(m.B, z - m.p1, Mul(m.p1, m.p1 - m.p2)) && Over(m.D, z - m.p2, Mul(m.p2, m.p2 - m.p1))
  }

  lemma ComputedPoles(m: Model, rd: real, c2: real, rpi: real, c1: real, a: real, b: real, s: real, p1: real, p2: real)
    requires rd > 0.0 && c2 > 0.0 && rpi > 0.0 && c1 > 0.0 && a == Cube(rd, c2, rpi, c1) && b == Linear(rd, c2, rpi, c1)
    requires s >= 0.0 && Mul(s, s) == Mul(b, b) - 4.0 * a && Over(p1, b + s, 2.0 * a) && Over(p2, b - s, 2.0 * a)
    ensures 0.0 < p2 < p1 && Vieta(p1, p2, a, b) && Mul(p1, p2) > 0.0 && Mul(p1, p1 - p2) > 0.0 && Mul(p2, p2 - p1) < 0.0
  {
    Elements(rd, c2, rpi, c1);
    hide Mul, Over, Cube, Linear, Vieta;
    SmallerRoot(s, b, a);
    OverSign(p2, b - s, 2.0 * a);
    OverOrder(p1, p2, b + s, b - s, 2.0 * a);
    PolesProduct(a, b, s, p1, p2);
    Positive(p1, p2);
    Positive(p1, p1 - p2);
    Positive(p2, p1 - p2);
    Opposite(p2, p1 - p2);
  }

  lemma Opposite(x: real, y: real)
    ensures Mul(x, -y) == -Mul(x, y)
  {}

  lemma ComputedIsGood(m: Model, rd: real, c2: real, rpi: real, c1: real, a: real, b: real, s: real, z: real)
    requires rd > 0.0 && c2 > 0.0 && rpi > 0.0 && c1 > 0.0 && Computed(m, rd, c2, rpi, c1, a, b, s, z)
    ensures Good(m, rd, c2, rpi, c1)
  {
    var u, w, v, q := Mul(rd, c1 + c2), Mul(rpi, c1), Mul(rd, c2), Mul(m.p1, m.p2);
    ComputedPoles(m, rd, c2, rpi, c1, a, b, s, m.p1, m.p2);
    hide Mul, Over, Residues, Reciprocal;
    RampCoefficient(m.z1, w, v, a, q, m.k0, m.k2);
    SteadyLag(m.k0, m.k1, m.k2, a, b, q, m.p1 + m.p2, u, w, v);
    CurrentStartsAtZero(z, m.p1, m.p2, m.A, m.B, m.D);
    CurrentSlope(z, m.p1, m.p2, m.B, m.D);
    SteadyCurrent(rd, c1 + c2, c2, w, a, q, z, m.A);
  }

  lemma ReciprocalOf(x: real)
    requires x > 0.0
    ensures Reciprocal(1.0 / x, x)
  {}

  lemma ResiduesOf(k1: real, k2: real, k3: real, k4: real, p1: real, p2: real, m: Model)
    requires Over(k4, Mul(k1, p1) + k2, p2 - p1) && k3 == -k1 - k4 && m.k1 == k1 && m.k2 == k2 && m.k3 == k3 && m.k4 == k4 && m.p1 == p1 && m.p2 == p2
    ensures Residues(m)
  {}

  class DmpPiAlg {
    var model: Model

    constructor ()
    {
      model := Model(0.0, 0.0, 0.0, 0.0, 0.0, 0.0, 0.0, 0.0, 0.0, 0.0, 0.0);
    }

    /** Find poles, zeros and coefficients. */
    method Init(rd: real, c2: real, rpi: real, c1: real, sqrt: real -> real)
      requires IsSqrt(sqrt) && c1 >= 0.0 && c2 >= 0.0 && ChooseAlgorithm(true, rd, c2, rpi, c1) == Pi
      modifies this
      ensures Good(model, rd, c2, rpi, c1)
    {
      PiIsPositive(rd, c2, rpi, c1);
      Elements(rd, c2, rpi, c1);
      var w, v := Mul(rpi, c1), Mul(rd, c2);
      ReciprocalOf(w);
      ReciprocalOf(v);
      var z1, k0 := 1.0 / w, 1.0 / v;
      var a, b := Cube(rd, c2, rpi, c1), Linear(rd, c2, rpi, c1);
      var s := sqrt(Mul(b, b) - 4.0 * a);
      hide Mul, Over, Cube, Linear, Residues, Reciprocal, IsSqrt, ChooseAlgorithm, Good;
      OverDivides(b + s, 2.0 * a);
      OverDivides(b - s, 2.0 * a);
      var p1, p2 := (b + s) / (2.0 * a), (b - s) / (2.0 * a);
      ComputedPoles(model, rd, c2, rpi, c1, a, b, s, p1, p2);
      var q := Mul(p1, p2);
      var k2 := Divide(z1, q);
      var k1 := Divide(1.0 - Mul(k2, p1 + p2), q);
      var k4 := Divide(Mul(k1, p1) + k2, p2 - p1);
      var k3 := -k1 - k4;
      Positive(w, c2);
      var z := Divide(c1 + c2, Mul(w, c2));
      var A := Divide(z, q);
      var B := Divide(z - p1, Mul(p1, p1 - p2));
      var D := Divide(z - p2, Mul(p2, p2 - p1));
      model := Model(z1, k0, k1, k2, k3, k4, p1, p2, A, B, D);
      ResiduesOf(k1, k2, k3, k4, p1, p2, model);
      ComputedIsGood(model, rd, c2, rpi, c1, a, b, s, z);
    }
  }

  method Divide(x: real, y: real) returns (q: real)
    requires y != 0.0
    ensures Over(q, x, y)
  {
    q := x / y;
    OverDivides(x, y);
  }
}

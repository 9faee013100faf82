/** The fast exponential of the effective-capacitance model, and the ramp response built on it. */
module FastExp {
  import opened Sums

  const CUTOFF := -12.0
  const STEPS := 12
  const SCALE := 4096.0

  /** y squared k times over. */
  function Squarings(y: real, k: nat): real
    decreases k
  {
    if k == 0 then y else Squarings(Mul(y, y), k - 1)
  }

  /** (1 + x / 4096)^4096, and zero below the cutoff. */
  function Exp2(x: real): real { if x < CUTOFF then 0.0 else Squarings(1.0 + x / SCALE, STEPS) }

  method Exp2Of(x: real) returns (y: real)
    ensures y == Exp2(x)
  {
    if x < CUTOFF { return 0.0; }
    y := 1.0 + x / SCALE;
    var k := 0;
    while k < STEPS
      invariant 0 <= k <= STEPS && Squarings(y, STEPS - k) == Squarings(1.0 + x / SCALE, STEPS)
    {
      y := Mul(y, y);
      k := k + 1;
    }
  }

  function Pow2(k: nat): real { if k == 0 then 1.0 else 2.0 * Pow2(k - 1) }

  predicate InUnit(y: real) { 0.0 <= y <= 1.0 }

  lemma Product(x: real, y: real)
    requires 0.0 <= x && 0.0 <= y
    ensures 0.0 <= Mul(x, y)
  {}

  lemma Positive(x: real, y: real)
    requires 0.0 < x && 0.0 < y
    ensures 0.0 < Mul(x, y)
  {}

  lemma Distribute(x: real, y: real, z: real)
    ensures Mul(x, y - z) == Mul(x, y) - Mul(x, z) && Mul(x, 1.0) == x && Mul(x, y) == Mul(y, x)
    ensures Mul(x, x) - Mul(y, y) == Mul(x - y, x + y)
  {}

  lemma ScaleLess(c: real, x: real, y: real)
    requires 0.0 <= c && x <= y
    ensures Mul(c, x) <= Mul(c, y)
  {
    Product(c, y - x);
    Distribute(c, y, x);
    hide Mul;
  }

  lemma SquareInUnit(z: real, y: real)
    requires InUnit(y) && InUnit(z) && z <= y
    ensures InUnit(Mul(y, y)) && InUnit(Mul(z, z)) && Mul(z, z) <= Mul(y, y) && Mul(y, y) - Mul(z, z) <= 2.0 * (y - z)
  {
    hide Mul;
    Product(y, y);
    Product(z, z);
    ScaleLess(y, y, 1.0);
    ScaleLess(z, z, 1.0);
    Distribute(y, z, 1.0);
    Distribute(z, y, 1.0);
    Product(y - z, y + z);
    ScaleLess(y - z, y + z, 2.0);
    Twice(y - z);
  }

  lemma Twice(x: real)
    ensures Mul(x, 2.0) == 2.0 * x
  {}

  lemma {:induction false} Pow2Positive(k: nat)
    ensures Pow2(k) > 0.0
  {
    if k > 0 { Pow2Positive(k - 1); }
  }

  /** Repeated squaring keeps the unit interval, keeps order, and stretches by at most 2 each time. */
  lemma {:induction false} SquaringsStretch(z: real, y: real, k: nat)
    requires InUnit(y) && InUnit(z) && z <= y
    ensures InUnit(Squarings(y, k)) && InUnit(Squarings(z, k)) && Squarings(z, k) <= Squarings(y, k)
    ensures Squarings(y, k) - Squarings(z, k) <= Mul(Pow2(k), y - z)
    decreases k
  {
    if k == 0 {
      Distribute(y - z, 1.0, 1.0);
    } else {
      SquareInUnit(z, y);
      SquaringsStretch(Mul(z, z), Mul(y, y), k - 1);
      Pow2Positive(k - 1);
      ScaleLess(Pow2(k - 1), Mul(y, y) - Mul(z, z), 2.0 * (y - z));
      Doubled(Pow2(k - 1), y - z);
      hide Mul;
    }
  }

  lemma Doubled(c: real, x: real)
    ensures Mul(c, 2.0 * x) == Mul(2.0 * c, x)
  {}

  lemma {:induction false} SquaringsPositive(y: real, k: nat)
    requires y > 0.0
    ensures Squarings(y, k) > 0.0
    decreases k
  {
    if k > 0 {
      Positive(y, y);
      hide Mul;
      SquaringsPositive(Mul(y, y), k - 1);
    }
  }

  lemma {:induction false} SquaringsOne(k: nat)
    ensures Squarings(1.0, k) == 1.0
  {
    if k > 0 { SquaringsOne(k - 1); }
  }

  lemma Pow2Steps()
    ensures Pow2(STEPS) == SCALE
  {
    assert Pow2(4) == 16.0;
    assert Pow2(8) == 256.0;
  }

  /** For x <= 0 the fast exponential is between max(0, 1 + x) and 1. */
  lemma Exp2Bounds(x: real)
    requires x <= 0.0
    ensures 0.0 <= Exp2(x) <= 1.0 && 1.0 + x <= Exp2(x)
  {
    if x >= CUTOFF {
      SquaringsStretch(1.0 + x / SCALE, 1.0, STEPS);
      SquaringsOne(STEPS);
      Pow2Steps();
      hide Squarings, Pow2;
      assert Mul(SCALE, 1.0 - (1.0 + x / SCALE)) == -x;
    }
  }

  lemma Exp2AtZero()
    ensures Exp2(0.0) == 1.0
  {
    SquaringsOne(STEPS);
  }

  /** It grows with x, and nowhere faster than x except across the cutoff. */
  lemma Exp2Grows(w: real, x: real)
    requires w <= x <= 0.0
    ensures Exp2(w) <= Exp2(x)
    ensures CUTOFF <= w || x < CUTOFF ==> Exp2(x) - Exp2(w) <= x - w
  {
    Exp2Bounds(x);
    if CUTOFF <= w {
      SquaringsStretch(1.0 + w / SCALE, 1.0 + x / SCALE, STEPS);
      Pow2Steps();
      hide Squarings, Pow2;
      assert Mul(SCALE, (1.0 + x / SCALE) - (1.0 + w / SCALE)) == x - w;
    }
  }

  lemma Exp2Positive(x: real)
    requires x >= CUTOFF
    ensures Exp2(x) > 0.0
  {
    SquaringsPositive(1.0 + x / SCALE, STEPS);
  }

  // ---- as a power ----------------------------------------------------------------------------

  /** y to the n-th. */
  function Power(y: real, n: nat): real { if n == 0 then 1.0 else Mul(y, Power(y, n - 1)) }

  function TwoTo(k: nat): nat { if k == 0 then 1 else 2 * TwoTo(k - 1) }

  lemma Reorder(x: real, p: real)
    ensures Mul(Mul(x, x), p) == Mul(x, Mul(x, p))
  {}

  lemma {:induction false} PowerOfSquare(y: real, n: nat)
    ensures Power(Mul(y, y), n) == Power(y, 2 * n)
  {
    if n > 0 {
      PowerOfSquare(y, n - 1);
      Reorder(y, Power(y, 2 * n - 2));
      hide Mul;
      assert Power(y, 2 * n) == Mul(y, Power(y, 2 * n - 1)) && Power(y, 2 * n - 1) == Mul(y, Power(y, 2 * n - 2));
    }
  }

  lemma {:induction false} SquaringsPower(y: real, k: nat)
    ensures Squarings(y, k) == Power(y, TwoTo(k))
    decreases k
  {
    hide Mul;
    if k == 0 {
      TimesOne(y);
      assert Power(y, 1) == Mul(y, Power(y, 0));
    } else {
      SquaringsPower(Mul(y, y), k - 1);
      PowerOfSquare(y, TwoTo(k - 1));
    }
  }

  lemma TimesOne(y: real)
    ensures Mul(y, 1.0) == y
  {}

  lemma TwelveTwos()
    ensures TwoTo(12) == 4096
  {
    assert TwoTo(4) == 16;
    assert TwoTo(8) == 256;
  }

  /** The fast exponential is (1 + x/4096)^4096, cut off below -12. */
  lemma {:induction false} Exp2IsPower(x: real)
    ensures Exp2(x) == if x < -12.0 then 0.0 else Power(1.0 + x / 4096.0, 4096)
  {
    TwelveTwos();
    hide Mul, Power, Squarings, TwoTo;
    SquaringsPower(1.0 + x / 4096.0, 12);
  }

  /** Growth by h, n times over, is at least n h. */
  lemma {:induction false} Bernoulli(h: real, n: nat)
    requires h >= 0.0
    ensures Power(1.0 + h, n) >= 1.0 + Mul(n as real, h)
  {
    if n > 0 {
      Bernoulli(h, n - 1);
      var q, m := Power(1.0 + h, n - 1), Mul((n - 1) as real, h);
      Product((n - 1) as real, h);
      assert Mul(n as real, h) == m + h;
      GrowsBy(h, q, m);
    }
  }

  lemma GrowsBy(h: real, q: real, m: real)
    requires h >= 0.0 && m >= 0.0 && q >= 1.0 + m
    ensures Mul(1.0 + h, q) >= 1.0 + m + h
  {
    ScaleLess(1.0 + h, 1.0 + m, q);
    Product(h, m);
    assert Mul(1.0 + h, 1.0 + m) == 1.0 + m + h + Mul(h, m);
  }

  lemma Exchange(x: real, y: real, p: real, q: real)
    ensures Mul(Mul(x, y), Mul(p, q)) == Mul(Mul(x, p), Mul(y, q))
  {}

  lemma {:induction false} PowerOfProduct(x: real, y: real, n: nat)
    ensures Power(Mul(x, y), n) == Mul(Power(x, n), Power(y, n))
  {
    if n == 0 {
      TimesOne(1.0);
    } else {
      PowerOfProduct(x, y, n - 1);
      Exchange(x, y, Power(x, n - 1), Power(y, n - 1));
      hide Mul;
    }
  }

  lemma {:induction false} PowerInUnit(y: real, n: nat)
    requires InUnit(y)
    ensures InUnit(Power(y, n))
  {
    if n > 0 {
      PowerInUnit(y, n - 1);
      Product(y, Power(y, n - 1));
      ScaleLess(y, Power(y, n - 1), 1.0);
      TimesOne(y);
      hide Mul;
    }
  }

  /** For x <= 0 it is no more than 1 / (1 - x). */
  lemma {:induction false} Exp2Upper(x: real)
    requires x <= 0.0
    ensures Mul(Exp2(x), 1.0 - x) <= 1.0
  {
    if x >= -12.0 {
      var h := -x / 4096.0;
      Exp2IsPower(x);
      Exp2Bounds(x);
      hide Exp2, Power;
      Bernoulli(h, 4096);
      assert Mul(4096 as real, h) == -x;
      assert 1.0 + x / 4096.0 == 1.0 - h && h <= 1.0;
      PowerOfProduct(1.0 - h, 1.0 + h, 4096);
      UnitLess(h);
      PowerInUnit(Mul(1.0 - h, 1.0 + h), 4096);
      hide Mul;
      ScaleLess(Exp2(x), 1.0 - x, Power(1.0 + h, 4096));
    } else {
      MulZero(1.0 - x);
      Distribute(0.0, 1.0, x);
    }
  }

  lemma UnitLess(h: real)
    requires InUnit(h)
    ensures InUnit(Mul(1.0 - h, 1.0 + h))
  {
    Product(1.0 - h, 1.0 + h);
    Product(h, h);
    assert Mul(1.0 - h, 1.0 + h) == 1.0 - Mul(h, h);
  }

  // ---- the ramp response ---------------------------------------------------------------------

  /** What is left of an initial charge after t. */
  function Decay(t: real, tau: real): real
    requires tau > 0.0
  {
    Exp2(-t / tau)
  }

  /** Response at t to a ramp of slope one, for a time constant tau. */
  function Lag(t: real, tau: real): real
    requires tau > 0.0
  {
    t - Mul(tau, 1.0 - Decay(t, tau))
  }

  /** ... for a resistance rd into a capacitance cl. */
  function Y0(t: real, rd: real, cl: real): real
    requires rd > 0.0 && cl > 0.0
  {
    Positive(rd, cl);
    Lag(t, Mul(rd, cl))
  }

  /** Response at t to a ramp from t0 of duration dt. */
  function Y(t: real, t0: real, dt: real, rd: real, cl: real): real
    requires rd > 0.0 && cl > 0.0 && dt > 0.0
  {
    var t1 := t - t0;
    if t1 <= 0.0 then 0.0
    else if t1 <= dt then Y0(t1, rd, cl) / dt
    else (Y0(t1, rd, cl) - Y0(t1 - dt, rd, cl)) / dt
  }

  /** x == t / tau */
  ghost predicate Ratio(x: real, t: real, tau: real) { Mul(tau, x) == t }

  lemma RatioOf(t: real, tau: real)
    requires tau > 0.0
    ensures Ratio(-t / tau, -t, tau)
  {}

  lemma RatioOrder(x: real, w: real, t: real, s: real, tau: real)
    requires Ratio(x, t, tau) && Ratio(w, s, tau) && tau > 0.0 && s <= t
    ensures w <= x
  {
    if w > x {
      Positive(tau, w - x);
      Distribute(tau, w, x);
      hide Mul;
    }
  }

  lemma ZeroRatio(tau: real)
    ensures Ratio(0.0, 0.0, tau)
  {}

  /** It lags the ramp and is never negative. */
  lemma LagBounds(t: real, tau: real)
    requires t >= 0.0 && tau > 0.0
    ensures 0.0 <= Lag(t, tau) <= t
  {
    RatioOf(t, tau);
    ZeroRatio(tau);
    hide Mul;
    var x := -t / tau;
    RatioOrder(0.0, x, 0.0, -t, tau);
    Exp2Bounds(x);
    hide Exp2;
    ScaleLess(tau, 1.0 - Exp2(x), 0.0 - x);
    ScaleLess(tau, 0.0, 1.0 - Exp2(x));
    Distribute(tau, 0.0, x);
  }

  lemma Y0Bounds(t: real, rd: real, cl: real)
    requires t >= 0.0 && rd > 0.0 && cl > 0.0
    ensures 0.0 <= Y0(t, rd, cl) <= t
  {
    Positive(rd, cl);
    hide Mul, Lag;
    LagBounds(t, Mul(rd, cl));
  }

  /** Over an interval the response rises by at most its length, and does not fall unless the interval crosses the cutoff. */
  lemma LagRises(s: real, t: real, tau: real)
    requires 0.0 <= s <= t && tau > 0.0
    ensures Lag(t, tau) - Lag(s, tau) <= t - s
    ensures CUTOFF <= -t / tau || -s / tau < CUTOFF ==> Lag(s, tau) <= Lag(t, tau)
  {
    RatioOf(s, tau);
    RatioOf(t, tau);
    ZeroRatio(tau);
    hide Mul;
    var w, x := -t / tau, -s / tau;
    RatioOrder(0.0, x, 0.0, -s, tau);
    RatioOrder(x, w, -s, -t, tau);
    Exp2Grows(w, x);
    hide Exp2;
    LagDifference(s, t, tau);
    ScaleLess(tau, Exp2(w), Exp2(x));
    if CUTOFF <= w || x < CUTOFF {
      ScaleLess(tau, Exp2(x) - Exp2(w), x - w);
      Distribute(tau, Exp2(x), Exp2(w));
      Distribute(tau, x, w);
    }
  }

  lemma LagDifference(s: real, t: real, tau: real)
    requires tau > 0.0
    ensures Lag(t, tau) - Lag(s, tau) == t - s - (Mul(tau, Decay(s, tau)) - Mul(tau, Decay(t, tau)))
  {
    hide Decay;
    Distribute(tau, 1.0, Decay(s, tau));
    Distribute(tau, 1.0, Decay(t, tau));
    hide Mul;
  }

  lemma ProductSign(q: real, dt: real)
    requires dt > 0.0
    ensures Mul(q, dt) >= 0.0 <==> q >= 0.0
  {
    if q >= 0.0 {
      Product(q, dt);
    } else {
      Positive(-q, dt);
    }
  }

  lemma Quotient(x: real, dt: real)
    requires dt > 0.0
    ensures (x / dt >= 0.0 <==> x >= 0.0) && (x <= dt ==> x / dt <= 1.0)
  {
    assert Mul(x / dt, dt) == x;
    assert Mul(1.0 - x / dt, dt) == dt - x;
    ProductSign(x / dt, dt);
    ProductSign(1.0 - x / dt, dt);
  }

  /** The window of length dt that ends at t1 has the cutoff of the exponential inside it. */
  ghost predicate Crosses(t1: real, dt: real, tau: real)
    requires tau > 0.0
  {
    dt < t1 && -t1 / tau < -12.0 <= -(t1 - dt) / tau
  }

  /** The ramp response never exceeds one; it is negative only where the window crosses the cutoff, and there exactly when
      the window is shorter than what the cutoff drops. */
  lemma YBounds(t: real, t0: real, dt: real, rd: real, cl: real)
    requires rd > 0.0 && cl > 0.0 && dt > 0.0
    ensures Mul(rd, cl) > 0.0 && Y(t, t0, dt, rd, cl) <= 1.0
    ensures var tau, t1 := Mul(rd, cl), t - t0;
            Y(t, t0, dt, rd, cl) >= 0.0 <==> !(Crosses(t1, dt, tau) && dt < Mul(tau, Decay(t1 - dt, tau)))
  {
    Positive(rd, cl);
    var tau, t1 := Mul(rd, cl), t - t0;
    hide Mul, Lag;
    if 0.0 < t1 <= dt {
      LagBounds(t1, tau);
      Quotient(Lag(t1, tau), dt);
    } else if t1 > dt {
      var s := t1 - dt;
      LagRises(s, t1, tau);
      Quotient(Lag(t1, tau) - Lag(s, tau), dt);
      if Crosses(t1, dt, tau) {
        assert Decay(t1, tau) == 0.0;
        LagDifference(s, t1, tau);
        MulZero(tau);
      }
    }
  }

  lemma MulZero(x: real)
    ensures Mul(x, 0.0) == 0.0
  {}

  /** Twelve time constants after the ramp's end the response has settled; the lag behind a ramp that goes on is the time constant. */
  lemma YSettles(t: real, t0: real, dt: real, rd: real, cl: real)
    requires rd > 0.0 && cl > 0.0 && dt > 0.0
    ensures Mul(rd, cl) > 0.0 && (t > 0.0 && -t / Mul(rd, cl) < -12.0 ==> Y0(t, rd, cl) == t - Mul(rd, cl))
    ensures t - t0 > dt && -(t - t0 - dt) / Mul(rd, cl) < -12.0 && -(t - t0) / Mul(rd, cl) < -12.0 ==> Y(t, t0, dt, rd, cl) == 1.0
  {
    Positive(rd, cl);
    TimesOne(Mul(rd, cl));
    hide Mul;
  }

  /** The response at t to a ramp of duration dt from time zero is negative, for unit resistance and capacitance. */
  ghost predicate Dips(t: real, dt: real) { dt > 0.0 && Y(t, 0.0, dt, 1.0, 1.0) < 0.0 }

  /** Such a window exists: the cutoff makes the response dip below zero. */
  lemma RampDips()
    ensures exists t: real, dt: real :: Dips(t, dt)
  {
    var c := Exp2(CUTOFF);
    Exp2Positive(CUTOFF);
    Exp2Bounds(CUTOFF);
    var t, dt := 12.0 + c / 4.0, c / 2.0;
    hide Exp2;
    MulOne(1.0);
    assert Decay(t - dt, 1.0) == Exp2(-(t - dt));
    Exp2Grows(CUTOFF, -(t - dt));
    MulOne(Decay(t - dt, 1.0));
    hide Mul, Y, Decay;
    YBounds(t, 0.0, dt, 1.0, 1.0);
    assert Dips(t, dt);
  }

  lemma MulOne(x: real)
    ensures Mul(1.0, x) == x
  {}
}

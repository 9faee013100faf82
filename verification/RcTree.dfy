/** The resistance-capacitance operator of an RC tree, and the two linear passes that apply it. */
module RcTree {
  import opened Sums

  /** Parents listed root first: point 0 is the root and every other point follows its parent. */
  ghost predicate IsTree(par: seq<int>) {
    && |par| >= 1
    && par[0] == -1
    && forall j | 1 <= j < |par| :: 0 <= par[j] < j
  }

  /** Point i lies on the tree path from the root to point k, both ends included. */
  ghost predicate OnPath(par: seq<int>, i: int, k: int)
    decreases k
  {
    0 <= k < |par| && (i == k || (0 <= par[k] < k && OnPath(par, i, par[k])))
  }

  /** The resistance shared by the tree paths from the root to j and to k: entry (j, k) of R. */
  ghost function SharedR(par: seq<int>, r: seq<real>, j: int, k: int): real {
    Sum(i => if OnPath(par, i, j) && OnPath(par, i, k) then At(r, i) else 0.0, |par|)
  }

  /** Row j of the product of R with a vector of charges. */
  ghost function RTimes(par: seq<int>, r: seq<real>, q: seq<real>, j: int): real {
    Sum(k => SharedR(par, r, j, k) * At(q, k), |par|)
  }

  /** 1 when i lies on the path to k, else 0. */
  ghost function On(par: seq<int>, i: int, k: int): real {
    if OnPath(par, i, k) then 1.0 else 0.0
  }

  /** The charge at and below point i. */
  ghost function Below(par: seq<int>, q: seq<real>, i: int): real {
    Sum(k => On(par, i, k) * At(q, k), |par|)
  }

  /** The drop across each edge when r[i] carries the charge below i. */
  ghost function Drops(par: seq<int>, r: seq<real>, q: seq<real>): (w: seq<real>)
    ensures |w| == |par| && forall i | 0 <= i < |par| :: w[i] == At(r, i) * Below(par, q, i)
  {
    seq(|par|, i => At(r, i) * Below(par, q, i))
  }

  /** The drops accumulated along the path to j. */
  ghost function PathSum(par: seq<int>, w: seq<real>, j: int): real {
    Sum(i => On(par, i, j) * At(w, i), |par|)
  }

  lemma {:induction false} OnPathOrder(par: seq<int>, i: int, k: int)
    requires OnPath(par, i, k)
    ensures i <= k
    decreases k
  {
    if i != k { OnPathOrder(par, i, par[k]); }
  }

  /** A path sum, and the charge below a point, as rows and columns of the matrix On. */
  lemma {:induction false} PathRow(par: seq<int>, w: seq<real>, A: (int, int) -> real, g: int -> real, j: int)
    requires (forall j, i :: A(j, i) == On(par, i, j)) && forall i :: g(i) == At(w, i)
    ensures PathSum(par, w, j) == Sum(i => A(j, i) * g(i), |par|)
  {
    hide On, At;
    SumEq(i => On(par, i, j) * At(w, i), i => A(j, i) * g(i), |par|);
  }

  lemma {:induction false} BelowColumn(par: seq<int>, p: seq<real>, f: int -> real, A: (int, int) -> real, i: int)
    requires (forall j, i :: A(j, i) == On(par, i, j)) && forall j :: f(j) == At(p, j)
    ensures Below(par, p, i) == Sum(j => f(j) * A(j, i), |par|)
  {
    hide On, At;
    SumEq(k => On(par, i, k) * At(p, k), j => f(j) * A(j, i), |par|);
  }

  /** Row i of the drops, and the shared resistance, in the same terms. */
  lemma {:induction false} DropsRow(par: seq<int>, r: seq<real>, q: seq<real>, j: int, i: int, f: int -> real, A: (int, int) -> real, g: int -> real)
    requires 0 <= i < |par| && (forall i :: f(i) == On(par, i, j) * At(r, i)) && (forall i, k :: A(i, k) == On(par, i, k)) && forall k :: g(k) == At(q, k)
    ensures On(par, i, j) * At(Drops(par, r, q), i) == f(i) * Sum(k => A(i, k) * g(k), |par|)
  {
    hide On;
    SumEq(k => On(par, i, k) * At(q, k), k => A(i, k) * g(k), |par|);
    Associate3(On(par, i, j), At(r, i), Below(par, q, i));
  }

  lemma Associate3(x: real, y: real, z: real)
    ensures x * (y * z) == (x * y) * z
  {}

  lemma {:induction false} SharedColumn(par: seq<int>, r: seq<real>, j: int, k: int, f: int -> real, A: (int, int) -> real)
    requires (forall i :: f(i) == On(par, i, j) * At(r, i)) && forall i, k :: A(i, k) == On(par, i, k)
    ensures SharedR(par, r, j, k) == Sum(i => f(i) * A(i, k), |par|)
  {
    hide At;
    SumEq(i => if OnPath(par, i, j) && OnPath(par, i, k) then At(r, i) else 0.0, i => f(i) * A(i, k), |par|);
  }

  lemma {:induction false} PathSide(par: seq<int>, r: seq<real>, q: seq<real>, j: int, f: int -> real, A: (int, int) -> real, g: int -> real)
    requires (forall i :: f(i) == On(par, i, j) * At(r, i)) && (forall i, k :: A(i, k) == On(par, i, k)) && forall k :: g(k) == At(q, k)
    ensures PathSum(par, Drops(par, r, q), j) == Sum(i => f(i) * Sum(k => A(i, k) * g(k), |par|), |par|)
  {
    hide On, At, Drops;
    var h := i => On(par, i, j) * At(Drops(par, r, q), i);
    forall i | 0 <= i < |par| ensures h(i) == f(i) * Sum(k => A(i, k) * g(k), |par|) { DropsRow(par, r, q, j, i, f, A, g); }
    SumEq(h, i => f(i) * Sum(k => A(i, k) * g(k), |par|), |par|);
    SumEq(h, i => On(par, i, j) * At(Drops(par, r, q), i), |par|);
  }

  lemma {:induction false} SharedSide(par: seq<int>, r: seq<real>, q: seq<real>, j: int, f: int -> real, A: (int, int) -> real, g: int -> real)
    requires (forall i :: f(i) == On(par, i, j) * At(r, i)) && (forall i, k :: A(i, k) == On(par, i, k)) && forall k :: g(k) == At(q, k)
    ensures RTimes(par, r, q, j) == Sum(k => Sum(i => f(i) * A(i, k), |par|) * g(k), |par|)
  {
    hide On, At, SharedR;
    forall k | 0 <= k < |par| ensures SharedR(par, r, j, k) == Sum(i => f(i) * A(i, k), |par|) { SharedColumn(par, r, j, k, f, A); }
    SumEq(k => SharedR(par, r, j, k) * At(q, k), k => Sum(i => f(i) * A(i, k), |par|) * g(k), |par|);
  }

  /** Exchanging the order of summation turns the path sum into the matrix product. */
  lemma {:induction false} PathSumIsRTimes(par: seq<int>, r: seq<real>, q: seq<real>, j: int)
    ensures PathSum(par, Drops(par, r, q), j) == RTimes(par, r, q, j)
  {
    hide On, At, SharedR, Drops, PathSum, RTimes;
    var f, A, g := i => On(par, i, j) * At(r, i), (i, k) => On(par, i, k), k => At(q, k);
    PathSide(par, r, q, j, f, A, g);
    Bilinear(f, A, g, |par|, |par|);
    SharedSide(par, r, q, j, f, A, g);
  }

  /** Weighting path sums by p is weighting each edge by the charge of p below it. */
  lemma {:induction false} PathForm(par: seq<int>, w: seq<real>, p: seq<real>)
    ensures Sum(j => At(p, j) * PathSum(par, w, j), |par|) == Sum(i => Below(par, p, i) * At(w, i), |par|)
  {
    hide PathSum, Below, On, At;
    var n := |par|;
    var f, A, g := j => At(p, j), (j, i) => On(par, i, j), i => At(w, i);
    forall j | 0 <= j < n ensures PathSum(par, w, j) == Sum(i => A(j, i) * g(i), n) { PathRow(par, w, A, g, j); }
    forall i | 0 <= i < n ensures Below(par, p, i) == Sum(j => f(j) * A(j, i), n) { BelowColumn(par, p, f, A, i); }
    SumEq(j => At(p, j) * PathSum(par, w, j), j => f(j) * Sum(i => A(j, i) * g(i), n), n);
    Bilinear(f, A, g, n, n);
    SumEq(i => Below(par, p, i) * At(w, i), i => Sum(j => f(j) * A(j, i), n) * g(i), n);
  }

  /** One edge's share of p'Rq: its resistance times the two charges it carries. */
  ghost function EdgeEnergy(par: seq<int>, r: seq<real>, p: seq<real>, q: seq<real>, i: int): real {
    At(r, i) * (Below(par, p, i) * Below(par, q, i))
  }

  /** The energy identity: p'Rq is the sum over edges of r[i] times the two charges below i. */
  lemma {:induction false} Energy(par: seq<int>, r: seq<real>, p: seq<real>, q: seq<real>)
    ensures Sum(j => At(p, j) * RTimes(par, r, q, j), |par|) == Sum(i => EdgeEnergy(par, r, p, q, i), |par|)
  {
    var n, w := |par|, Drops(par, r, q);
    forall j | 0 <= j < n ensures PathSum(par, w, j) == RTimes(par, r, q, j) { PathSumIsRTimes(par, r, q, j); }
    SumEq(j => At(p, j) * RTimes(par, r, q, j), j => At(p, j) * PathSum(par, w, j), n);
    PathForm(par, w, p);
    EnergyTerms(par, r, p, q, w);
  }

  lemma {:induction false} EnergyTerms(par: seq<int>, r: seq<real>, p: seq<real>, q: seq<real>, w: seq<real>)
    requires w == Drops(par, r, q)
    ensures Sum(i => Below(par, p, i) * At(w, i), |par|) == Sum(i => EdgeEnergy(par, r, p, q, i), |par|)
  {
    forall i | 0 <= i < |par| ensures Below(par, p, i) * At(w, i) == EdgeEnergy(par, r, p, q, i) {
      Commute(Below(par, p, i), At(r, i), Below(par, q, i));
    }
    SumEq(i => Below(par, p, i) * At(w, i), i => EdgeEnergy(par, r, p, q, i), |par|);
  }

  /** R is symmetric as a bilinear form: p'Rq == q'Rp. */
  lemma {:induction false} Reciprocal(par: seq<int>, r: seq<real>, p: seq<real>, q: seq<real>)
    ensures Sum(j => At(p, j) * RTimes(par, r, q, j), |par|) == Sum(j => At(q, j) * RTimes(par, r, p, j), |par|)
  {
    Energy(par, r, p, q);
    Energy(par, r, q, p);
    SumEq(i => EdgeEnergy(par, r, p, q, i), i => EdgeEnergy(par, r, q, p, i), |par|);
  }

  lemma Commute(x: real, r: real, y: real)
    ensures x * (r * y) == r * (x * y)
  {}

  /** The first point at or above k, walking to the root, whose number is at most j. */
  ghost function Top(par: seq<int>, j: int, k: int): int
    decreases k
  {
    if 0 <= k < |par| && j < k && 0 <= par[k] < k then Top(par, j, par[k]) else k
  }

  /** What the leaf-to-root pass has delivered to i once every point above j is done. */
  ghost function Pending(par: seq<int>, q: seq<real>, j: int, i: int): real {
    Sum(k => if k > j && Top(par, j, k) == i then At(q, k) else 0.0, |par|)
  }

  lemma {:induction false} TopOnPath(par: seq<int>, j: int, k: int)
    requires IsTree(par) && 0 <= j && 0 <= k < |par|
    ensures OnPath(par, j, k) <==> k >= j && Top(par, j, k) == j
    decreases k
  {
    if k > j { TopOnPath(par, j, par[k]); }
    else if OnPath(par, j, k) { OnPathOrder(par, j, k); }
  }

  lemma {:induction false} TopStep(par: seq<int>, j: int, k: int)
    requires IsTree(par) && 1 <= j < |par| && 0 <= k < |par|
    ensures Top(par, j - 1, k) == if Top(par, j, k) == j then par[j] else Top(par, j, k)
    decreases k
  {
    if k > j { TopStep(par, j, par[k]); }
  }

  /** Point j, once its own charge is added, holds exactly the charge below it. */
  lemma {:induction false} BelowIsPending(par: seq<int>, q: seq<real>, j: int)
    requires IsTree(par) && 0 <= j < |par|
    ensures Below(par, q, j) == Pending(par, q, j, j) + At(q, j)
  {
    var n := |par|;
    forall k | 0 <= k < n
      ensures On(par, j, k) * At(q, k)
           == (if k > j && Top(par, j, k) == j then At(q, k) else 0.0) + (if k == j then At(q, k) else 0.0)
    {
      TopOnPath(par, j, k);
    }
    SumUnit(k => if k == j then At(q, k) else 0.0, j, n);
    SumAdd(k => if k > j && Top(par, j, k) == j then At(q, k) else 0.0,
           k => if k == j then At(q, k) else 0.0, k => On(par, j, k) * At(q, k), n);
  }

  /** Handing the total of j to its parent moves the frontier from j to j - 1. */
  lemma {:induction false} PendingStep(par: seq<int>, q: seq<real>, j: int)
    requires IsTree(par) && 1 <= j < |par|
    ensures forall i, j' | 0 <= i < j && j' == j - 1 ::
              Pending(par, q, j', i) == Pending(par, q, j, i) + if i == par[j] then Below(par, q, j) else 0.0
  {
    var n := |par|;
    forall i, j' | 0 <= i < j && j' == j - 1
      ensures Pending(par, q, j', i) == Pending(par, q, j, i) + if i == par[j] then Below(par, q, j) else 0.0
    {
      var mine := k => if k > j && Top(par, j, k) == i then At(q, k) else 0.0;
      var theirs := k => On(par, j, k) * At(q, k);
      var after := k => if k > j' && Top(par, j', k) == i then At(q, k) else 0.0;
      var b := if i == par[j] then 1.0 else 0.0;
      forall k | 0 <= k < n ensures after(k) == 1.0 * mine(k) + b * theirs(k) {
        TopStep(par, j, k);
        TopOnPath(par, j, k);
      }
      SumLinear(1.0, mine, b, theirs, after, n);
      SumEq(mine, k => if k > j && Top(par, j, k) == i then At(q, k) else 0.0, n);
      SumEq(theirs, k => On(par, j, k) * At(q, k), n);
      SumEq(after, k => if k > j' && Top(par, j', k) == i then At(q, k) else 0.0, n);
    }
  }

  lemma {:induction false} PendingStart(par: seq<int>, q: seq<real>)
    ensures forall j, i | j == |par| - 1 :: Pending(par, q, j, i) == 0.0
  {
    forall j, i | j == |par| - 1 ensures Pending(par, q, j, i) == 0.0 {
      SumUnit(k => if k > j && Top(par, j, k) == i then At(q, k) else 0.0, -1, |par|);
    }
  }

  /** The root-to-leaf recurrence: one more edge on the path adds its own drop. */
  lemma {:induction false} PathSumStep(par: seq<int>, w: seq<real>, j: int)
    requires IsTree(par) && 0 <= j < |par|
    ensures PathSum(par, w, j) == (if j == 0 then 0.0 else PathSum(par, w, par[j])) + At(w, j)
  {
    var n := |par|;
    var unit := i => if i == j then At(w, i) else 0.0;
    SumUnit(unit, j, n);
    if j == 0 {
      SumEq(i => On(par, i, j) * At(w, i), unit, n);
    } else {
      if OnPath(par, j, par[j]) { OnPathOrder(par, j, par[j]); }
      SumAdd(i => On(par, i, par[j]) * At(w, i), unit, i => On(par, i, j) * At(w, i), n);
    }
  }

  /** The charge vector C u. */
  ghost function Charges(c: seq<real>, u: seq<real>): (q: seq<real>)
    requires |c| == |u|
    ensures |q| == |c| && forall j | 0 <= j < |c| :: q[j] == c[j] * u[j]
  {
    seq(|c|, j requires 0 <= j < |c| => c[j] * u[j])
  }

  /** iv = charge below each point: one pass from the leaves to the root. */
  method CurrentPass(par: seq<int>, c: seq<real>, u: array<real>, iv: array<real>)
    requires IsTree(par) && |c| == |par| == u.Length == iv.Length
    requires iv != u
    modifies iv
    ensures forall j | 0 <= j < |par| :: iv[j] == Below(par, Charges(c, u[..]), j)
  {
    hide Pending, Below, OnPath;
    var n := |par|;
    ghost var q := Charges(c, u[..]);
    var j := 0;
    while j < n
      invariant 0 <= j <= n
      invariant forall i | 0 <= i < j :: iv[i] == 0.0
    {
      iv[j] := 0.0;
      j := j + 1;
    }
    PendingStart(par, q);
    j := n - 1;
    while j > 0
      invariant 0 <= j < n
      invariant forall i | 0 <= i <= j :: iv[i] == Pending(par, q, j, i)
      invariant forall i | j < i < n :: iv[i] == Below(par, q, i)
    {
      BelowIsPending(par, q, j);
      PendingStep(par, q, j);
      assert q[j] == c[j] * u[j];
      iv[j] := iv[j] + c[j] * u[j];
      iv[par[j]] := iv[par[j]] + iv[j];
      j := j - 1;
    }
    BelowIsPending(par, q, 0);
    assert q[0] == c[0] * u[0];
    iv[0] := iv[0] + c[0] * u[0];
  }

  /** y = drops accumulated along the path to each point: one pass from the root to the leaves. */
  method VoltagePass(par: seq<int>, r: seq<real>, iv: array<real>, y: array<real>, ghost q: seq<real>)
    requires IsTree(par) && |r| == |par| == |q| == iv.Length == y.Length && r[0] == 0.0 && iv != y
    requires forall j | 0 <= j < |par| :: iv[j] == Below(par, q, j)
    modifies y
    ensures forall j | 0 <= j < |par| :: y[j] == PathSum(par, Drops(par, r, q), j)
  {
    hide Below, PathSum;
    ghost var w := Drops(par, r, q);
    PathSumStep(par, w, 0);
    y[0] := 0.0;
    var j := 1;
    while j < |par|
      invariant 1 <= j <= |par| && forall i | 0 <= i < j :: y[i] == PathSum(par, w, i)
    {
      PathSumStep(par, w, j);
      y[j] := y[par[j]] + r[j] * iv[j];
      j := j + 1;
    }
  }

  /** y = R C u: the leaf-to-root pass, then drops accumulated from the root to the leaves. */
  method ApplyRC(par: seq<int>, r: seq<real>, c: seq<real>, u: array<real>, iv: array<real>, y: array<real>)
    requires IsTree(par) && |r| == |c| == |par| == u.Length == iv.Length == y.Length
    requires r[0] == 0.0
    requires iv != y && iv != u && y != u
    modifies iv, y
    ensures forall j | 0 <= j < |par| :: iv[j] == Below(par, Charges(c, u[..]), j)
    ensures forall j | 0 <= j < |par| :: y[j] == RTimes(par, r, Charges(c, u[..]), j)
  {
    hide Below, PathSum, RTimes;
    var n := |par|;
    ghost var q := Charges(c, u[..]);
    CurrentPass(par, c, u, iv);
    VoltagePass(par, r, iv, y, q);
    forall i | 0 <= i < n ensures y[i] == RTimes(par, r, q, i) { PathSumIsRTimes(par, r, q, i); }
  }
}

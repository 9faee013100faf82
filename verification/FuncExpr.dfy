/** Boolean function expressions of a cell: the unateness analysis, and the structural order and equivalence. */
module FuncExpr {
  /** A port: its identity, and what equivalence looks at. dir is the index of its direction, one per direction. */
  datatype Port = Port(id: nat, name: string, dir: nat)

  /** Null stands for a missing sub-expression (an unknown port reference). */
  datatype Expr<P> =
    | Null
    | Ref(port: P)
    | Not(left: Expr<P>)
    | Or(left: Expr<P>, right: Expr<P>)
    | And(left: Expr<P>, right: Expr<P>)
    | Xor(left: Expr<P>, right: Expr<P>)
    | One
    | Zero

  predicate NullFree<P>(e: Expr<P>) {
    match e
    case Null => false
    case Not(l) => NullFree(l)
    case Or(l, r) => NullFree(l) && NullFree(r)
    case And(l, r) => NullFree(l) && NullFree(r)
    case Xor(l, r) => NullFree(l) && NullFree(r)
    case _ => true
  }

  ghost function Size<P>(e: Expr<P>): nat {
    match e
    case Not(l) => 1 + Size(l)
    case Or(l, r) => 1 + Size(l) + Size(r)
    case And(l, r) => 1 + Size(l) + Size(r)
    case Xor(l, r) => 1 + Size(l) + Size(r)
    case _ => 0
  }

  // ---- unateness -----------------------------------------------------------------------------

  datatype Sense = PositiveUnate | NegativeUnate | NonUnate | None | Unknown

  function NotSense(s: Sense): Sense {
    match s
    case PositiveUnate => NegativeUnate
    case NegativeUnate => PositiveUnate
    case _ => s
  }

  function AndOrSense(l: Sense, r: Sense): Sense {
    if l == r then l
    else if l == NonUnate || r == NonUnate || (l == PositiveUnate && r == NegativeUnate) || (l == NegativeUnate && r == PositiveUnate) then NonUnate
    else if l == None || l == Unknown then r
    else if r == None || r == Unknown then l
    else Unknown
  }

  predicate Depends(s: Sense) { s == PositiveUnate || s == NegativeUnate || s == NonUnate }

  function XorSense(l: Sense, r: Sense): Sense { if Depends(l) || Depends(r) then NonUnate else Unknown }

  /** Missing operands count as unknown. */
  function PortTimingSense<P(==)>(e: Expr<P>, port: P): Sense {
    match e
    case Null => Unknown
    case Ref(p) => if p == port then PositiveUnate else None
    case Not(l) => NotSense(PortTimingSense(l, port))
    case Or(l, r) => AndOrSense(PortTimingSense(l, port), PortTimingSense(r, port))
    case And(l, r) => AndOrSense(PortTimingSense(l, port), PortTimingSense(r, port))
    case Xor(l, r) => XorSense(PortTimingSense(l, port), PortTimingSense(r, port))
    case One => None
    case Zero => None
  }

  predicate HasPort<P(==)>(e: Expr<P>, port: P) {
    match e
    case Ref(p) => p == port
    case Not(l) => HasPort(l, port)
    case Or(l, r) => HasPort(l, port) || HasPort(r, port)
    case And(l, r) => HasPort(l, port) || HasPort(r, port)
    case Xor(l, r) => HasPort(l, port) || HasPort(r, port)
    case _ => false
  }

  /** The value of an expression under an assignment; a missing operand has none, and is never asked for one. */
  predicate Eval<P>(e: Expr<P>, env: P -> bool)
    requires NullFree(e)
  {
    match e
    case Ref(p) => env(p)
    case Not(l) => !Eval(l, env)
    case Or(l, r) => Eval(l, env) || Eval(r, env)
    case And(l, r) => Eval(l, env) && Eval(r, env)
    case Xor(l, r) => Eval(l, env) != Eval(r, env)
    case One => true
    case Zero => false
  }

  function With<P(==)>(env: P -> bool, port: P, value: bool): P -> bool { p => if p == port then value else env(p) }

  /** What a sense promises about the value with the port low and high. */
  predicate Promise(s: Sense, low: bool, high: bool) {
    match s
    case PositiveUnate => low ==> high
    case NegativeUnate => high ==> low
    case NonUnate => true
    case None => low == high
    case Unknown => low == high
  }

  /** The analysis is sound: monotone when positive, antitone when negative, independent when none or unknown. */
  lemma {:induction false} SenseSound<P>(e: Expr<P>, port: P, env: P -> bool)
    requires NullFree(e)
    ensures Promise(PortTimingSense(e, port), Eval(e, With(env, port, false)), Eval(e, With(env, port, true)))
  {
    match e
    case Not(l) => SenseSound(l, port, env);
    case Or(l, r) => SenseSound(l, port, env); SenseSound(r, port, env);
    case And(l, r) => SenseSound(l, port, env); SenseSound(r, port, env);
    case Xor(l, r) => SenseSound(l, port, env); SenseSound(r, port, env);
    case _ =>
  }

  /** A port occurs exactly when its sense is positive, negative or non-unate, null operands or not. */
  lemma {:induction false} HasPortIff<P>(e: Expr<P>, port: P)
    ensures HasPort(e, port) <==> Depends(PortTimingSense(e, port))
  {
    match e
    case Not(l) => HasPortIff(l, port);
    case Or(l, r) => HasPortIff(l, port); HasPortIff(r, port);
    case And(l, r) => HasPortIff(l, port); HasPortIff(r, port);
    case Xor(l, r) => HasPortIff(l, port); HasPortIff(r, port);
    case _ =>
  }

  /** The port occurs under an even number of nots, under an odd number, anywhere below a xor. */
  predicate Evenly<P(==)>(e: Expr<P>, port: P) {
    match e
    case Ref(p) => p == port
    case Not(l) => Oddly(l, port)
    case Or(l, r) => Evenly(l, port) || Evenly(r, port)
    case And(l, r) => Evenly(l, port) || Evenly(r, port)
    case Xor(l, r) => Evenly(l, port) || Evenly(r, port)
    case _ => false
  }

  predicate Oddly<P(==)>(e: Expr<P>, port: P) {
    match e
    case Not(l) => Evenly(l, port)
    case Or(l, r) => Oddly(l, port) || Oddly(r, port)
    case And(l, r) => Oddly(l, port) || Oddly(r, port)
    case Xor(l, r) => Oddly(l, port) || Oddly(r, port)
    case _ => false
  }

  predicate BelowXor<P(==)>(e: Expr<P>, port: P) {
    match e
    case Not(l) => BelowXor(l, port)
    case Or(l, r) => BelowXor(l, port) || BelowXor(r, port)
    case And(l, r) => BelowXor(l, port) || BelowXor(r, port)
    case Xor(l, r) => Evenly(l, port) || Oddly(l, port) || Evenly(r, port) || Oddly(r, port)
    case _ => false
  }

  /** The analysis is precise: what it answers is how the port occurs. */
  lemma {:induction false} SenseIff<P>(e: Expr<P>, port: P)
    ensures PortTimingSense(e, port) == PositiveUnate <==> Evenly(e, port) && !Oddly(e, port) && !BelowXor(e, port)
    ensures PortTimingSense(e, port) == NegativeUnate <==> Oddly(e, port) && !Evenly(e, port) && !BelowXor(e, port)
    ensures PortTimingSense(e, port) == NonUnate <==> (Evenly(e, port) && Oddly(e, port)) || BelowXor(e, port)
  {
    match e
    case Not(l) => SenseIff(l, port);
    case Or(l, r) => SenseIff(l, port); SenseIff(r, port); XorBelow(l, port); XorBelow(r, port);
    case And(l, r) => SenseIff(l, port); SenseIff(r, port); XorBelow(l, port); XorBelow(r, port);
    case Xor(l, r) => SenseIff(l, port); SenseIff(r, port); XorBelow(l, port); XorBelow(r, port);
    case _ =>
  }

  lemma {:induction false} XorBelow<P>(e: Expr<P>, port: P)
    ensures BelowXor(e, port) ==> Evenly(e, port) || Oddly(e, port)
  {
    match e
    case Not(l) => XorBelow(l, port);
    case Or(l, r) => XorBelow(l, port); XorBelow(r, port);
    case And(l, r) => XorBelow(l, port); XorBelow(r, port);
    case _ =>
  }

  lemma {:induction false} OccursIff<P>(e: Expr<P>, port: P)
    ensures HasPort(e, port) <==> Evenly(e, port) || Oddly(e, port)
  {
    match e
    case Not(l) => OccursIff(l, port);
    case Or(l, r) => OccursIff(l, port); OccursIff(r, port);
    case And(l, r) => OccursIff(l, port); OccursIff(r, port);
    case Xor(l, r) => OccursIff(l, port); OccursIff(r, port);
    case _ =>
  }

  // ---- equivalence and order -----------------------------------------------------------------

  /** strcmp(a, b) < 0 */
  predicate StringLess(a: string, b: string) {
    if |b| == 0 then false
    else if |a| == 0 then true
    else a[0] < b[0] || (a[0] == b[0] && StringLess(a[1..], b[1..]))
  }

  predicate PortEquiv(p: Port, q: Port) { p.name == q.name && p.dir == q.dir }

  predicate PortLess(p: Port, q: Port) { if p.name == q.name then p.dir < q.dir else StringLess(p.name, q.name) }

  /** The place of the operator in its enumeration. */
  function Op<P>(e: Expr<P>): int {
    match e
    case Null => -1
    case Ref(_) => 0
    case Not(_) => 1
    case Or(_, _) => 2
    case And(_, _) => 3
    case Xor(_, _) => 4
    case One => 5
    case Zero => 6
  }

  predicate Binary<P>(e: Expr<P>) { e.Or? || e.And? || e.Xor? }

  predicate Equiv(a: Expr<Port>, b: Expr<Port>) {
    if a.Null? && b.Null? then true
    else if !a.Null? && !b.Null? && Op(a) == Op(b) then
      if a.Ref? then PortEquiv(a.port, b.port)
      else if a.Not? then Equiv(a.left, b.left)
      else if Binary(a) then Equiv(a.left, b.left) && Equiv(a.right, b.right)
      else true
    else false
  }

  predicate Less(a: Expr<Port>, b: Expr<Port>) {
    if !a.Null? && !b.Null? then
      if Op(a) == Op(b) then
        if a.Ref? then PortLess(a.port, b.port)
        else if a.Not? then Less(a.left, b.left)
        else if Binary(a) then if Equiv(a.left, b.left) then Less(a.right, b.right) else Less(a.left, b.left)
        else false
      else Op(a) < Op(b)
    else a.Null? && !b.Null?
  }

  lemma {:induction false} StringLessTotal(a: string, b: string)
    ensures a == b <==> !StringLess(a, b) && !StringLess(b, a)
    ensures !(StringLess(a, b) && StringLess(b, a))
  {
    if |a| > 0 && |b| > 0 {
      StringLessTotal(a[1..], b[1..]);
      assert a == [a[0]] + a[1..] && b == [b[0]] + b[1..];
    }
  }

  lemma {:induction false} StringLessTransitive(a: string, b: string, c: string)
    requires StringLess(a, b) && StringLess(b, c)
    ensures StringLess(a, c)
  {
    if |a| > 0 && a[0] == b[0] == c[0] { StringLessTransitive(a[1..], b[1..], c[1..]); }
  }

  lemma {:induction false} PortOrder(p: Port, q: Port, r: Port)
    ensures PortEquiv(p, q) <==> !PortLess(p, q) && !PortLess(q, p)
    ensures !(PortLess(p, q) && PortLess(q, p))
    ensures PortLess(p, q) && PortLess(q, r) ==> PortLess(p, r)
    ensures PortEquiv(p, q) ==> (PortLess(p, r) <==> PortLess(q, r)) && (PortLess(r, p) <==> PortLess(r, q))
  {
    StringLessTotal(p.name, q.name);
    if PortLess(p, q) && PortLess(q, r) && p.name != q.name && q.name != r.name {
      StringLessTransitive(p.name, q.name, r.name);
      StringLessTotal(p.name, p.name);
      StringLessTotal(p.name, r.name);
      StringLessTotal(q.name, r.name);
    }
  }

  /** b first differs from a after k characters: a ends there, or has the smaller character. */
  predicate DiffersAt(a: string, b: string, k: nat) { k <= |a| && k < |b| && a[..k] == b[..k] && (k == |a| || a[k] < b[k]) }

  /** The order of strings is that of the first difference. */
  lemma {:induction false} StringLessIff(a: string, b: string)
    ensures StringLess(a, b) <==> exists k: nat :: DiffersAt(a, b, k)
  {
    if |a| > 0 && |b| > 0 {
      StringLessIff(a[1..], b[1..]);
      if a[0] == b[0] {
        forall k: nat ensures DiffersAt(a, b, k + 1) <==> DiffersAt(a[1..], b[1..], k) { DifferLater(a, b, k); }
        if k: nat :| DiffersAt(a[1..], b[1..], k) { assert DiffersAt(a, b, k + 1); }
        if k: nat :| DiffersAt(a, b, k) {
          assert k > 0;
          var l: nat := k - 1;
          assert DiffersAt(a, b, l + 1) && DiffersAt(a[1..], b[1..], l);
        }
      } else {
        forall k: nat | DiffersAt(a, b, k) ensures k == 0 || a[0] == b[0] { AgreeFirst(a, b, k); }
        assert a[0] < b[0] ==> DiffersAt(a, b, 0);
      }
    } else if |b| > 0 {
      assert DiffersAt(a, b, 0);
    }
  }

  lemma AgreeFirst(a: string, b: string, k: nat)
    requires DiffersAt(a, b, k) && |a| > 0
    ensures k == 0 || a[0] == b[0]
  {
    if k > 0 { assert a[..k][0] == a[0] && b[..k][0] == b[0]; }
  }

  lemma DifferLater(a: string, b: string, k: nat)
    requires |a| > 0 && |b| > 0 && a[0] == b[0]
    ensures DiffersAt(a, b, k + 1) <==> DiffersAt(a[1..], b[1..], k)
  {
    if k < |a| && k < |b| {
      assert a[..k + 1] == [a[0]] + a[1..][..k] && b[..k + 1] == [b[0]] + b[1..][..k];
      assert a[..k + 1][1..] == a[1..][..k] && b[..k + 1][1..] == b[1..][..k];
    }
  }

  /** Ports are ordered by name, ports of one name by direction. */
  lemma PortLessIff(p: Port, q: Port)
    ensures PortLess(p, q) <==> (exists k: nat :: DiffersAt(p.name, q.name, k)) || (p.name == q.name && p.dir < q.dir)
  {
    StringLessIff(p.name, q.name);
    StringLessTotal(p.name, q.name);
  }

  /** What comes first decides: a missing expression, the operator, then the operands from the left. */
  lemma LessByParts(p: Port, q: Port, a: Expr<Port>, b: Expr<Port>, c: Expr<Port>, d: Expr<Port>)
    ensures Less(Null, Ref(p)) && Less(Ref(p), Not(a)) && Less(Not(a), Or(b, c)) && Less(Or(a, b), And(c, d)) && Less(And(a, b), Xor(c, d))
    ensures Less(Xor(a, b), One) && Less(One, Zero)
    ensures Less(Ref(p), Ref(q)) <==> PortLess(p, q)
    ensures Less(Not(a), Not(b)) <==> Less(a, b)
  {
    hide PortLess;
  }

  lemma LessLexically(a: Expr<Port>, b: Expr<Port>, c: Expr<Port>, d: Expr<Port>)
    ensures Less(Or(a, b), Or(c, d)) <==> Less(a, c) || (Equiv(a, c) && Less(b, d))
    ensures Less(And(a, b), And(c, d)) <==> Less(a, c) || (Equiv(a, c) && Less(b, d))
    ensures Less(Xor(a, b), Xor(c, d)) <==> Less(a, c) || (Equiv(a, c) && Less(b, d))
  {
    LessTotal(a, c);
    hide Equiv;
    BinaryLess(Or(a, b), Or(c, d));
    BinaryLess(And(a, b), And(c, d));
    BinaryLess(Xor(a, b), Xor(c, d));
    hide Less;
  }

  lemma BinaryLess(a: Expr<Port>, b: Expr<Port>)
    requires Binary(a) && Op(a) == Op(b)
    ensures Less(a, b) <==> if Equiv(a.left, b.left) then Less(a.right, b.right) else Less(a.left, b.left)
  {
    hide Equiv;
  }

  /** Equivalence: reflexive, symmetric, transitive. */
  lemma {:induction false} EquivIsEquivalence(a: Expr<Port>, b: Expr<Port>, c: Expr<Port>)
    ensures Equiv(a, a) && (Equiv(a, b) ==> Equiv(b, a)) && (Equiv(a, b) && Equiv(b, c) ==> Equiv(a, c))
  {
    if a.Not? {
      EquivIsEquivalence(a.left, if b.Not? then b.left else Null, if c.Not? then c.left else Null);
    } else if Binary(a) {
      var bl, br := if Binary(b) then b.left else Null, if Binary(b) then b.right else Null;
      var cl, cr := if Binary(c) then c.left else Null, if Binary(c) then c.right else Null;
      EquivIsEquivalence(a.left, bl, cl);
      EquivIsEquivalence(a.right, br, cr);
    }
  }

  /** An expression with its ports reduced to name and direction. */
  function Shape(e: Expr<Port>): Expr<(string, nat)> {
    match e
    case Null => Null
    case Ref(p) => Ref((p.name, p.dir))
    case Not(l) => Not(Shape(l))
    case Or(l, r) => Or(Shape(l), Shape(r))
    case And(l, r) => And(Shape(l), Shape(r))
    case Xor(l, r) => Xor(Shape(l), Shape(r))
    case One => One
    case Zero => Zero
  }

  /** Equivalent expressions are those of one shape. */
  lemma {:induction false} EquivIff(a: Expr<Port>, b: Expr<Port>)
    ensures Equiv(a, b) <==> Shape(a) == Shape(b)
  {
    if a.Not? && b.Not? {
      EquivIff(a.left, b.left);
    } else if Binary(a) && Op(a) == Op(b) {
      EquivIff(a.left, b.left);
      EquivIff(a.right, b.right);
    }
  }

  /** Neither is less exactly when they are equivalent; never both. */
  lemma {:induction false} LessTotal(a: Expr<Port>, b: Expr<Port>)
    ensures Equiv(a, b) <==> !Less(a, b) && !Less(b, a)
    ensures !(Less(a, b) && Less(b, a))
  {
    if a.Ref? && b.Ref? {
      PortOrder(a.port, b.port, a.port);
    } else if a.Not? && b.Not? {
      LessTotal(a.left, b.left);
    } else if Binary(a) && Op(a) == Op(b) {
      LessTotal(a.left, b.left);
      LessTotal(a.right, b.right);
      EquivIsEquivalence(a.left, b.left, a.left);
      EquivIsEquivalence(b.left, a.left, b.left);
    }
  }

  /** Equivalent expressions are interchangeable on either side of the order. */
  lemma {:induction false} LessRespectsEquiv(a: Expr<Port>, b: Expr<Port>, c: Expr<Port>)
    requires Equiv(a, b)
    ensures (Less(a, c) <==> Less(b, c)) && (Less(c, a) <==> Less(c, b))
  {
    if a.Ref? && c.Ref? {
      PortOrder(a.port, b.port, c.port);
    } else if a.Not? && c.Not? {
      LessRespectsEquiv(a.left, b.left, c.left);
    } else if Binary(a) && Op(a) == Op(c) {
      EquivTriangle(a.left, b.left, c.left);
      LessRespectsEquiv(a.left, b.left, c.left);
      LessRespectsEquiv(a.right, b.right, c.right);
    }
  }

  lemma EquivTriangle(a: Expr<Port>, b: Expr<Port>, c: Expr<Port>)
    requires Equiv(a, b)
    ensures (Equiv(a, c) <==> Equiv(b, c)) && (Equiv(c, a) <==> Equiv(c, b))
  {
    EquivIsEquivalence(a, b, c);
    EquivIsEquivalence(b, a, c);
    EquivIsEquivalence(c, a, b);
    EquivIsEquivalence(c, b, a);
  }

  lemma {:induction false} LessTransitive(a: Expr<Port>, b: Expr<Port>, c: Expr<Port>)
    requires Less(a, b) && Less(b, c)
    ensures Less(a, c)
    decreases a, 1
  {
    if !a.Null? && Op(a) == Op(b) == Op(c) {
      if a.Ref? {
        PortOrder(a.port, b.port, c.port);
      } else if a.Not? {
        LessTransitive(a.left, b.left, c.left);
      } else if Binary(a) {
        BinaryTransitive(a, b, c);
      }
    }
  }

  lemma {:induction false} BinaryTransitive(a: Expr<Port>, b: Expr<Port>, c: Expr<Port>)
    requires Binary(a) && Op(a) == Op(b) == Op(c) && Less(a, b) && Less(b, c)
    ensures Less(a, c)
    decreases a, 0
  {
    LessTotal(a.left, c.left);
    if Equiv(a.left, b.left) {
      EquivTriangle(a.left, b.left, c.left);
      LessRespectsEquiv(a.left, b.left, c.left);
      if Equiv(b.left, c.left) { LessTransitive(a.right, b.right, c.right); }
    } else if Equiv(b.left, c.left) {
      EquivTriangle(b.left, c.left, a.left);
      LessRespectsEquiv(b.left, c.left, a.left);
    } else {
      LessTransitive(a.left, b.left, c.left);
    }
  }

  /** The order is a strict weak order on all expressions, the null one included. */
  lemma LessIsStrictWeakOrder(a: Expr<Port>, b: Expr<Port>, c: Expr<Port>)
    ensures !Less(a, a)
    ensures Less(a, b) && Less(b, c) ==> Less(a, c)
    ensures !Less(a, b) && !Less(b, a) && !Less(b, c) && !Less(c, b) ==> !Less(a, c) && !Less(c, a)
  {
    EquivIsEquivalence(a, b, c);
    LessTotal(a, a);
    LessTotal(a, b);
    LessTotal(b, c);
    LessTotal(a, c);
    if Less(a, b) && Less(b, c) { LessTransitive(a, b, c); }
  }
}

/** The timing arcs built for a combinational from/to port pair. */
module LibertyBuilder {
  import opened FuncExpr

  datatype Edge = Rise | Fall

  datatype Arc = Arc(from: Edge, to: Edge)

  class TimingArcSet {
    var arcs: seq<Arc>

    constructor ()
      ensures arcs == []
    {
      arcs := [];
    }

    method MakeTimingArc(from: Edge, to: Edge)
      modifies this
      ensures arcs == old(arcs) + [Arc(from, to)]
    {
      arcs := arcs + [Arc(from, to)];
    }
  }

  /** What the source reads of a liberty pin and its timing group; model tells which edges have a delay model. */
  datatype Pin = Pin(function_: Expr<Port>, enable: Expr<Port>, tristate: bool)
  datatype Attrs = Attrs(sense: Sense, riseModel: bool, fallModel: bool)

  predicate HasModel(attrs: Attrs, to: Edge) { if to.Rise? then attrs.riseModel else attrs.fallModel }

  /** The sense given, else inferred from the function, else from the tristate enable. */
  function InferredSense(given: Sense, pin: Pin, from: Port): Sense {
    if given != Unknown then given
    else if !pin.function_.Null? && HasPort(pin.function_, from) then PortTimingSense(pin.function_, from)
    else if pin.tristate && !pin.enable.Null? && HasPort(pin.enable, from) then NonUnate
    else Unknown
  }

  /** An arc belongs to the set when its output edge is asked for and modelled, and its input edge agrees with the sense. */
  predicate Wanted(sense: Sense, toRise: bool, toFall: bool, attrs: Attrs, a: Arc) {
    && (if a.to.Rise? then toRise else toFall) && HasModel(attrs, a.to)
    && (sense == PositiveUnate ==> a.from == a.to) && (sense == NegativeUnate ==> a.from != a.to)
  }

  predicate NoRepeat(s: seq<Arc>) { forall i, j | 0 <= i < j < |s| :: s[i] != s[j] }

  /** Exactly the wanted arcs, each once. */
  ghost predicate Holds(arcs: seq<Arc>, sense: Sense, toRise: bool, toFall: bool, attrs: Attrs) {
    NoRepeat(arcs) && forall a :: a in arcs <==> Wanted(sense, toRise, toFall, attrs, a)
  }

  lemma FourArcs(a: Arc)
    ensures a == Arc(Rise, Rise) || a == Arc(Rise, Fall) || a == Arc(Fall, Rise) || a == Arc(Fall, Fall)
  {
    match a.from
    case Rise => match a.to { case Rise => case Fall => }
    case Fall => match a.to { case Rise => case Fall => }
  }

  function OneIf(c: bool, a: Arc): seq<Arc> { if c then [a] else [] }

  function TwoIf(c: bool, a: Arc, b: Arc): seq<Arc> { if c then [a, b] else [] }

  /** The arcs in the order they are made, when a rising (falling) output transition is wanted and has a model. */
  function ArcList(sense: Sense, rises: bool, falls: bool): seq<Arc> {
    match sense
    case PositiveUnate => OneIf(rises, Arc(Rise, Rise)) + OneIf(falls, Arc(Fall, Fall))
    case NegativeUnate => OneIf(falls, Arc(Rise, Fall)) + OneIf(rises, Arc(Fall, Rise))
    case _ => TwoIf(falls, Arc(Fall, Fall), Arc(Rise, Fall)) + TwoIf(rises, Arc(Rise, Rise), Arc(Fall, Rise))
  }

  lemma ArcListHolds(sense: Sense, toRise: bool, toFall: bool, attrs: Attrs)
    ensures Holds(ArcList(sense, toRise && HasModel(attrs, Rise), toFall && HasModel(attrs, Fall)), sense, toRise, toFall, attrs)
  {
    var arcs := ArcList(sense, toRise && HasModel(attrs, Rise), toFall && HasModel(attrs, Fall));
    forall a ensures a in arcs <==> Wanted(sense, toRise, toFall, attrs, a) { FourArcs(a); }
  }

  /** The switch on the sense. */
  method AddArcs(arcSet: TimingArcSet, sense: Sense, toRise: bool, toFall: bool, attrs: Attrs)
    requires arcSet.arcs == []
    modifies arcSet
    ensures Holds(arcSet.arcs, sense, toRise, toFall, attrs)
  {
    hide Holds, HasModel;
    match sense {
      case PositiveUnate =>
        if toRise && HasModel(attrs, Rise) { arcSet.MakeTimingArc(Rise, Rise); }
        if toFall && HasModel(attrs, Fall) { arcSet.MakeTimingArc(Fall, Fall); }
      case NegativeUnate =>
        if toFall && HasModel(attrs, Fall) { arcSet.MakeTimingArc(Rise, Fall); }
        if toRise && HasModel(attrs, Rise) { arcSet.MakeTimingArc(Fall, Rise); }
      case _ =>
        if toFall && HasModel(attrs, Fall) {
          arcSet.MakeTimingArc(Fall, Fall);
          arcSet.MakeTimingArc(Rise, Fall);
        }
        if toRise && HasModel(attrs, Rise) {
          arcSet.MakeTimingArc(Rise, Rise);
          arcSet.MakeTimingArc(Fall, Rise);
        }
    }
    assert arcSet.arcs == ArcList(sense, toRise && HasModel(attrs, Rise), toFall && HasModel(attrs, Fall));
    ArcListHolds(sense, toRise, toFall, attrs);
  }

  /** The function is positive (negative) in the port: it occurs under an even (odd) number of nots only, and not below a xor. */
  predicate OnlyEvenly(e: Expr<Port>, port: Port) { Evenly(e, port) && !Oddly(e, port) && !BelowXor(e, port) }
  predicate OnlyOddly(e: Expr<Port>, port: Port) { Oddly(e, port) && !Evenly(e, port) && !BelowXor(e, port) }

  /** The output edge is asked for and has a model. */
  predicate Asked(to: Edge, toRise: bool, toFall: bool, attrs: Attrs) {
    if to == Rise then toRise && attrs.riseModel else toFall && attrs.fallModel
  }

  /** The arcs between like edges only, between unlike edges only: the sense is given so, or not given and the function is. */
  predicate LikeOnly(pin: Pin, from: Port, given: Sense) { given == PositiveUnate || (given == Unknown && OnlyEvenly(pin.function_, from)) }
  predicate UnlikeOnly(pin: Pin, from: Port, given: Sense) { given == NegativeUnate || (given == Unknown && OnlyOddly(pin.function_, from)) }

  /** The sense the builder goes by, in terms of how the port occurs. */
  lemma InferredIff(pin: Pin, from: Port, given: Sense)
    ensures InferredSense(given, pin, from) == PositiveUnate <==> LikeOnly(pin, from, given)
    ensures InferredSense(given, pin, from) == NegativeUnate <==> UnlikeOnly(pin, from, given)
  {
    SenseIff(pin.function_, from);
    OccursIff(pin.function_, from);
    hide PortTimingSense;
  }

  method MakeCombinationalArcs(pin: Pin, from: Port, toRise: bool, toFall: bool, attrs: Attrs) returns (arcSet: TimingArcSet)
    ensures fresh(arcSet) && Holds(arcSet.arcs, InferredSense(attrs.sense, pin, from), toRise, toFall, attrs)
    ensures Exactly(arcSet.arcs, pin, from, toRise, toFall, attrs)
  {
    hide Holds, Exactly, LikeOnly, UnlikeOnly;
    arcSet := new TimingArcSet();
    var sense := attrs.sense;
    if sense == Unknown {
      if !pin.function_.Null? && HasPort(pin.function_, from) {
        sense := PortTimingSense(pin.function_, from);
      } else if pin.tristate && !pin.enable.Null? && HasPort(pin.enable, from) {
        sense := NonUnate;
      }
    }
    AddArcs(arcSet, sense, toRise, toFall, attrs);
    ExactlyThese(arcSet.arcs, pin, from, toRise, toFall, attrs);
  }

  /** Without repetition, the arcs to an edge asked for that the sense allows. */
  ghost predicate Exactly(arcs: seq<Arc>, pin: Pin, from: Port, toRise: bool, toFall: bool, attrs: Attrs) {
    && (forall i, j | 0 <= i < j < |arcs| :: arcs[i] != arcs[j])
    && forall a: Arc :: a in arcs <==> Allowed(a, pin, from, toRise, toFall, attrs)
  }

  predicate Allowed(a: Arc, pin: Pin, from: Port, toRise: bool, toFall: bool, attrs: Attrs) {
    && Asked(a.to, toRise, toFall, attrs)
    && (LikeOnly(pin, from, attrs.sense) ==> a.from == a.to) && (UnlikeOnly(pin, from, attrs.sense) ==> a.from != a.to)
  }

  lemma ExactlyThese(arcs: seq<Arc>, pin: Pin, from: Port, toRise: bool, toFall: bool, attrs: Attrs)
    requires Holds(arcs, InferredSense(attrs.sense, pin, from), toRise, toFall, attrs)
    ensures Exactly(arcs, pin, from, toRise, toFall, attrs)
  {
    InferredIff(pin, from, attrs.sense);
    hide InferredSense, LikeOnly, UnlikeOnly;
    var sense := InferredSense(attrs.sense, pin, from);
    forall a: Arc ensures Wanted(sense, toRise, toFall, attrs, a) <==> Allowed(a, pin, from, toRise, toFall, attrs) {}
  }

  lemma NotPolarity(a: Port)
    ensures OnlyOddly(Not(Ref(a)), a) && !OnlyEvenly(Not(Ref(a)), a)
  {
    assert Evenly(Ref(a), a) && !Oddly(Ref(a), a) && !BelowXor(Ref(a), a);
  }

  /** An inverter with both models: from a rising input a falling output, and the reverse, and nothing else. */
  method InverterArcs(a: Port) returns (arcs: seq<Arc>)
    ensures |arcs| == 2 && Arc(Rise, Fall) in arcs && Arc(Fall, Rise) in arcs
  {
    var arcSet := MakeCombinationalArcs(Pin(Not(Ref(a)), Null, false), a, true, true, Attrs(Unknown, true, true));
    arcs := arcSet.arcs;
    NotPolarity(a);
    assert Arc(Rise, Fall) in arcs && Arc(Fall, Rise) in arcs && Arc(Rise, Rise) !in arcs && Arc(Fall, Fall) !in arcs;
    hide Holds;
    CountTwo(arcs, Arc(Rise, Fall), Arc(Fall, Rise));
  }

  lemma {:induction false} CountTwo(arcs: seq<Arc>, x: Arc, y: Arc)
    requires NoRepeat(arcs) && x != y && forall a :: a in arcs <==> a == x || a == y
    ensures |arcs| == 2
  {
    SameSize(arcs, [x, y]);
  }

  /** A port that is not in the function but in the enable of a tristate output gets all four arcs. */
  lemma EnableArcs(pin: Pin, from: Port, attrs: Attrs, arcs: seq<Arc>)
    requires Exactly(arcs, pin, from, true, true, attrs) && attrs == Attrs(Unknown, true, true)
    requires !HasPort(pin.function_, from) && pin.tristate && HasPort(pin.enable, from)
    ensures InferredSense(attrs.sense, pin, from) == NonUnate && forall a: Arc :: a in arcs
  {
    OccursIff(pin.function_, from);
  }

  function EdgeOf(before: bool, after: bool): Edge
    requires before != after
  {
    if after then Rise else Fall
  }

  /** The sense the builder infers is the sense of the function whenever the output can follow the input at all. */
  lemma {:induction false} InferredIsSense(pin: Pin, from: Port, env: Port -> bool)
    requires NullFree(pin.function_) && Eval(pin.function_, With(env, from, false)) != Eval(pin.function_, With(env, from, true))
    ensures HasPort(pin.function_, from) && InferredSense(Unknown, pin, from) == PortTimingSense(pin.function_, from)
  {
    SenseSound(pin.function_, from, env);
    HasPortIff(pin.function_, from);
  }

  /** No transition is missed: whenever a change of the input changes the output, the matching arc is in the set. */
  lemma {:induction false} TransitionsCovered(pin: Pin, from: Port, env: Port -> bool, v: bool, toRise: bool, toFall: bool, attrs: Attrs, arcs: seq<Arc>)
    requires NullFree(pin.function_) && attrs.sense == Unknown
    requires var before, after := Eval(pin.function_, With(env, from, !v)), Eval(pin.function_, With(env, from, v));
             before != after && (if after then toRise else toFall) && HasModel(attrs, EdgeOf(before, after))
    requires Holds(arcs, InferredSense(attrs.sense, pin, from), toRise, toFall, attrs)
    ensures var before, after := Eval(pin.function_, With(env, from, !v)), Eval(pin.function_, With(env, from, v));
            Arc(EdgeOf(!v, v), EdgeOf(before, after)) in arcs
  {
    InferredIsSense(pin, from, env);
    SenseSound(pin.function_, from, env);
    var before, after := Eval(pin.function_, With(env, from, !v)), Eval(pin.function_, With(env, from, v));
    assert Wanted(InferredSense(attrs.sense, pin, from), toRise, toFall, attrs, Arc(EdgeOf(!v, v), EdgeOf(before, after)));
  }

  /** A unate function gets exactly two arcs, any other sense four. */
  lemma {:induction false} ArcCount(sense: Sense, attrs: Attrs, arcs: seq<Arc>)
    requires Holds(arcs, sense, true, true, attrs) && attrs.riseModel && attrs.fallModel
    ensures |arcs| == if sense == PositiveUnate || sense == NegativeUnate then 2 else 4
  {
    var all := if sense == PositiveUnate then [Arc(Rise, Rise), Arc(Fall, Fall)]
               else if sense == NegativeUnate then [Arc(Rise, Fall), Arc(Fall, Rise)]
               else [Arc(Rise, Rise), Arc(Rise, Fall), Arc(Fall, Rise), Arc(Fall, Fall)];
    forall a ensures a in all <==> a in arcs {
      FourArcs(a);
    }
    SameSize(arcs, all);
  }

  /** Two lists without repetition and with the same members are equally long. */
  lemma {:induction false} SameSize(a: seq<Arc>, b: seq<Arc>)
    requires NoRepeat(a) && NoRepeat(b) && forall x :: x in a <==> x in b
    ensures |a| == |b|
  {
    SetSize(a);
    SetSize(b);
    assert (set x | x in a) == (set x | x in b);
  }

  lemma {:induction false} SetSize(a: seq<Arc>)
    requires NoRepeat(a)
    ensures |set x | x in a| == |a|
  {
    if |a| > 0 {
      var s := a[..|a| - 1];
      SetSize(s);
      assert a == s + [a[|a| - 1]];
      assert (set x | x in a) == (set x | x in s) + {a[|a| - 1]};
      assert a[|a| - 1] !in s;
    }
  }
}

/** Printing a function expression, and reading it back. */
module FuncExprText {
  import opened FuncExpr

  const NUL := 0 as char

  /** The characters that mean something in a printed expression. */
  predicate Special(c: char) { c == '!' || c == '(' || c == ')' || c == '+' || c == '*' || c == '^' || c == NUL }

  /** A port name that cannot be taken for anything else. */
  ghost predicate Plain(name: string) {
    && |name| > 0 && name != "0" && name != "1" && forall i | 0 <= i < |name| :: !Special(name[i])
  }

  ghost predicate PlainNames(e: Expr<Port>) {
    match e
    case Ref(p) => Plain(p.name)
    case Not(l) => PlainNames(l)
    case Or(l, r) => PlainNames(l) && PlainNames(r)
    case And(l, r) => PlainNames(l) && PlainNames(r)
    case Xor(l, r) => PlainNames(l) && PlainNames(r)
    case _ => true
  }

  ghost predicate NoNul(s: string) { forall i | 0 <= i < |s| :: s[i] != NUL }

  /** Names that end where their null is. */
  ghost predicate NamesNoNul(e: Expr<Port>) {
    match e
    case Ref(p) => NoNul(p.name)
    case Not(l) => NamesNoNul(l)
    case Or(l, r) => NamesNoNul(l) && NamesNoNul(r)
    case And(l, r) => NamesNoNul(l) && NamesNoNul(r)
    case Xor(l, r) => NamesNoNul(l) && NamesNoNul(r)
    case _ => true
  }

  // ---- printing ------------------------------------------------------------------------------

  function Joined(left: string, op: char, right: string, parens: bool): string {
    if parens then "(" + left + [op] + right + ")" else left + [op] + right
  }

  /** The text of an expression; operands of operators are parenthesised. */
  function Text(e: Expr<Port>, parens: bool): string
    requires NullFree(e)
  {
    match e
    case Ref(p) => p.name
    case Not(l) => "!" + Text(l, true)
    case Or(l, r) => Joined(Text(l, true), '+', Text(r, true), parens)
    case And(l, r) => Joined(Text(l, true), '*', Text(r, true), parens)
    case Xor(l, r) => Joined(Text(l, true), '^', Text(r, true), parens)
    case One => "1"
    case Zero => "0"
  }

  /** Number of characters before the null that ends s. */
  method StrLen(s: string, ghost body: string) returns (n: nat)
    requires NoNul(body) && s == body + [NUL]
    ensures n == |body|
  {
    n := 0;
    while s[n] != NUL
      invariant n <= |body|
      decreases |body| - n
    {
      n := n + 1;
    }
  }

  /** Copy the characters of s, without its null, to buffer from position r on; the new position. */
  method StringAppend(buffer: array<char>, r: nat, s: string, ghost body: string) returns (r': nat)
    requires NoNul(body) && s == body + [NUL] && r + |body| <= buffer.Length
    modifies buffer
    ensures r' == r + |body| && buffer[..r'] == old(buffer[..r]) + body
  {
    r' := r;
    var i := 0;
    while s[i] != NUL
      invariant i <= |body| && r' == r + i && buffer[..r'] == old(buffer[..r]) + body[..i]
      decreases |body| - i
    {
      buffer[r'] := s[i];
      r', i := r' + 1, i + 1;
    }
    assert body[..i] == body;
  }

  lemma JoinedNoNul(left: string, op: char, right: string, parens: bool)
    requires NoNul(left) && NoNul(right) && op != NUL
    ensures NoNul(Joined(left, op, right, parens))
  {}

  lemma {:induction false} TextNoNul(e: Expr<Port>, parens: bool)
    requires NullFree(e) && NamesNoNul(e)
    ensures NoNul(Text(e, parens))
  {
    hide NoNul, Joined;
    match e
    case Not(l) =>
      TextNoNul(l, true);
      NotNoNul(Text(l, true));
    case Or(l, r) =>
      TextNoNul(l, true);
      TextNoNul(r, true);
      JoinedNoNul(Text(l, true), '+', Text(r, true), parens);
    case And(l, r) =>
      TextNoNul(l, true);
      TextNoNul(r, true);
      JoinedNoNul(Text(l, true), '*', Text(r, true), parens);
    case Xor(l, r) =>
      TextNoNul(l, true);
      TextNoNul(r, true);
      JoinedNoNul(Text(l, true), '^', Text(r, true), parens);
    case Ref(p) =>
    case _ => DigitsNoNul();
  }

  lemma NotNoNul(s: string)
    requires NoNul(s)
    ensures NoNul("!" + s)
  {}

  lemma DigitsNoNul()
    ensures NoNul("0") && NoNul("1")
  {}

  /** Print as the null-terminated string that is returned; every buffer is filled to its last byte. */
  method AsString(e: Expr<Port>, parens: bool) returns (result: string)
    requires NullFree(e) && NamesNoNul(e)
    ensures result == Text(e, parens) + [NUL]
    decreases Size(e), 1
  {
    hide Joined, NoNul;
    match e
    case Ref(p) => result := p.name + [NUL];
    case One => result := "1" + [NUL];
    case Zero => result := "0" + [NUL];
    case Not(l) =>
      var left := AsString(l, true);
      TextNoNul(l, true);
      result := AsStringNot(left, Text(l, true));
    case Or(l, r) => result := AsStringSubexpr(l, r, parens, '+');
    case And(l, r) => result := AsStringSubexpr(l, r, parens, '*');
    case Xor(l, r) => result := AsStringSubexpr(l, r, parens, '^');
  }

  method AsStringNot(left: string, ghost body: string) returns (result: string)
    requires NoNul(body) && left == body + [NUL]
    ensures result == "!" + body + [NUL]
  {
    var leftLength := StrLen(left, body);
    var length := leftLength + 2;
    var buffer := new char[length];
    buffer[0] := '!';
    var r := StringAppend(buffer, 1, left, body);
    buffer[r] := NUL;
    assert r + 1 == length;
    result := buffer[..];
  }

  method AsStringSubexpr(l: Expr<Port>, r: Expr<Port>, parens: bool, op: char) returns (result: string)
    requires NullFree(l) && NamesNoNul(l) && NullFree(r) && NamesNoNul(r)
    ensures result == Joined(Text(l, true), op, Text(r, true), parens) + [NUL]
    decreases 1 + Size(l) + Size(r), 0
  {
    hide Joined, NoNul;
    var left := AsString(l, true);
    var right := AsString(r, true);
    TextNoNul(l, true);
    TextNoNul(r, true);
    result := Join(left, right, parens, op, Text(l, true), Text(r, true));
  }

  /** The buffer of asStringSubexpr: the computed length is exactly what is written. */
  method Join(left: string, right: string, parens: bool, op: char, ghost l: string, ghost r: string) returns (result: string)
    requires NoNul(l) && left == l + [NUL] && NoNul(r) && right == r + [NUL]
    ensures result == Joined(l, op, r, parens) + [NUL]
  {
    var leftLength := StrLen(left, l);
    var rightLength := StrLen(right, r);
    var length := leftLength + 1 + rightLength + 1;
    if parens { length := length + 2; }
    var buffer := new char[length];
    var n := 0;
    if parens {
      buffer[n] := '(';
      n := n + 1;
    }
    ghost var start := if parens then "(" else "";
    assert buffer[..n] == start;
    n := StringAppend(buffer, n, left, l);
    buffer[n] := op;
    n := n + 1;
    assert buffer[..n] == start + l + [op];
    n := StringAppend(buffer, n, right, r);
    assert buffer[..n] == start + l + [op] + r;
    if parens {
      buffer[n] := ')';
      n := n + 1;
    }
    buffer[n] := NUL;
    assert n + 1 == length;
    result := buffer[..];
  }

  /** Operands that are operators are parenthesised, the whole is not. */
  lemma TextExample(a: Port, b: Port)
    requires a.name == "A" && b.name == "B"
    ensures NullFree(Example(a, b)) && Text(Example(a, b), false) == "(A+!B)*(1^0)"
  {
    var l, r := Or(Ref(a), Not(Ref(b))), Xor(One, Zero);
    assert NullFree(Not(Ref(b))) && NullFree(l) && NullFree(r);
    assert Text(Ref(a), true) == "A" && Text(Not(Ref(b)), true) == "!B";
    assert Text(l, true) == "(A+!B)";
    assert Text(One, true) == "1" && Text(Zero, true) == "0";
    assert Text(r, true) == "(1^0)";
  }

  function Example(a: Port, b: Port): Expr<Port> { And(Or(Ref(a), Not(Ref(b))), Xor(One, Zero)) }

  // ---- reading back --------------------------------------------------------------------------

  datatype Parse = Fail | Got(e: Expr<string>, rest: string)

  /** The expression with ports by name. */
  function Names(e: Expr<Port>): Expr<string> {
    match e
    case Null => Null
    case Ref(p) => Ref(p.name)
    case Not(l) => Not(Names(l))
    case Or(l, r) => Or(Names(l), Names(r))
    case And(l, r) => And(Names(l), Names(r))
    case Xor(l, r) => Xor(Names(l), Names(r))
    case One => One
    case Zero => Zero
  }

  function NameLength(s: string): (n: nat)
    ensures n <= |s|
  {
    if |s| == 0 || Special(s[0]) then 0 else 1 + NameLength(s[1..])
  }

  /** operand ::= name | 0 | 1 | '!' operand | '(' operand op operand ')' */
  function Operand(s: string): (p: Parse)
    ensures p.Got? ==> |p.rest| < |s|
    decreases |s|, 0
  {
    if |s| == 0 then Fail
    else if s[0] == '!' then
      var p := Operand(s[1..]);
      if p.Fail? then Fail else Got(Not(p.e), p.rest)
    else if s[0] == '(' then
      var p := Pair(s[1..]);
      if p.Fail? || |p.rest| == 0 || p.rest[0] != ')' then Fail else Got(p.e, p.rest[1..])
    else if Special(s[0]) then Fail
    else
      var n := NameLength(s);
      var name := s[..n];
      Got(if name == "0" then Zero else if name == "1" then One else Ref(name), s[n..])
  }

  predicate IsOp(c: char) { c == '+' || c == '*' || c == '^' }

  function Combined(op: char, l: Expr<string>, r: Expr<string>): Expr<string> {
    if op == '+' then Or(l, r) else if op == '*' then And(l, r) else Xor(l, r)
  }

  /** operand op operand */
  function Pair(s: string): (p: Parse)
    ensures p.Got? ==> |p.rest| < |s|
    decreases |s|, 1
  {
    var l := Operand(s);
    if l.Fail? || |l.rest| == 0 || !IsOp(l.rest[0]) then Fail
    else
      var r := Operand(l.rest[1..]);
      if r.Fail? then Fail else Got(Combined(l.rest[0], l.e, r.e), r.rest)
  }

  /** A whole text: an operand, or two joined by an operator. */
  function Read(s: string): Parse {
    var p := Operand(s);
    if p.Got? && p.rest == "" then p
    else
      var q := Pair(s);
      if q.Got? && q.rest == "" then q else Fail
  }

  ghost predicate Stops(rest: string) { rest == "" || Special(rest[0]) }

  lemma {:induction false} NameStops(name: string, rest: string)
    requires (forall i | 0 <= i < |name| :: !Special(name[i])) && Stops(rest)
    ensures NameLength(name + rest) == |name|
  {
    if |name| > 0 {
      assert (name + rest)[1..] == name[1..] + rest;
      NameStops(name[1..], rest);
    } else {
      assert name + rest == rest;
    }
  }

  lemma {:induction false} NameParses(name: string, rest: string)
    requires |name| > 0 && (forall i | 0 <= i < |name| :: !Special(name[i])) && Stops(rest)
    ensures Operand(name + rest) == Got(if name == "0" then Zero else if name == "1" then One else Ref(name), rest)
  {
    NameStops(name, rest);
    var s := name + rest;
    assert s[0] == name[0] && s[..|name|] == name && s[|name|..] == rest;
  }

  lemma {:induction false} PairParses(l: string, op: char, r: string, rest: string, le: Expr<string>, re: Expr<string>)
    requires IsOp(op) && Operand(l + ([op] + (r + rest))) == Got(le, [op] + (r + rest)) && Operand(r + rest) == Got(re, rest)
    ensures Pair(Joined(l, op, r, false) + rest) == Got(Combined(op, le, re), rest)
  {
    hide Joined, Operand;
    JoinedSplits(l, op, r, rest);
    OpThen(op, r + rest);
  }

  lemma JoinedSplits(l: string, op: char, r: string, rest: string)
    ensures Joined(l, op, r, false) + rest == l + ([op] + (r + rest))
  {}

  lemma OpThen(op: char, s: string)
    ensures ([op] + s)[1..] == s && ([op] + s)[0] == op
  {}

  lemma ParensText(l: string, op: char, r: string, rest: string)
    ensures Joined(l, op, r, true) + rest == ['('] + (Joined(l, op, r, false) + ([')'] + rest))
  {}

  lemma AfterFirst(c: char, s: string)
    ensures |[c] + s| == 1 + |s| && ([c] + s)[0] == c && ([c] + s)[1..] == s
  {}

  lemma {:induction false} ParensParse(s: string, rest: string, e: Expr<string>)
    requires Pair(s) == Got(e, [')'] + rest)
    ensures Operand(['('] + s) == Got(e, rest)
  {
    hide Pair;
    AfterFirst('(', s);
    AfterFirst(')', rest);
  }

  lemma {:induction false} NotParses(s: string, rest: string, e: Expr<string>)
    requires Operand(s) == Got(e, rest)
    ensures Operand(['!'] + s) == Got(Not(e), rest)
  {
    hide Pair;
    AfterFirst('!', s);
  }

  lemma NotText(l: string, rest: string)
    ensures "!" + l + rest == ['!'] + (l + rest)
  {}

  /** Two printed operands joined by an operator parse back, without parentheses and with. */
  lemma {:induction false} JoinRoundTrip(l: Expr<Port>, r: Expr<Port>, op: char, rest: string)
    requires NullFree(l) && PlainNames(l) && NullFree(r) && PlainNames(r) && Stops(rest) && IsOp(op)
    ensures Pair(Joined(Text(l, true), op, Text(r, true), false) + rest) == Got(Combined(op, Names(l), Names(r)), rest)
    decreases 1 + Size(l) + Size(r), 0
  {
    var tail := [op] + (Text(r, true) + rest);
    assert Stops(tail);
    OperandRoundTrip(l, tail);
    OperandRoundTrip(r, rest);
    hide Joined, Operand, Stops;
    PairParses(Text(l, true), op, Text(r, true), rest, Names(l), Names(r));
  }

  lemma {:induction false} ParensRoundTrip(l: Expr<Port>, r: Expr<Port>, op: char, rest: string)
    requires NullFree(l) && PlainNames(l) && NullFree(r) && PlainNames(r) && IsOp(op)
    ensures Operand(Joined(Text(l, true), op, Text(r, true), true) + rest) == Got(Combined(op, Names(l), Names(r)), rest)
    decreases 1 + Size(l) + Size(r), 1
  {
    assert Stops([')'] + rest);
    hide Joined, Operand, Pair, Stops;
    JoinRoundTrip(l, r, op, [')'] + rest);
    ParensText(Text(l, true), op, Text(r, true), rest);
    ParensParse(Joined(Text(l, true), op, Text(r, true), false) + ([')'] + rest), rest, Combined(op, Names(l), Names(r)));
  }

  /** A printed operand parses back, whatever follows it. */
  lemma {:induction false} OperandRoundTrip(e: Expr<Port>, rest: string)
    requires NullFree(e) && PlainNames(e) && Stops(rest)
    ensures Operand(Text(e, true) + rest) == Got(Names(e), rest)
    decreases Size(e), 2
  {
    hide Operand, Joined, Stops;
    match e
    case Ref(p) => NameParses(p.name, rest);
    case One => DigitParses("1", rest);
    case Zero => DigitParses("0", rest);
    case Not(l) =>
      OperandRoundTrip(l, rest);
      NotText(Text(l, true), rest);
      NotParses(Text(l, true) + rest, rest, Names(l));
    case Or(l, r) => ParensRoundTrip(l, r, '+', rest);
    case And(l, r) => ParensRoundTrip(l, r, '*', rest);
    case Xor(l, r) => ParensRoundTrip(l, r, '^', rest);
  }

  lemma DigitParses(digit: string, rest: string)
    requires (digit == "0" || digit == "1") && Stops(rest)
    ensures Operand(digit + rest) == Got(if digit == "0" then Zero else One, rest)
  {
    NameParses(digit, rest);
  }

  lemma {:induction false} JoinReads(l: Expr<Port>, r: Expr<Port>, op: char)
    requires NullFree(l) && PlainNames(l) && NullFree(r) && PlainNames(r) && IsOp(op)
    ensures Read(Joined(Text(l, true), op, Text(r, true), false)) == Got(Combined(op, Names(l), Names(r)), "")
  {
    hide Operand, Pair, Joined;
    JoinRoundTrip(l, r, op, "");
    AppendNothing(Joined(Text(l, true), op, Text(r, true), false));
    JoinedSplits(Text(l, true), op, Text(r, true), "");
    var tail := [op] + (Text(r, true) + "");
    assert Stops(tail);
    OperandRoundTrip(l, tail);
  }

  lemma AppendNothing(s: string)
    ensures s + "" == s
  {}

  /** The text determines the expression. */
  lemma {:induction false} RoundTrip(e: Expr<Port>)
    requires NullFree(e) && PlainNames(e)
    ensures Read(Text(e, false)) == Got(Names(e), "")
  {
    hide Operand, Pair, Joined;
    match e
    case Or(l, r) => JoinReads(l, r, '+');
    case And(l, r) => JoinReads(l, r, '*');
    case Xor(l, r) => JoinReads(l, r, '^');
    case Ref(_) => OperandReads(e);
    case Not(_) => OperandReads(e);
    case One => OperandReads(e);
    case Zero => OperandReads(e);
  }

  lemma {:induction false} OperandReads(e: Expr<Port>)
    requires NullFree(e) && PlainNames(e) && !Binary(e)
    ensures Read(Text(e, false)) == Got(Names(e), "")
  {
    OperandRoundTrip(e, "");
    assert Text(e, true) + "" == Text(e, false);
    hide Operand, Pair;
  }

  /** Equal texts, equal expressions: when names identify ports, no two expressions print alike. */
  lemma {:induction false} TextInjective(a: Expr<Port>, b: Expr<Port>)
    requires NullFree(a) && PlainNames(a) && NullFree(b) && PlainNames(b) && Text(a, false) == Text(b, false)
    ensures Names(a) == Names(b)
    ensures (forall p, q | HasPort(a, p) && HasPort(b, q) && p.name == q.name :: p == q) ==> a == b
  {
    RoundTrip(a);
    RoundTrip(b);
    if forall p, q | HasPort(a, p) && HasPort(b, q) && p.name == q.name :: p == q { NamesInjective(a, b); }
  }

  lemma {:induction false} NamesInjective(a: Expr<Port>, b: Expr<Port>)
    requires Names(a) == Names(b) && forall p, q | HasPort(a, p) && HasPort(b, q) && p.name == q.name :: p == q
    ensures a == b
  {
    match a
    case Ref(p) => assert HasPort(a, p) && HasPort(b, b.port);
    case Not(l) => NamesInjective(l, b.left);
    case Or(l, r) => NamesInjective(l, b.left); NamesInjective(r, b.right);
    case And(l, r) => NamesInjective(l, b.left); NamesInjective(r, b.right);
    case Xor(l, r) => NamesInjective(l, b.left); NamesInjective(r, b.right);
    case _ =>
  }
}

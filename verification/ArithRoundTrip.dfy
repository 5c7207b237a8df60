/** Every grammatical tree parses back from its tokens; trees with added parentheses are the same trees. */
module ArithRoundTrip {
  import opened Basics
  import opened ArithSyntax
  import opened ArithParse

  /** Nothing in `rest` continues an expression parsed at level l. */
  predicate Stops(l: nat, rest: seq<Tok>) {
    rest == [] || !rest[0].Op? ||
    (!IsStep(rest[0].y) && (BinLevel(rest[0].y).Some? ==> BinLevel(rest[0].y).value < l))
  }

  lemma StopsUp(l: nat, k: nat, rest: seq<Tok>)
    requires Stops(l, rest) && l <= k
    ensures Stops(k, rest)
  { }

  /** What the first token of a tree of level 14 or above can be. */
  lemma {:induction false} FirstTok(e: Expr)
    requires WellFormed(e)
    ensures Flat(e) != []
    ensures Level(e) == VALUE ==> !(Flat(e)[0].Op? && IsPrefix(Flat(e)[0].y)) && Flat(e)[0] != Op(Colon)
    ensures !(Flat(e)[0].Op? && Flat(e)[0].y == Colon)
    decreases e
  {
    match e
    case LitE(_) =>
    case WordE(_) =>
    case Paren(x) =>
    case Un(op, post, x) => if post { FirstTok(x); }
    case Bin(op, x, y) => FirstTok(x);
  }

  /** A level whose own operators do not follow hands on what the next level parsed. */
  lemma Down(l: nat, ts: seq<Tok>, e: Expr, rest: seq<Tok>)
    requires l < VALUE && Parse(l + 1, ts) == Got(Some(e), rest) && Stops(l, rest)
    requires l == UNARY ==> !(ts != [] && ts[0].Op? && IsPrefix(ts[0].y))
    ensures Parse(l, ts) == Got(Some(e), rest)
  { }

  lemma AppendFlat(op: Sym, x: Expr, y: Expr, rest: seq<Tok>)
    ensures Flat(Bin(op, x, y)) + rest == Flat(x) + ([Op(op)] + (Flat(y) + rest))
    ensures ([Op(op)] + (Flat(y) + rest))[1..] == Flat(y) + rest
  { }

  // One rule per method: what it returns once its parts are parsed.

  lemma RuleLeft(l: nat, ts: seq<Tok>, op: Sym, x: Expr, y: Expr, tail: seq<Tok>, rest: seq<Tok>)
    requires LeftLevel(l) && OpOf(l, op) && tail != [] && tail[0] == Op(op)
    requires Parse(l, ts) == Loop(l, Some(x), tail) && Parse(l + 1, tail[1..]) == Got(Some(y), rest)
    ensures Parse(l, ts) == Loop(l, Some(Bin(op, x, y)), rest)
  { }

  lemma RuleDone(l: nat, ts: seq<Tok>, e: Expr, rest: seq<Tok>)
    requires LeftLevel(l) && Parse(l, ts) == Loop(l, Some(e), rest) && Stops(l, rest)
    ensures Parse(l, ts) == Got(Some(e), rest)
  { }

  lemma RuleEnter(l: nat, ts: seq<Tok>, e: Expr, rest: seq<Tok>)
    requires LeftLevel(l) && Parse(l + 1, ts) == Got(Some(e), rest)
    ensures Parse(l, ts) == Loop(l, Some(e), rest)
  { }

  lemma RuleAssign(ts: seq<Tok>, op: Sym, v: Expr, y: Expr, tail: seq<Tok>, rest: seq<Tok>)
    requires IsAssign(op) && IsName(v) && tail != [] && tail[0] == Op(op)
    requires Parse(TERNARY, ts) == Got(Some(v), tail) && Parse(ASSIGN, tail[1..]) == Got(Some(y), rest)
    ensures Parse(ASSIGN, ts) == Got(Some(Bin(op, v, y)), rest)
  { }

  lemma RuleTernary(ts: seq<Tok>, c: Expr, t: Expr, f: Expr, tail: seq<Tok>, tail2: seq<Tok>, rest: seq<Tok>)
    requires tail != [] && tail[0] == Op(Quest) && !Next(tail[1..], Colon) && tail2 != [] && tail2[0] == Op(Colon)
    requires Parse(LOR, ts) == Got(Some(c), tail) && Parse(COMMA, tail[1..]) == Got(Some(t), tail2)
    requires Parse(TERNARY, tail2[1..]) == Got(Some(f), rest)
    ensures Parse(TERNARY, ts) == Got(Some(Bin(Quest, c, Bin(Colon, t, f))), rest)
  { }

  lemma RulePower(ts: seq<Tok>, x: Expr, y: Expr, tail: seq<Tok>, rest: seq<Tok>)
    requires tail != [] && tail[0] == Op(Power)
    requires Parse(UNARY, ts) == Got(Some(x), tail) && Parse(POWER, tail[1..]) == Got(Some(y), rest)
    ensures Parse(POWER, ts) == Got(Some(Bin(Power, x, y)), rest)
  { }

  lemma RuleUnary(ts: seq<Tok>, op: Sym, x: Expr, rest: seq<Tok>)
    requires IsPrefix(op) && ts != [] && ts[0] == Op(op) && Parse(UNARY, ts[1..]) == Got(Some(x), rest)
    ensures Parse(UNARY, ts) == Got(Some(Un(op, false, x)), rest)
  { }

  lemma RuleWord(e: Expr, rest: seq<Tok>)
    requires (e.LitE? || e.WordE?) && Stops(VALUE, rest)
    ensures Parse(VALUE, Flat(e) + rest) == Got(Some(e), rest)
  {
    assert (Flat(e) + rest)[1..] == rest;
  }

  lemma RuleParen(ts: seq<Tok>, x: Expr, rest: seq<Tok>)
    requires ts != [] && ts[0] == Op(LParen) && Parse(COMMA, ts[1..]) == Got(Some(x), [Op(RParen)] + rest)
    requires Stops(VALUE, rest)
    ensures Parse(VALUE, ts) == Got(Some(Paren(x)), rest)
  {
    assert ([Op(RParen)] + rest)[1..] == rest;
  }

  lemma RulePost(x: Expr, op: Sym, rest: seq<Tok>)
    requires IsName(x) && IsStep(op)
    ensures Parse(VALUE, Flat(Un(op, true, x)) + rest) == Got(Some(Un(op, true, x)), rest)
  {
    var ts := [Lit(x.s)] + ([Op(op)] + rest);
    assert Flat(x) == [Lit(x.s)] && Flat(Un(op, true, x)) == Flat(x) + [Op(op)];
    assert Flat(Un(op, true, x)) + rest == ts;
    assert ts[1..] == [Op(op)] + rest && ts[1..][1..] == rest;
  }

  lemma RuleStep(ts: seq<Tok>, op: Sym, x: Expr, rest: seq<Tok>)
    requires IsStep(op) && ts != [] && ts[0] == Op(op) && ts[1..] != [] && ts[1].Lit?
    requires Parse(VALUE, ts[1..]) == Got(Some(x), rest)
    ensures Parse(VALUE, ts) == Got(Some(Un(op, false, x)), rest)
  { }

  lemma OpStops(op: Sym, tail: seq<Tok>, l: nat)
    requires tail != [] && tail[0] == Op(op) && !IsStep(op) && (BinLevel(op).Some? ==> BinLevel(op).value < l)
    ensures Stops(l, tail)
  { }

  /** A left operand at its own level brings the loop to the point where it holds that operand. */
  lemma {:induction false} LoopForm(e: Expr, l: nat, rest: seq<Tok>)
    requires LeftLevel(l) && Fits(e, l) && Stops(l + 1, rest)
    ensures Parse(l, Flat(e) + rest) == Loop(l, Some(e), rest)
    decreases e, VALUE - l, 1
  {
    hide Parse, Loop, Flat, Stops;
    if Level(e) > l {
      Complete(e, l + 1, rest);
      RuleEnter(l, Flat(e) + rest, e, rest);
    } else {
      var op, x, y := e.bop, e.left, e.right;
      var tail := [Op(op)] + (Flat(y) + rest);
      LeftFits(op, x, y, l);
      AppendFlat(op, x, y, rest);
      OpStops(op, tail, l + 1);
      LoopForm(x, l, tail);
      Complete(y, l + 1, rest);
      RuleLeft(l, Flat(e) + rest, op, x, y, tail, rest);
    }
  }

  /** A grammatical tree followed by something that does not continue it parses to itself. */
  lemma {:induction false} Complete(e: Expr, l: nat, rest: seq<Tok>)
    requires l <= VALUE && Fits(e, l) && Stops(l, rest)
    ensures Parse(l, Flat(e) + rest) == Got(Some(e), rest)
    decreases e, VALUE - l, 2
  {
    hide Parse, Loop, Flat, Stops;
    if l < Level(e) {
      if l == UNARY { FirstPrefix(e, rest); }
      StopsUp(l, l + 1, rest);
      Complete(e, l + 1, rest);
      Down(l, Flat(e) + rest, e, rest);
    } else if LeftLevel(l) {
      StopsUp(l, l + 1, rest);
      LoopForm(e, l, rest);
      RuleDone(l, Flat(e) + rest, e, rest);
    } else if l == ASSIGN {
      CompleteAssign(e, rest);
    } else if l == TERNARY {
      CompleteTernary(e, rest);
    } else if l == POWER {
      CompletePower(e, rest);
    } else if l == UNARY {
      CompleteUnary(e, rest);
    } else {
      CompleteValue(e, rest);
    }
  }

  lemma FirstPrefix(e: Expr, rest: seq<Tok>)
    requires WellFormed(e) && Level(e) == VALUE
    ensures Flat(e) + rest != [] && !((Flat(e) + rest)[0].Op? && IsPrefix((Flat(e) + rest)[0].y))
  {
    FirstTok(e);
  }

  lemma AssignParts(e: Expr)
    requires Fits(e, ASSIGN) && Level(e) == ASSIGN
    ensures e.Bin? && IsAssign(e.bop) && IsName(e.left) && Fits(e.left, TERNARY) && Fits(e.right, ASSIGN)
    ensures !IsStep(e.bop) && BinLevel(e.bop) == Some(ASSIGN)
  { }

  lemma PowerParts(e: Expr)
    requires Fits(e, POWER) && Level(e) == POWER
    ensures e.Bin? && e.bop == Power && Fits(e.left, UNARY) && Fits(e.right, POWER)
    ensures !IsStep(e.bop) && BinLevel(e.bop) == Some(POWER)
  { }

  lemma {:induction false} CompleteAssign(e: Expr, rest: seq<Tok>)
    requires Fits(e, ASSIGN) && Level(e) == ASSIGN && Stops(ASSIGN, rest)
    ensures Parse(ASSIGN, Flat(e) + rest) == Got(Some(e), rest)
    decreases e, VALUE - ASSIGN, 0
  {
    hide Parse, Flat, Stops, Fits, WellFormed, Level, IsAssign, BinLevel, IsName;
    AssignParts(e);
    var tail := [Op(e.bop)] + (Flat(e.right) + rest);
    AppendFlat(e.bop, e.left, e.right, rest);
    OpStops(e.bop, tail, TERNARY);
    Complete(e.left, TERNARY, tail);
    Complete(e.right, ASSIGN, rest);
    RuleAssign(Flat(e) + rest, e.bop, e.left, e.right, tail, rest);
  }

  lemma {:induction false} CompleteTernary(e: Expr, rest: seq<Tok>)
    requires Fits(e, TERNARY) && Level(e) == TERNARY && Stops(TERNARY, rest)
    ensures Parse(TERNARY, Flat(e) + rest) == Got(Some(e), rest)
    decreases e, VALUE - TERNARY, 0
  {
    hide Parse, Flat, Stops;
    var c, t, f := e.left, e.right.left, e.right.right;
    var tail2 := [Op(Colon)] + (Flat(f) + rest);
    var tail := [Op(Quest)] + (Flat(e.right) + rest);
    AppendFlat(Quest, c, e.right, rest);
    AppendFlat(Colon, t, f, rest);
    FirstTok(t);
    OpStops(Quest, tail, LOR);
    OpStops(Colon, tail2, COMMA);
    Complete(c, LOR, tail);
    Complete(t, COMMA, tail2);
    Complete(f, TERNARY, rest);
    RuleTernary(Flat(e) + rest, c, t, f, tail, tail2, rest);
  }

  lemma {:induction false} CompletePower(e: Expr, rest: seq<Tok>)
    requires Fits(e, POWER) && Level(e) == POWER && Stops(POWER, rest)
    ensures Parse(POWER, Flat(e) + rest) == Got(Some(e), rest)
    decreases e, VALUE - POWER, 0
  {
    hide Parse, Flat, Stops, Fits, WellFormed, Level, IsAssign, BinLevel, IsName;
    PowerParts(e);
    var tail := [Op(e.bop)] + (Flat(e.right) + rest);
    AppendFlat(e.bop, e.left, e.right, rest);
    OpStops(e.bop, tail, UNARY);
    Complete(e.left, UNARY, tail);
    Complete(e.right, POWER, rest);
    RulePower(Flat(e) + rest, e.left, e.right, tail, rest);
  }

  lemma {:induction false} CompleteUnary(e: Expr, rest: seq<Tok>)
    requires Fits(e, UNARY) && Level(e) == UNARY && Stops(UNARY, rest)
    ensures Parse(UNARY, Flat(e) + rest) == Got(Some(e), rest)
    decreases e, VALUE - UNARY, 0
  {
    assert Flat(e) + rest == [Op(e.op)] + (Flat(e.arg) + rest);
    Complete(e.arg, UNARY, rest);
    RuleUnary([Op(e.op)] + (Flat(e.arg) + rest), e.op, e.arg, rest);
  }

  lemma {:induction false} CompleteValue(e: Expr, rest: seq<Tok>)
    requires Fits(e, VALUE) && Stops(VALUE, rest)
    ensures Parse(VALUE, Flat(e) + rest) == Got(Some(e), rest)
    decreases e, 0, 0
  {
    hide Parse, Stops, Flat;
    match e
    case LitE(s) => RuleWord(e, rest);
    case WordE(w) => RuleWord(e, rest);
    case Paren(x) =>
      var tail := [Op(RParen)] + rest;
      ParenFlat(x, rest);
      Complete(x, COMMA, tail);
      RuleParen([Op(LParen)] + (Flat(x) + tail), x, rest);
    case Un(op, post, x) =>
      if post {
        RulePost(x, op, rest);
      } else {
        StepFirst(op, x, rest);
        Complete(x, VALUE, rest);
        RuleStep([Op(op)] + (Flat(x) + rest), op, x, rest);
      }
    case Bin(op, x, y) =>
  }

  lemma ParenFlat(x: Expr, rest: seq<Tok>)
    ensures Flat(Paren(x)) + rest == [Op(LParen)] + (Flat(x) + ([Op(RParen)] + rest))
    ensures ([Op(LParen)] + (Flat(x) + ([Op(RParen)] + rest)))[1..] == Flat(x) + ([Op(RParen)] + rest)
    ensures Stops(COMMA, [Op(RParen)] + rest)
  {
    hide Stops;
    var f, tail := Flat(x), [Op(RParen)] + rest;
    assert Flat(Paren(x)) == [Op(LParen)] + f + [Op(RParen)];
    assert [Op(LParen)] + f + [Op(RParen)] + rest == [Op(LParen)] + (f + tail);
    OpStops(RParen, tail, COMMA);
  }

  lemma StepFirst(op: Sym, x: Expr, rest: seq<Tok>)
    requires StepOperand(x)
    ensures Flat(x) + rest != [] && (Flat(x) + rest)[0].Lit? && WellFormed(x) && Level(x) == VALUE
    ensures Flat(Un(op, false, x)) + rest == [Op(op)] + (Flat(x) + rest)
    ensures ([Op(op)] + (Flat(x) + rest))[1..] == Flat(x) + rest
  { }

  // ---------- the theorems ----------

  /** What may follow a whole expression: the end, a closing parenthesis or bracket, a newline, a word. */
  predicate Ends(rest: seq<Tok>) {
    Stops(COMMA, rest)
  }

  /**
   * Print and parse: any tree, with parentheses added only where grammar levels need them, comes back from its
   * tokens, which are consumed exactly; apart from parentheses it is the tree one started from.
   */
  lemma RoundTrip(e: Expr, rest: seq<Tok>)
    requires Sane(e) && Ends(rest)
    ensures Parse(COMMA, Flat(Fix(e, COMMA)) + rest) == Got(Some(Fix(e, COMMA)), rest)
    ensures Strip(Fix(e, COMMA)) == Strip(e) && (WellFormed(e) ==> Fix(e, COMMA) == e)
  {
    FixFits(e, COMMA);
    Complete(Fix(e, COMMA), COMMA, rest);
  }

  /** Parse and print: a successful parse consumed exactly the tree's tokens and the tree is grammatical. */
  lemma ParseThenFlat(ts: seq<Tok>)
    requires Parse(COMMA, ts).Got? && Parse(COMMA, ts).e.Some?
    ensures ts == Flat(Parse(COMMA, ts).e.value) + Parse(COMMA, ts).rest
    ensures WellFormed(Parse(COMMA, ts).e.value)
  {
    ParseSound(COMMA, ts);
  }

  /** The grammar is unambiguous: trees with the same tokens are the same tree. */
  lemma FlatInjective(e: Expr, f: Expr)
    requires WellFormed(e) && WellFormed(f) && Flat(e) == Flat(f)
    ensures e == f
  {
    assert Flat(e) + [] == Flat(f) + [];
    Complete(e, COMMA, []);
    Complete(f, COMMA, []);
  }

  /** The parser accepts a token sequence as one whole expression exactly when it is some grammatical tree's. */
  lemma AcceptsExactly(ts: seq<Tok>)
    ensures (Parse(COMMA, ts).Got? && Parse(COMMA, ts).e.Some? && Parse(COMMA, ts).rest == []) <==>
            exists e :: WellFormed(e) && Flat(e) == ts
  {
    var r := Parse(COMMA, ts);
    if r.Got? && r.e.Some? && r.rest == [] {
      ParseThenFlat(ts);
      assert Flat(r.e.value) + [] == Flat(r.e.value);
    }
    forall e | WellFormed(e) && Flat(e) == ts ensures r == Got(Some(e), []) {
      assert Flat(e) + [] == ts;
      Complete(e, COMMA, []);
    }
  }

  // ---------- where a parse ends ----------

  /** No operator that level l would have gone on with. */
  predicate Quiet(l: nat, rest: seq<Tok>) {
    rest == [] || !rest[0].Op? || BinLevel(rest[0].y).None? || BinLevel(rest[0].y).value < l
  }

  /** Nothing level l could start with, or could complain about. */
  predicate Blank(l: nat, ts: seq<Tok>) {
    && Quiet(l, ts)
    && (ts == [] || ts[0].Newl? ||
        (ts[0].Op? && !IsStep(ts[0].y) && ts[0].y != LParen && ts[0].y != Colon && (l <= UNARY ==> !IsPrefix(ts[0].y))))
  }

  /** The tree's last token is a postfix ++ or --. */
  predicate LastStep(e: Expr) {
    match e
    case Un(_, post, x) => post || LastStep(x)
    case Bin(_, _, y) => LastStep(y)
    case _ => false
  }

  ghost predicate EndsWell(l: nat, ts: seq<Tok>, r: Parsed) {
    && (r.Got? && r.e.Some? ==> Quiet(l, r.rest) && (NextStep(r.rest) ==> LastStep(r.e.value)))
    && (Blank(l, ts) <==> r == Got(None, ts))
  }

  lemma {:induction false} ParseEnds(l: nat, ts: seq<Tok>)
    requires l <= VALUE
    ensures EndsWell(l, ts, Parse(l, ts))
    decreases |ts|, 2 * (VALUE - l) + 2
  {
    if LeftLevel(l) {
      ParseEnds(l + 1, ts);
      match Parse(l + 1, ts)
      case Bad =>
      case Got(e, rest) => LoopEnds(l, e, rest);
    } else if l == ASSIGN {
      AssignEnds(ts);
    } else if l == TERNARY {
      TernaryEnds(ts);
    } else if l == POWER {
      PowerEnds(ts);
    } else if l == UNARY {
      UnaryEnds(ts);
    } else {
      ValueEnds(ts);
    }
  }

  lemma {:induction false} LoopEnds(l: nat, e: Option<Expr>, ts: seq<Tok>)
    requires LeftLevel(l) && (e.Some? ==> Quiet(l + 1, ts) && (NextStep(ts) ==> LastStep(e.value)))
    ensures var r := Loop(l, e, ts);
            if e.None? then r == (if NextOf(ts, l) then Bad else Got(None, ts))
            else r.Got? ==> r.e.Some? && Quiet(l, r.rest) && (NextStep(r.rest) ==> LastStep(r.e.value))
    decreases |ts|, 2 * (VALUE - l) + 1
  {
    if NextOf(ts, l) && e.Some? {
      ParseEnds(l + 1, ts[1..]);
      var p := Parse(l + 1, ts[1..]);
      if p.Got? && p.e.Some? { LoopEnds(l, Some(Bin(ts[0].y, e.value, p.e.value)), p.rest); }
    }
  }

  lemma {:induction false} AssignEnds(ts: seq<Tok>)
    ensures EndsWell(ASSIGN, ts, ParseAssign(ts))
    decreases |ts|, 2 * (VALUE - ASSIGN) + 1
  {
    ParseEnds(TERNARY, ts);
    var p := Parse(TERNARY, ts);
    if p.Got? && NextOf(p.rest, ASSIGN) && p.e.Some? { ParseEnds(ASSIGN, p.rest[1..]); }
  }

  lemma {:induction false} TernaryEnds(ts: seq<Tok>)
    ensures EndsWell(TERNARY, ts, ParseTernary(ts))
    decreases |ts|, 2 * (VALUE - TERNARY) + 1
  {
    hide Parse, LastStep;
    ParseEnds(LOR, ts);
    var p := Parse(LOR, ts);
    if p.Got? && Next(p.rest, Quest) && p.e.Some? && !Next(p.rest[1..], Colon) {
      var q := Parse(COMMA, p.rest[1..]);
      if q.Got? && q.e.Some? && Next(q.rest, Colon) {
        ParseEnds(TERNARY, q.rest[1..]);
        var f := Parse(TERNARY, q.rest[1..]);
        if f.Got? && f.e.Some? { ChoiceLast(p.e.value, q.e.value, f.e.value); }
      }
    }
  }

  lemma ChoiceLast(c: Expr, t: Expr, f: Expr)
    ensures LastStep(Bin(Quest, c, Bin(Colon, t, f))) == LastStep(f)
  {
    assert LastStep(Bin(Colon, t, f)) == LastStep(f);
  }

  lemma {:induction false} PowerEnds(ts: seq<Tok>)
    ensures EndsWell(POWER, ts, ParsePower(ts))
    decreases |ts|, 2 * (VALUE - POWER) + 1
  {
    ParseEnds(UNARY, ts);
    var p := Parse(UNARY, ts);
    if p.Got? && Next(p.rest, Power) && p.e.Some? { ParseEnds(POWER, p.rest[1..]); }
  }

  lemma {:induction false} UnaryEnds(ts: seq<Tok>)
    ensures EndsWell(UNARY, ts, ParseUnary(ts))
    decreases |ts|, 2 * (VALUE - UNARY) + 1
  {
    if ts != [] && ts[0].Op? && IsPrefix(ts[0].y) { ParseEnds(UNARY, ts[1..]); } else { ParseEnds(VALUE, ts); }
  }

  lemma {:induction false} ValueEnds(ts: seq<Tok>)
    ensures EndsWell(VALUE, ts, ParseValue(ts))
    decreases |ts|, 1
  {
    if ts != [] && ts[0].Op? && IsStep(ts[0].y) && ts[1..] != [] && ts[1].Lit? { ParseEnds(VALUE, ts[1..]); }
  }

  /**
   * A parse that returns a tree has not stopped before a binary operator or a "?", nor before a ++ or -- unless it has
   * just read one, and one that returns nothing had nothing to start with: the end, a newline, a closing parenthesis or
   * an operator of no level. All else is an error.
   */
  lemma StopsOnlyAtEnd(ts: seq<Tok>)
    ensures var r := Parse(COMMA, ts);
            && (r.Got? && r.e.Some? ==> r.rest == [] || !r.rest[0].Op? || BinLevel(r.rest[0].y).None?)
            && (r.Got? && r.e.Some? && NextStep(r.rest) ==> LastStep(r.e.value))
            && (r == Got(None, ts) <==> ts == [] || ts[0] == Newl || ts[0] == Op(RParen) || ts[0] == Op(Other))
            && (r.Got? && r.e.None? ==> r.rest == ts)
  {
    hide Parse;
    ParseEnds(COMMA, ts);
  }
}

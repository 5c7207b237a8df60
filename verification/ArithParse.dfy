/** The arithmetic parser as a function on newline-free tokens, sound and complete for the grammar. */
module ArithParse {
  import opened Basics
  import opened ArithSyntax

  /** A tree or nothing, and the tokens left; Bad is a syntax error. */
  datatype Parsed = Got(e: Option<Expr>, rest: seq<Tok>) | Bad

  predicate Next(ts: seq<Tok>, y: Sym) {
    ts != [] && ts[0] == Op(y)
  }

  predicate NextOf(ts: seq<Tok>, l: nat) {
    ts != [] && ts[0].Op? && OpOf(l, ts[0].y)
  }

  predicate NextStep(ts: seq<Tok>) {
    ts != [] && ts[0].Op? && IsStep(ts[0].y)
  }

  /** Each level's method, from arithmExprComma down to arithmExprValue. */
  function Parse(l: nat, ts: seq<Tok>): (r: Parsed)
    requires l <= VALUE
    ensures r.Got? ==> |r.rest| <= |ts| && (r.e.Some? ==> |r.rest| < |ts|) && (r.e.None? ==> r.rest == ts)
    decreases |ts|, 2 * (VALUE - l) + 2
  {
    if LeftLevel(l) then
      match Parse(l + 1, ts)
      case Bad => Bad
      case Got(e, rest) => Loop(l, e, rest)
    else if l == ASSIGN then ParseAssign(ts)
    else if l == TERNARY then ParseTernary(ts)
    else if l == POWER then ParsePower(ts)
    else if l == UNARY then ParseUnary(ts)
    else ParseValue(ts)
  }

  /** The loop of arithmExprBinary, with `e` the value so far. */
  function Loop(l: nat, e: Option<Expr>, ts: seq<Tok>): (r: Parsed)
    requires LeftLevel(l)
    ensures r.Got? ==> |r.rest| <= |ts| && (e.Some? ==> r.e.Some?) && (r.e.None? ==> r.rest == ts)
    ensures r.Got? && e.None? ==> r == Got(None, ts)
    decreases |ts|, 2 * (VALUE - l) + 1
  {
    if !NextOf(ts, l) then Got(e, ts)
    else if e.None? then Bad
    else match Parse(l + 1, ts[1..])
      case Bad => Bad
      case Got(None, _) => Bad
      case Got(Some(y), rest) => Loop(l, Some(Bin(ts[0].y, e.value, y)), rest)
  }

  function ParseAssign(ts: seq<Tok>): (r: Parsed)
    ensures r.Got? ==> |r.rest| <= |ts| && (r.e.Some? ==> |r.rest| < |ts|) && (r.e.None? ==> r.rest == ts)
    decreases |ts|, 2 * (VALUE - ASSIGN) + 1
  {
    match Parse(TERNARY, ts)
    case Bad => Bad
    case Got(v, rest) =>
      if !NextOf(rest, ASSIGN) then Got(v, rest)
      else if v.None? || !IsName(v.value) then Bad
      else match Parse(ASSIGN, rest[1..])
        case Bad => Bad
        case Got(None, _) => Bad
        case Got(Some(y), rest2) => Got(Some(Bin(rest[0].y, v.value, y)), rest2)
  }

  function ParseTernary(ts: seq<Tok>): (r: Parsed)
    ensures r.Got? ==> |r.rest| <= |ts| && (r.e.Some? ==> |r.rest| < |ts|) && (r.e.None? ==> r.rest == ts)
    decreases |ts|, 2 * (VALUE - TERNARY) + 1
  {
    match Parse(LOR, ts)
    case Bad => Bad
    case Got(v, rest) =>
      if !Next(rest, Quest) then Got(v, rest)
      else if v.None? || Next(rest[1..], Colon) then Bad
      else match Parse(COMMA, rest[1..])
        case Bad => Bad
        case Got(None, _) => Bad
        case Got(Some(t), rest2) =>
          if !Next(rest2, Colon) then Bad
          else match Parse(TERNARY, rest2[1..])
            case Bad => Bad
            case Got(None, _) => Bad
            case Got(Some(f), rest3) => Got(Some(Bin(Quest, v.value, Bin(Colon, t, f))), rest3)
  }

  function ParsePower(ts: seq<Tok>): (r: Parsed)
    ensures r.Got? ==> |r.rest| <= |ts| && (r.e.Some? ==> |r.rest| < |ts|) && (r.e.None? ==> r.rest == ts)
    decreases |ts|, 2 * (VALUE - POWER) + 1
  {
    match Parse(UNARY, ts)
    case Bad => Bad
    case Got(v, rest) =>
      if !Next(rest, Power) then Got(v, rest)
      else if v.None? then Bad
      else match Parse(POWER, rest[1..])
        case Bad => Bad
        case Got(None, _) => Bad
        case Got(Some(y), rest2) => Got(Some(Bin(Power, v.value, y)), rest2)
  }

  function ParseUnary(ts: seq<Tok>): (r: Parsed)
    ensures r.Got? ==> |r.rest| <= |ts| && (r.e.Some? ==> |r.rest| < |ts|) && (r.e.None? ==> r.rest == ts)
    decreases |ts|, 2 * (VALUE - UNARY) + 1
  {
    if ts != [] && ts[0].Op? && IsPrefix(ts[0].y) then
      match Parse(UNARY, ts[1..])
      case Bad => Bad
      case Got(None, _) => Bad
      case Got(Some(x), rest) => Got(Some(Un(ts[0].y, false, x)), rest)
    else Parse(VALUE, ts)
  }

  function ParseValue(ts: seq<Tok>): (r: Parsed)
    ensures r.Got? ==> |r.rest| <= |ts| && (r.e.Some? ==> |r.rest| < |ts|) && (r.e.None? ==> r.rest == ts)
    decreases |ts|, 1
  {
    if ts == [] then Got(None, ts)
    else match ts[0]
      case Lit(s) => PostStep(LitE(s), ts[1..])
      case Word(w) => PostStep(WordE(w), ts[1..])
      case Newl => Got(None, ts)
      case Op(y) =>
        if IsStep(y) then
          if ts[1..] == [] || !ts[1].Lit? then Bad
          else match Parse(VALUE, ts[1..])
            case Got(Some(x), rest) => Got(Some(Un(y, false, x)), rest)
            case _ => Bad
        else if y == LParen then
          match Parse(COMMA, ts[1..])
          case Bad => Bad
          case Got(None, _) => Bad
          case Got(Some(x), rest) => if Next(rest, RParen) then PostStep(Paren(x), rest[1..]) else Bad
        else if y == Colon then Bad
        else Got(None, ts)
  }

  /** A postfix ++ or -- must follow a name. */
  function PostStep(x: Expr, ts: seq<Tok>): (r: Parsed)
    ensures r.Got? ==> r.e.Some? && |r.rest| <= |ts|
  {
    if !NextStep(ts) then Got(Some(x), ts)
    else if IsName(x) then Got(Some(Un(ts[0].y, true, x)), ts[1..])
    else Bad
  }

  // ---------- soundness ----------

  /** The tree's tokens are exactly the ones consumed, and it is grammatical at its level. */
  ghost predicate Reads(l: nat, ts: seq<Tok>, r: Parsed) {
    r.Got? && r.e.Some? ==> ts == Flat(r.e.value) + r.rest && Fits(r.e.value, l)
  }

  lemma {:induction false} ParseSound(l: nat, ts: seq<Tok>)
    requires l <= VALUE
    ensures Reads(l, ts, Parse(l, ts))
    decreases |ts|, 2 * (VALUE - l) + 2
  {
    if LeftLevel(l) {
      ParseSound(l + 1, ts);
      match Parse(l + 1, ts)
      case Bad =>
      case Got(None, rest) =>
      case Got(Some(v), rest) => LoopSound(l, v, rest, ts);
    } else if l == ASSIGN {
      AssignSound(ts);
    } else if l == TERNARY {
      TernarySound(ts);
    } else if l == POWER {
      PowerSound(ts);
    } else if l == UNARY {
      UnarySound(ts);
    } else {
      ValueSound(ts);
    }
  }

  lemma {:induction false} LoopSound(l: nat, v: Expr, ts: seq<Tok>, all: seq<Tok>)
    requires LeftLevel(l) && Fits(v, l) && all == Flat(v) + ts
    requires |ts| < |all|
    ensures Reads(l, all, Loop(l, Some(v), ts))
    decreases |ts|, 2 * (VALUE - l) + 1
  {
    if NextOf(ts, l) {
      ParseSound(l + 1, ts[1..]);
      match Parse(l + 1, ts[1..])
      case Bad =>
      case Got(None, _) =>
      case Got(Some(y), rest) =>
        var b := Bin(ts[0].y, v, y);
        BinReads(ts[0].y, v, y, all, ts, rest);
        LeftFits(ts[0].y, v, y, l);
        LoopSound(l, b, rest, all);
    }
  }

  lemma LeftFits(op: Sym, x: Expr, y: Expr, l: nat)
    requires LeftLevel(l) && OpOf(l, op)
    ensures Fits(Bin(op, x, y), l) <==> Fits(x, l) && Fits(y, l + 1)
  { }

  lemma BinReads(op: Sym, x: Expr, y: Expr, all: seq<Tok>, ts: seq<Tok>, rest: seq<Tok>)
    requires all == Flat(x) + ts && ts != [] && ts[0] == Op(op) && ts[1..] == Flat(y) + rest
    ensures all == Flat(Bin(op, x, y)) + rest
  {
    assert ts == [Op(op)] + ts[1..];
  }

  lemma TernaryReads(v: Expr, t: Expr, f: Expr, ts: seq<Tok>, rest: seq<Tok>, rest2: seq<Tok>, rest3: seq<Tok>)
    requires ts == Flat(v) + rest && rest != [] && rest[0] == Op(Quest) && rest[1..] == Flat(t) + rest2
    requires rest2 != [] && rest2[0] == Op(Colon) && rest2[1..] == Flat(f) + rest3
    requires Fits(v, LOR) && WellFormed(t) && Fits(f, TERNARY)
    ensures ts == Flat(Bin(Quest, v, Bin(Colon, t, f))) + rest3 && Fits(Bin(Quest, v, Bin(Colon, t, f)), TERNARY)
  {
    BinReads(Colon, t, f, rest[1..], rest2, rest3);
    BinReads(Quest, v, Bin(Colon, t, f), ts, rest, rest3);
  }

  lemma {:induction false} AssignSound(ts: seq<Tok>)
    ensures Reads(ASSIGN, ts, ParseAssign(ts))
    decreases |ts|, 2 * (VALUE - ASSIGN) + 1
  {
    ParseSound(TERNARY, ts);
    match Parse(TERNARY, ts)
    case Bad =>
    case Got(None, rest) =>
    case Got(Some(v), rest) =>
      if NextOf(rest, ASSIGN) {
        ParseSound(ASSIGN, rest[1..]);
        var r := Parse(ASSIGN, rest[1..]);
        if r.Got? && r.e.Some? { BinReads(rest[0].y, v, r.e.value, ts, rest, r.rest); }
      }
  }

  lemma {:induction false} TernarySound(ts: seq<Tok>)
    ensures Reads(TERNARY, ts, ParseTernary(ts))
    decreases |ts|, 2 * (VALUE - TERNARY) + 1
  {
    ParseSound(LOR, ts);
    match Parse(LOR, ts)
    case Bad =>
    case Got(None, rest) =>
    case Got(Some(v), rest) =>
      if Next(rest, Quest) {
        ParseSound(COMMA, rest[1..]);
        match Parse(COMMA, rest[1..])
        case Bad =>
        case Got(None, _) =>
        case Got(Some(t), rest2) =>
          if Next(rest2, Colon) {
            ParseSound(TERNARY, rest2[1..]);
            match Parse(TERNARY, rest2[1..])
            case Bad =>
            case Got(None, _) =>
            case Got(Some(f), rest3) =>
              TernaryReads(v, t, f, ts, rest, rest2, rest3);
          }
      }
  }

  lemma {:induction false} PowerSound(ts: seq<Tok>)
    ensures Reads(POWER, ts, ParsePower(ts))
    decreases |ts|, 2 * (VALUE - POWER) + 1
  {
    ParseSound(UNARY, ts);
    match Parse(UNARY, ts)
    case Bad =>
    case Got(None, rest) =>
    case Got(Some(v), rest) =>
      if Next(rest, Power) {
        ParseSound(POWER, rest[1..]);
        var r := Parse(POWER, rest[1..]);
        if r.Got? && r.e.Some? { BinReads(rest[0].y, v, r.e.value, ts, rest, r.rest); }
      }
  }

  lemma {:induction false} UnarySound(ts: seq<Tok>)
    ensures Reads(UNARY, ts, ParseUnary(ts))
    decreases |ts|, 2 * (VALUE - UNARY) + 1
  {
    if ts != [] && ts[0].Op? && IsPrefix(ts[0].y) {
      ParseSound(UNARY, ts[1..]);
      assert ts == [ts[0]] + ts[1..];
    } else {
      ParseSound(VALUE, ts);
    }
  }

  lemma PostSound(x: Expr, ts: seq<Tok>, all: seq<Tok>)
    requires WellFormed(x) && Level(x) == VALUE && all == Flat(x) + ts
    ensures Reads(VALUE, all, PostStep(x, ts))
  {
    hide Parse, BinLevel, ParseValue;
    if NextStep(ts) { assert ts == [ts[0]] + ts[1..]; }
  }

  lemma {:induction false} ValueSound(ts: seq<Tok>)
    ensures Reads(VALUE, ts, ParseValue(ts))
    decreases |ts|, 1
  {
    hide Parse, Flat, Fits, WellFormed, Level, PostStep;
    if ts != [] {
      match ts[0]
      case Lit(s) => WordSound(LitE(s), ts);
      case Word(w) => WordSound(WordE(w), ts);
      case Newl =>
      case Op(y) =>
        if IsStep(y) {
          StepSound(ts);
        } else if y == LParen {
          ParenSound(ts);
        }
    }
  }

  lemma WordSound(e: Expr, ts: seq<Tok>)
    requires ts != [] && ((ts[0].Lit? && e == LitE(ts[0].s)) || (ts[0].Word? && e == WordE(ts[0].w)))
    ensures ParseValue(ts) == PostStep(e, ts[1..]) && Reads(VALUE, ts, ParseValue(ts))
  {
    assert ts == Flat(e) + ts[1..];
    PostSound(e, ts[1..], ts);
  }

  lemma {:induction false} ParenSound(ts: seq<Tok>)
    requires ts != [] && ts[0] == Op(LParen)
    ensures Reads(VALUE, ts, ParseValue(ts))
    decreases |ts|, 0
  {
    hide Fits, BinLevel;
    ParseSound(COMMA, ts[1..]);
    match Parse(COMMA, ts[1..])
    case Bad =>
    case Got(None, _) =>
    case Got(Some(x), rest) =>
      if Next(rest, RParen) {
        ParenReads(x, ts, rest);
        PostSound(Paren(x), rest[1..], ts);
      }
  }

  lemma ParenReads(x: Expr, ts: seq<Tok>, rest: seq<Tok>)
    requires ts != [] && ts[0] == Op(LParen) && ts[1..] == Flat(x) + rest && rest != [] && rest[0] == Op(RParen)
    requires Fits(x, COMMA)
    ensures ts == Flat(Paren(x)) + rest[1..] && WellFormed(Paren(x)) && Level(Paren(x)) == VALUE
  {
    assert rest == [rest[0]] + rest[1..];
    assert ts == [ts[0]] + ts[1..];
  }

  lemma {:induction false} StepSound(ts: seq<Tok>)
    requires ts != [] && ts[0].Op? && IsStep(ts[0].y)
    ensures Reads(VALUE, ts, ParseValue(ts))
    decreases |ts|, 0
  {
    assert ts == [ts[0]] + ts[1..];
    if ts[1..] != [] && ts[1].Lit? {
      ParseSound(VALUE, ts[1..]);
      assert ts[1..][0] == ts[1];
      var r := Parse(VALUE, ts[1..]);
      if r.Got? && r.e.Some? {
        assert StepOperand(r.e.value);
      }
    }
  }
}

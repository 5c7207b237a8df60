/** The parser object: it advances through the tokens in place, skipping newlines as it goes. */
module ArithParser {
  import opened Basics
  import opened ArithSyntax
  import opened ArithParse

  /** The tokens without newlines: what the expression says. */
  function StripNl(ts: seq<Tok>): (r: seq<Tok>)
    ensures |r| <= |ts|
  {
    if ts == [] then [] else if ts[0] == Newl then StripNl(ts[1..]) else [ts[0]] + StripNl(ts[1..])
  }

  class Parser {
    const toks: seq<Tok>  // the lexer merges consecutive newlines
    var pos: nat
    var err: bool

    ghost predicate Valid()
      reads this
    {
      pos <= |toks| && forall i :: 0 < i < |toks| ==> toks[i - 1] != Newl || toks[i] != Newl
    }

    ghost function Rest(): seq<Tok>
      requires pos <= |toks|
      reads this
    {
      StripNl(toks[pos..])
    }

    predicate At(y: Sym)
      reads this
    {
      pos < |toks| && toks[pos] == Op(y)
    }

    predicate AtOf(l: nat)
      reads this
    {
      pos < |toks| && toks[pos].Op? && OpOf(l, toks[pos].y)
    }

    predicate AtStep()
      reads this
    {
      pos < |toks| && toks[pos].Op? && IsStep(toks[pos].y)
    }

    predicate AtNewl()
      reads this
    {
      pos < |toks| && toks[pos] == Newl
    }

    /** Away from a newline the current token is the first of the rest. */
    lemma RestHere()
      requires Valid() && !AtNewl()
      ensures Rest() == [] <==> pos == |toks|
      ensures pos < |toks| ==> Rest()[0] == toks[pos]
      ensures forall y :: At(y) <==> Next(Rest(), y)
      ensures forall l: nat :: AtOf(l) <==> NextOf(Rest(), l)
      ensures AtStep() <==> NextStep(Rest())
    { }

    constructor (toks: seq<Tok>)
      requires forall i :: 0 < i < |toks| ==> toks[i - 1] != Newl || toks[i] != Newl
      ensures Valid() && !err && pos == 0 && this.toks == toks
    {
      this.toks, pos, err := toks, 0, false;
    }

    /** got(_Newl) */
    method GotNewl()
      requires Valid()
      modifies this`pos
      ensures Valid() && !AtNewl() && Rest() == old(Rest()) && old(pos) <= pos
      ensures !old(AtNewl()) ==> pos == old(pos)
    {
      if pos < |toks| && toks[pos] == Newl {
        assert toks[pos..][1..] == toks[pos + 1..];
        pos := pos + 1;
      }
    }

    /** nextArith: consume a token and a newline after it. */
    method NextArith()
      requires Valid() && pos < |toks| && !AtNewl()
      modifies this`pos
      ensures Valid() && !AtNewl() && old(pos) < pos
      ensures old(Rest()) != [] && Rest() == old(Rest())[1..]
    {
      assert toks[pos..][1..] == toks[pos + 1..];
      pos := pos + 1;
      GotNewl();
    }

    /** What every method leaves: the tree and the rest the level's function gives, or an error where it gives none. */
    ghost predicate Left(l: nat, before: seq<Tok>, r: Option<Expr>)
      requires l <= VALUE
      reads this
    {
      && Valid()
      && if err then Parse(l, before) == Bad else !AtNewl() && Parse(l, before) == Got(r, Rest())
    }

    method Fail() returns (r: Option<Expr>)
      modifies this`err
      ensures err && r == None && (old(Valid()) ==> Valid())
    {
      err := true;
      r := None;
    }

    lemma LoopRules(l: nat, e: Option<Expr>, ts: seq<Tok>)
      requires LeftLevel(l)
      ensures Parse(l, ts) == if Parse(l + 1, ts).Bad? then Bad else Loop(l, Parse(l + 1, ts).e, Parse(l + 1, ts).rest)
      ensures !NextOf(ts, l) ==> Loop(l, e, ts) == Got(e, ts)
      ensures NextOf(ts, l) && e.None? ==> Loop(l, e, ts) == Bad
      ensures NextOf(ts, l) && e.Some? && (Parse(l + 1, ts[1..]).Bad? || Parse(l + 1, ts[1..]).e.None?) ==>
                Loop(l, e, ts) == Bad
    { }

    lemma LoopTurn(l: nat, v: Expr, ts: seq<Tok>, y: Expr, rest: seq<Tok>)
      requires LeftLevel(l) && NextOf(ts, l) && Parse(l + 1, ts[1..]) == Got(Some(y), rest)
      ensures Loop(l, Some(v), ts) == Loop(l, Some(Bin(ts[0].y, v, y)), rest)
    { }

    lemma UnaryRules(ts: seq<Tok>)
      ensures !(ts != [] && ts[0].Op? && IsPrefix(ts[0].y)) ==> Parse(UNARY, ts) == Parse(VALUE, ts)
      ensures ts != [] && ts[0].Op? && IsPrefix(ts[0].y) ==>
                var r := Parse(UNARY, ts[1..]);
                Parse(UNARY, ts) == if r.Bad? || r.e.None? then Bad
                    else Got(Some(Un(ts[0].y, false, r.e.value)), r.rest)
    { }

    /** arithmExpr and the method each level hands on to. */
    method ArithmExpr(l: nat) returns (r: Option<Expr>)
      requires Valid() && !err && l <= VALUE && (l == VALUE ==> !AtNewl())
      modifies this
      ensures Left(l, old(Rest()), r) && old(pos) <= pos && (!err && r.Some? ==> old(pos) < pos)
      decreases |toks| - pos, 2 * (VALUE - l) + 1
    {
      if l == ASSIGN {
        r := ArithmExprAssign();
      } else if l == TERNARY {
        r := ArithmExprTernary();
      } else if l == POWER {
        r := ArithmExprPower();
      } else if l == UNARY {
        r := ArithmExprUnary();
      } else if l == VALUE {
        r := ArithmExprValue();
      } else {
        r := ArithmExprBinary(l);
      }
    }

    method ArithmExprBinary(l: nat) returns (value: Option<Expr>)
      requires Valid() && !err && LeftLevel(l)
      modifies this
      ensures Left(l, old(Rest()), value) && old(pos) <= pos && (!err && value.Some? ==> old(pos) < pos)
      decreases |toks| - pos, 2 * (VALUE - l)
    {
      hide Parse, Loop, StripNl;
      ghost var before := Rest();
      LoopRules(l, None, before);
      value := ArithmExpr(l + 1);
      if err {
        return;
      }
      RestHere();
      while AtOf(l)
        invariant Valid() && !err && !AtNewl() && old(pos) <= pos && (value.Some? ==> old(pos) < pos)
        invariant Parse(l, before) == Loop(l, value, Rest())
        decreases |toks| - pos
      {
        RestHere();
        LoopRules(l, value, Rest());
        if value == None {
          value := Fail();
          return;
        }
        var op := toks[pos].y;
        ghost var here := Rest();
        NextArith();
        var y := ArithmExpr(l + 1);
        if err {
          return;
        }
        if y == None {
          value := Fail();
          return;
        }
        LoopTurn(l, value.value, here, y.value, Rest());
        value := Some(Bin(op, value.value, y.value));
      }
      RestHere();
      LoopRules(l, value, Rest());
    }

    method ArithmExprAssign() returns (value: Option<Expr>)
      requires Valid() && !err
      modifies this
      ensures Left(ASSIGN, old(Rest()), value) && old(pos) <= pos && (!err && value.Some? ==> old(pos) < pos)
      decreases |toks| - pos, 2 * (VALUE - ASSIGN)
    {
      value := ArithmExpr(TERNARY);
      if err {
        return;
      }
      RestHere();
      if AtOf(ASSIGN) {
        if value == None || !IsName(value.value) {
          value := Fail();
          return;
        }
        var op := toks[pos].y;
        NextArith();
        var y := ArithmExpr(ASSIGN);
        if err {
          return;
        }
        if y == None {
          value := Fail();
          return;
        }
        value := Some(Bin(op, value.value, y.value));
      }
    }

    method ArithmExprTernary() returns (value: Option<Expr>)
      requires Valid() && !err
      modifies this
      ensures Left(TERNARY, old(Rest()), value) && old(pos) <= pos && (!err && value.Some? ==> old(pos) < pos)
      decreases |toks| - pos, 2 * (VALUE - TERNARY)
    {
      value := ArithmExpr(LOR);
      if err {
        return;
      }
      RestHere();
      if !At(Quest) {
        return;
      }
      if value == None {
        value := Fail();
        return;
      }
      NextArith();
      RestHere();
      if At(Colon) {
        value := Fail();
        return;
      }
      var trueExpr := ArithmExpr(COMMA);
      if err {
        return;
      }
      RestHere();
      if trueExpr == None || !At(Colon) {
        value := Fail();
        return;
      }
      NextArith();
      var falseExpr := ArithmExpr(TERNARY);
      if err {
        return;
      }
      if falseExpr == None {
        value := Fail();
        return;
      }
      value := Some(Bin(Quest, value.value, Bin(Colon, trueExpr.value, falseExpr.value)));
    }

    method ArithmExprPower() returns (value: Option<Expr>)
      requires Valid() && !err
      modifies this
      ensures Left(POWER, old(Rest()), value) && old(pos) <= pos && (!err && value.Some? ==> old(pos) < pos)
      decreases |toks| - pos, 2 * (VALUE - POWER)
    {
      value := ArithmExpr(UNARY);
      if err {
        return;
      }
      RestHere();
      if !At(Power) {
        return;
      }
      if value == None {
        value := Fail();
        return;
      }
      NextArith();
      var y := ArithmExpr(POWER);
      if err {
        return;
      }
      if y == None {
        value := Fail();
        return;
      }
      value := Some(Bin(Power, value.value, y.value));
    }

    method ArithmExprUnary() returns (r: Option<Expr>)
      requires Valid() && !err
      modifies this
      ensures Left(UNARY, old(Rest()), r) && old(pos) <= pos && (!err && r.Some? ==> old(pos) < pos)
      decreases |toks| - pos, 2 * (VALUE - UNARY)
    {
      hide Parse, StripNl;
      GotNewl();
      RestHere();
      UnaryRules(Rest());
      if pos < |toks| && toks[pos].Op? && IsPrefix(toks[pos].y) {
        var op := toks[pos].y;
        NextArith();
        var x := ArithmExpr(UNARY);
        if err {
          return None;
        }
        if x == None {
          r := Fail();
          return;
        }
        return Some(Un(op, false, x.value));
      }
      r := ArithmExpr(VALUE);
    }

    method ArithmExprValue() returns (r: Option<Expr>)
      requires Valid() && !err && !AtNewl()
      modifies this
      ensures Left(VALUE, old(Rest()), r) && old(pos) <= pos && (!err && r.Some? ==> old(pos) < pos)
      decreases |toks| - pos, 0
    {
      RestHere();
      if pos == |toks| {
        return None;
      }
      match toks[pos]
      case Lit(s) =>
        NextArith();
        r := Postfix(LitE(s));
      case Word(w) =>
        NextArith();
        r := Postfix(WordE(w));
      case Newl =>
        return None;
      case Op(y) =>
        if IsStep(y) {
          NextArith();
          RestHere();
          if pos == |toks| || !toks[pos].Lit? {
            r := Fail();
            return;
          }
          var x := ArithmExpr(VALUE);
          if err {
            return None;
          }
          if x == None {
            r := Fail();
            return;
          }
          return Some(Un(y, false, x.value));
        } else if y == LParen {
          r := Parenthesised();
        } else if y == Colon {
          r := Fail();
        } else {
          return None;
        }
    }

    method Parenthesised() returns (r: Option<Expr>)
      requires Valid() && !err && !AtNewl() && At(LParen)
      modifies this
      ensures Left(VALUE, old(Rest()), r) && old(pos) <= pos && (!err && r.Some? ==> old(pos) < pos)
      decreases |toks| - pos, 0, 0
    {
      RestHere();
      NextArith();
      var x := ArithmExpr(COMMA);
      if err {
        return None;
      }
      RestHere();
      if x == None || !At(RParen) {
        r := Fail();
        return;
      }
      NextArith();
      r := Postfix(Paren(x.value));
    }

    /** A postfix ++ or -- after the value just read. */
    method Postfix(x: Expr) returns (r: Option<Expr>)
      requires Valid() && !err && !AtNewl()
      modifies this
      ensures Valid() && old(pos) <= pos
      ensures if err then PostStep(x, old(Rest())) == Bad
              else !AtNewl() && r.Some? && PostStep(x, old(Rest())) == Got(r, Rest())
    {
      RestHere();
      if !AtStep() {
        return Some(x);
      }
      if !IsName(x) {
        r := Fail();
        return;
      }
      var op := toks[pos].y;
      NextArith();
      r := Some(Un(op, true, x));
    }
  }
}

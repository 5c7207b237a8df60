/** Laws the operators obey, whatever the operands. */
module ArithLaws {
  import opened Basics
  import opened ArithSyntax
  import opened ArithNumbers
  import opened ArithEval

  function Op2(op: Sym, x: int, y: int): Res
    requires Int64(x) && Int64(y)
  {
    BinArit(op, x, y)
  }

  /** The operator's value; its failures are no part of the laws that use this. */
  function Val2(op: Sym, x: int, y: int): (v: int)
    requires Int64(x) && Int64(y)
    ensures Int64(v)
  {
    var r := BinArit(op, x, y);
    if r.Done? then r.v else 0
  }

  function Val1(op: Sym, x: int): (v: int)
    requires Int64(x)
    ensures Int64(v)
  {
    var r := Unary(op, x);
    if r.Done? then r.v else 0
  }

  lemma {:induction false} BitsNot(x: int, y: int, n: nat)
    ensures Bits(OrBit, -x - 1, -y - 1, n) == -Bits(AndBit, x, y, n) - 1
    ensures Bits(AndBit, -x - 1, -y - 1, n) == -Bits(OrBit, x, y, n) - 1
    decreases n
  {
    if n > 0 { BitsNot(x / 2, y / 2, n - 1); }
  }

  /**
   * Negation: the logical and the bitwise operators are each other's duals under ! and ~, and ! turns each comparison
   * into the one it leaves out, exactly one of <, == and > holding.
   */
  lemma Negation(x: int, y: int)
    requires Int64(x) && Int64(y)
    ensures Unary(Tilde, Val2(Amp, x, y)) == Op2(Pipe, Val1(Tilde, x), Val1(Tilde, y))
    ensures Unary(Tilde, Val2(Pipe, x, y)) == Op2(Amp, Val1(Tilde, x), Val1(Tilde, y))
    ensures Unary(Tilde, Val1(Tilde, x)) == Done(x)
    ensures Unary(Excl, Val2(AndAnd, x, y)) == Op2(OrOr, Val1(Excl, x), Val1(Excl, y))
    ensures Unary(Excl, Val2(Less, x, y)) == Op2(GEqual, x, y) && Unary(Excl, Val2(Greater, x, y)) == Op2(LEqual, x, y)
    ensures Unary(Excl, Val2(Equal, x, y)) == Op2(NEqual, x, y) && Op2(Less, x, y) == Op2(Greater, y, x)
    ensures Val2(Less, x, y) + Val2(Equal, x, y) + Val2(Greater, x, y) == 1
  {
    hide *;
    BitwiseNot(x, y);
    Comparisons(x, y);
    TildeTwice(x);
  }

  lemma TildeTwice(x: int)
    requires Int64(x)
    ensures Unary(Tilde, Val1(Tilde, x)) == Done(x)
  { }

  lemma BitwiseNot(x: int, y: int)
    requires Int64(x) && Int64(y)
    ensures Unary(Tilde, Val2(Amp, x, y)) == Op2(Pipe, Val1(Tilde, x), Val1(Tilde, y))
    ensures Unary(Tilde, Val2(Pipe, x, y)) == Op2(Amp, Val1(Tilde, x), Val1(Tilde, y))
  {
    hide Bits, BinArit;
    BitVals(x, y);
    BitVals(-x - 1, -y - 1);
    BitsNot(x, y, 63);
    BitsDone(-x - 1, -y - 1);
  }

  lemma BitsDone(x: int, y: int)
    requires Int64(x) && Int64(y)
    ensures Op2(Amp, x, y) == Done(Val2(Amp, x, y)) && Op2(Pipe, x, y) == Done(Val2(Pipe, x, y))
  {
    hide Bits;
  }

  lemma Comparisons(x: int, y: int)
    requires Int64(x) && Int64(y)
    ensures Unary(Excl, Val2(AndAnd, x, y)) == Op2(OrOr, Val1(Excl, x), Val1(Excl, y))
    ensures Unary(Excl, Val2(Less, x, y)) == Op2(GEqual, x, y) && Unary(Excl, Val2(Greater, x, y)) == Op2(LEqual, x, y)
    ensures Unary(Excl, Val2(Equal, x, y)) == Op2(NEqual, x, y) && Op2(Less, x, y) == Op2(Greater, y, x)
    ensures Val2(Less, x, y) + Val2(Equal, x, y) + Val2(Greater, x, y) == 1
  {
    hide BinArit;
    CompareIs(x, y);
    CompareIs(y, x);
    LogicIs(x, y);
    LogicIs(Val1(Excl, x), Val1(Excl, y));
  }

  lemma CompareIs(x: int, y: int)
    requires Int64(x) && Int64(y)
    ensures BinArit(Less, x, y) == Done(OneIf(x < y)) && BinArit(Greater, x, y) == Done(OneIf(x > y))
    ensures BinArit(LEqual, x, y) == Done(OneIf(x <= y)) && BinArit(GEqual, x, y) == Done(OneIf(x >= y))
    ensures BinArit(Equal, x, y) == Done(OneIf(x == y)) && BinArit(NEqual, x, y) == Done(OneIf(x != y))
  {
    hide Bitwise, Wrap64, Pow, ShiftLeft, ShiftRight, Quo, Rem;
  }

  lemma LogicIs(x: int, y: int)
    requires Int64(x) && Int64(y)
    ensures BinArit(AndAnd, x, y) == Done(OneIf(x != 0 && y != 0))
              && BinArit(OrOr, x, y) == Done(OneIf(x != 0 || y != 0))
  {
    hide Bitwise, Wrap64, Pow, ShiftLeft, ShiftRight, Quo, Rem;
  }

  lemma WrapAdd(x: int, y: int)
    ensures Wrap64(Wrap64(x) + y) == Wrap64(x + y)
  {
    WrapSame(x);
    var k: int :| Wrap64(x) == x + k * TWO64;
    assert Wrap64(x) + y == (x + y) + k * TWO64;
    assert Same(Wrap64(x) + y, x + y);
    SameWrap(Wrap64(x) + y, x + y);
  }

  lemma Undo(x: int, y: int)
    requires Int64(x) && Int64(y)
    ensures Wrap64(Val2(Plus, x, y) - y) == x
  {
    WrapAdd(x + y, -y);
  }

  lemma QuotientAndRemainder(x: int, y: int)
    requires Int64(x) && Int64(y) && y != 0
    ensures Val2(Slash, x, y) == Wrap64(Quo(x, y)) && Val2(Perc, x, y) == Wrap64(Rem(x, y))
  { }

  /** Subtraction undoes addition, and quotient and remainder recombine to the dividend; division by zero fails. */
  lemma Recombine(x: int, y: int)
    requires Int64(x) && Int64(y)
    ensures Wrap64(Val2(Plus, x, y) - y) == x && Op2(Minus, Val2(Plus, x, y), y) == Done(x)
              && Unary(Minus, x) == Op2(Minus, 0, x)
    ensures y != 0 ==> Wrap64(Wrap64(Val2(Slash, x, y) * y) + Val2(Perc, x, y)) == x
    ensures y == 0 ==> Op2(Slash, x, y) == Op2(Perc, x, y) == Fail(Division)
  {
    hide Quo, Rem, Wrap64, Val2;
    Undo(x, y);
    if y != 0 {
      var q, r := Quo(x, y), Rem(x, y);
      QuotientAndRemainder(x, y);
      QuoRem(x, y);
      WrapSame(q);
      SameMul(Wrap64(q), q, y);
      SameWrap(Wrap64(q) * y, q * y);
      SmallRem(x, y);
      WrapAdd(q * y, r);
    }
  }

  lemma SmallRem(x: int, y: int)
    requires Int64(x) && Int64(y) && y != 0
    ensures Int64(Rem(x, y))
  { }

  /** From 64 on a power of two is a multiple of 2^64. */
  lemma {:induction false} BigPower(y: nat)
    requires y >= 64
    ensures Same(Pow(2, y), 0)
  {
    if y == 64 {
      TopBit();
      assert Pow(2, 64) == 0 + 1 * TWO64;
    } else {
      BigPower(y - 1);
      SameMul(Pow(2, y - 1), 0, 2);
    }
  }

  /**
   * One more power is one more factor. Shifting left by y multiplies by the y-th power of two, however large y is, and
   * shifting right divides by it, rounding down; a negative count shifts everything out.
   */
  lemma Powers(x: int, y: int)
    requires Int64(x) && Int64(y) && y < MAX
    ensures Op2(Power, x, 0) == Done(1) && (y < 0 ==> Op2(Power, x, y) == Done(1))
    ensures 0 <= y ==> Op2(Power, x, y + 1) == Op2(Star, x, Val2(Power, x, y))
    ensures 0 <= y ==> Op2(Shl, x, y) == Op2(Star, x, Val2(Power, 2, y))
    ensures 0 <= y < 64 ==> 0 <= x - Val2(Shr, x, y) * Pow(2, y) < Pow(2, y)
    ensures y < 0 || y >= 64 ==> Op2(Shl, x, y) == Done(0) && Op2(Shr, x, y) == Done(if x < 0 then -1 else 0)
  {
    hide Wrap64, ShiftLeft, ShiftRight, Pow, BinArit;
    PowerIs(x, 0);
    PowerBelow(x, y);
    OneWraps();
    ShiftsAre(x, y);
    if 0 <= y {
      PowerIs(x, y);
      PowerIs(x, y + 1);
      PowerIs(2, y);
      PowStep(x, y);
      WrapSame(Pow(x, y));
      SameMul(Wrap64(Pow(x, y)), Pow(x, y), x);
      SameWrap(x * Wrap64(Pow(x, y)), x * Pow(x, y));
      ShiftIs(x, y);
      TimesIs(x, Wrap64(Pow(x, y)));
      TimesIs(x, Wrap64(Pow(2, y)));
    }
    ShiftRightIs(x, y);
  }

  lemma PowStep(x: int, y: nat)
    ensures Pow(x, y + 1) == x * Pow(x, y)
  { }

  lemma PowerIs(x: int, y: int)
    requires Int64(x) && Int64(y) && y >= 0
    ensures BinArit(Power, x, y) == Done(Wrap64(Pow(x, y))) && (y == 0 ==> Pow(x, y) == 1)
  {
    hide Wrap64;
  }

  lemma PowerBelow(x: int, y: int)
    requires Int64(x) && Int64(y)
    ensures y < 0 ==> BinArit(Power, x, y) == Done(1)
  {
    hide Wrap64, Pow;
  }

  lemma TimesIs(x: int, y: int)
    requires Int64(x) && Int64(y)
    ensures BinArit(Star, x, y) == Done(Wrap64(x * y))
  {
    hide Wrap64;
  }

  lemma ShiftsAre(x: int, y: int)
    requires Int64(x) && Int64(y)
    ensures BinArit(Shl, x, y) == Done(ShiftLeft(x, y)) && BinArit(Shr, x, y) == Done(ShiftRight(x, y))
  {
    hide ShiftLeft, ShiftRight;
  }

  lemma ShiftRightIs(x: int, y: int)
    ensures 0 <= y < 64 ==> 0 <= x - ShiftRight(x, y) * Pow(2, y) < Pow(2, y)
    ensures y < 0 || y >= 64 ==> ShiftLeft(x, y) == 0 && ShiftRight(x, y) == (if x < 0 then -1 else 0)
  {
    if 0 <= y < 64 {
      PowPositive(2, y);
      assert x == x / Pow(2, y) * Pow(2, y) + x % Pow(2, y);
    }
  }

  lemma ShiftIs(x: int, y: nat)
    ensures ShiftLeft(x, y) == Wrap64(x * Wrap64(Pow(2, y)))
  {
    hide Wrap64;
    WrapSame(Pow(2, y));
    SameMul(Wrap64(Pow(2, y)), Pow(2, y), x);
    SameWrap(x * Wrap64(Pow(2, y)), x * Pow(2, y));
    if y >= 64 {
      BigPower(y);
      SameMul(Pow(2, y), 0, x);
      SameWrap(x * Pow(2, y), 0);
      ZeroWraps();
    }
  }

  lemma ZeroWraps()
    ensures Wrap64(0) == 0
  { }

  lemma OneWraps()
    ensures Wrap64(1) == 1
  { }

  lemma BitVals(x: int, y: int)
    requires Int64(x) && Int64(y)
    ensures Val2(Amp, x, y) == Bits(AndBit, x, y, 63)
    ensures Val2(Pipe, x, y) == Bits(OrBit, x, y, 63)
    ensures Val2(Caret, x, y) == Bits(XorBit, x, y, 63)
  {
    hide Bits;
  }

  /** Each of the low 63 bits of a bitwise result is the operator on the operands' bits, and the sign likewise. */
  lemma BitByBit(x: int, y: int, i: nat)
    requires Int64(x) && Int64(y) && i < 63
    ensures Bit(Val2(Amp, x, y), i) == (Bit(x, i) && Bit(y, i)) && (Val2(Amp, x, y) < 0 <==> x < 0 && y < 0)
    ensures Bit(Val2(Pipe, x, y), i) == (Bit(x, i) || Bit(y, i)) && (Val2(Pipe, x, y) < 0 <==> x < 0 || y < 0)
    ensures Bit(Val2(Caret, x, y), i) == (Bit(x, i) != Bit(y, i)) && (Val2(Caret, x, y) < 0 <==> ((x < 0) != (y < 0)))
  {
    hide Bit, Bits, Val2, BinArit;
    BitVals(x, y);
    BitsAt(AndBit, x, y, 63, i);
    BitsAt(OrBit, x, y, 63, i);
    BitsAt(XorBit, x, y, 63, i);
    BitsSign(AndBit, x, y, 63);
    BitsSign(OrBit, x, y, 63);
    BitsSign(XorBit, x, y, 63);
  }

  lemma {:induction false} BitsSign(op: BitOp, x: int, y: int, n: nat)
    ensures Bits(op, x, y, n) < 0 <==> OnBits(op, x < 0, y < 0)
    decreases n
  {
    if n > 0 { BitsSign(op, x / 2, y / 2, n - 1); }
  }

  // ---------- operands ----------

  /** A comma evaluates both sides, the left one first, and is the right one; a failing left side is all there is. */
  lemma CommaIs(ws: Words, x: Expr, y: Expr, env: Env)
    ensures var o := Eval(ws, x, env);
            Eval(ws, Bin(Comma, x, y), env) == if o.r.Fail? then o else Eval(ws, y, o.env)
  {
    hide Eval, BinArit;
    EvalBinary(ws, Comma, x, y, env);
    var o := Eval(ws, x, env);
    if o.r.Done? && Eval(ws, y, o.env).r.Done? { CommaRight(o.r.v, Eval(ws, y, o.env).r.v); }
  }

  lemma CommaRight(x: int, y: int)
    requires Int64(x) && Int64(y)
    ensures BinArit(Comma, x, y) == Done(y)
  {
    hide Wrap64, Pow, Bitwise, ShiftLeft, ShiftRight, Quo, Rem;
  }

  /** Multiplication is repeated addition. */
  lemma TimesMore(x: int, y: int)
    requires Int64(x) && Int64(y) && y < MAX
    ensures Op2(Star, x, 0) == Done(0) && Op2(Star, x, y + 1) == Op2(Plus, Val2(Star, x, y), x)
  {
    hide BinArit, Wrap64;
    TimesIs(x, 0);
    TimesIs(x, y);
    TimesIs(x, y + 1);
    ZeroWraps();
    PlusIs(Wrap64(x * y), x);
    WrapAdd(x * y, x);
    assert x * (y + 1) == x * y + x;
  }

  lemma PlusIs(x: int, y: int)
    requires Int64(x) && Int64(y)
    ensures BinArit(Plus, x, y) == Done(Wrap64(x + y))
  {
    hide Wrap64;
  }

  /** A prefix + changes nothing, ~ turns every bit over, and ! asks for zero; a failing operand is the outcome. */
  lemma PrefixIs(ws: Words, op: Sym, x: Expr, env: Env, i: nat)
    requires IsPrefix(op) && i < 63
    ensures var o, u := Eval(ws, x, env), Eval(ws, Un(op, false, x), env);
            && (o.r.Fail? ==> u == o)
            && (o.r.Done? ==>
                && u.env == o.env && u.r.Done?
                && (op == Plus ==> u.r == o.r)
                && (op == Minus ==> u.r == Op2(Minus, 0, o.r.v))
                && (op == Excl ==> u.r.v == OneIf(o.r.v == 0))
                && (op == Tilde ==> (u.r.v < 0 <==> o.r.v >= 0) && (Bit(u.r.v, i) <==> !Bit(o.r.v, i))))
  {
    hide Wrap64, Bit;
    var o := Eval(ws, x, env);
    if o.r.Done? { BitNot(o.r.v, i); }
  }

  lemma {:induction false} BitNot(x: int, i: nat)
    ensures Bit(-x - 1, i) == !Bit(x, i)
    decreases i
  {
    if i > 0 {
      assert (-x - 1) / 2 == -(x / 2) - 1;
      BitNot(x / 2, i - 1);
    }
  }

  /** A word that is no literal is expanded first and then reads as the literal it came to. */
  lemma WordIs(ws: Words, w: nat, env: Env)
    ensures var t := ws(w, env);
            Eval(ws, WordE(w), env) == if t.text == None then Out(Fail(Expansion), t.env)
                else Eval(ws, LitE(t.text.value), t.env)
  {
    hide Atoi, Deref;
  }

  /** The operators that are no operator of the switch are refused, and no other fails but for a zero divisor. */
  lemma FailsIff(op: Sym, x: int, y: int)
    requires Int64(x) && Int64(y)
    ensures Op2(op, x, y) == Fail(Unsupported) <==> BinLevel(op).None? || IsAssign(op) || op == Quest || op == DblCaret
    ensures Op2(op, x, y) == Fail(Division) <==> (op == Slash || op == Perc) && y == 0
    ensures Op2(op, x, y).Done? || Op2(op, x, y) == Fail(Unsupported) || Op2(op, x, y) == Fail(Division)
  {
    hide Wrap64, Pow, Bitwise, ShiftLeft, ShiftRight, Quo, Rem;
  }
}

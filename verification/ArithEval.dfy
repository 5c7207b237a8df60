/** What an arithmetic tree evaluates to: a value or an error, and the variables it leaves. */
module ArithEval {
  import opened Basics
  import opened ArithSyntax
  import opened ArithNumbers
  import opened ArithParse
  import ArithRoundTrip

  /** Variables by name; `locked` ones are read-only, and nothing can be set when not `writable`. */
  datatype Env = Env(vars: map<string, string>, locked: set<string>, writable: bool)

  /** Crash is a failed type assertion. */
  datatype Err = Division | Denied | Unsupported | Expansion | Crash

  datatype Res = Done(v: int) | Fail(e: Err)

  datatype Out = Out(r: Res, env: Env)

  /** What a word that is not a literal expands to; expanding it may set variables or fail. */
  datatype Expanded = Expanded(text: Option<string>, env: Env)
  type Words = (nat, Env) -> Expanded

  function Get(env: Env, x: string): string {
    if x in env.vars then env.vars[x] else ""
  }

  predicate CanSet(env: Env, x: string) {
    env.writable && x !in env.locked
  }

  /** Store a number in a variable. */
  function Store(env: Env, x: string, n: int, r: int): (o: Out)
    requires Int64(n)
    ensures CanSet(env, x) <==> o.r.Done?
    ensures forall y :: y != x ==> Get(o.env, y) == Get(env, y)
  {
    if CanSet(env, x) then Out(Done(r), env.(vars := env.vars[x := Format(n)])) else Out(Fail(Denied), env)
  }

  // ---------- words ----------

  /** The text names a set variable, so the variable's value is looked at instead. */
  predicate Refers(env: Env, s: string) {
    ValidName(s) && Get(env, s) != ""
  }

  const HOPS: nat := 99

  function Deref(env: Env, s: string, n: nat): string
    decreases n
  {
    if n == 0 || !Refers(env, s) then s else Deref(env, Get(env, s), n - 1)
  }

  ghost predicate Chain(env: Env, p: seq<string>) {
    p != [] && forall i :: 0 <= i < |p| - 1 ==> Refers(env, p[i]) && p[i + 1] == Get(env, p[i])
  }

  ghost predicate Ends(env: Env, p: seq<string>) {
    Chain(env, p) && !Refers(env, p[|p| - 1])
  }

  /** A chain of names that ends within 99 hops gives its last text. */
  lemma {:induction false} DerefEnd(env: Env, p: seq<string>, n: nat)
    requires Ends(env, p) && |p| <= n + 1
    ensures Deref(env, p[0], n) == p[|p| - 1]
    decreases n
  {
    if |p| > 1 {
      assert Refers(env, p[0]);
      DerefEnd(env, p[1..], n - 1);
    }
  }

  lemma {:induction false} DerefStuck(env: Env, s: string, n: nat) returns (p: seq<string>)
    ensures Chain(env, p) && p[0] == s && p[|p| - 1] == Deref(env, s, n) && |p| <= n + 1
    ensures Ends(env, p) || ValidName(Deref(env, s, n))
    decreases n
  {
    p := [s];
    if n > 0 && Refers(env, s) {
      var q := DerefStuck(env, Get(env, s), n - 1);
      p := [s] + q;
    }
  }

  lemma NameIsZero(s: string)
    requires ValidName(s)
    ensures Atoi(s) == 0
  {
    var last := s[|s| - 1];
    assert NameStart(last) || Digit(last);
    assert Trim(s) == s;
  }

  /**
   * A literal's value: the number its chain of names ends in, and 0 if the chain is longer than 99 names or runs in a
   * circle.
   */
  lemma WordValue(ws: Words, env: Env, s: string)
    ensures forall p :: Ends(env, p) && p[0] == s && |p| <= 100 ==>
              Eval(ws, LitE(s), env) == Out(Done(Atoi(p[|p| - 1])), env)
    ensures (forall p :: Ends(env, p) && p[0] == s ==> |p| > 100) ==> Eval(ws, LitE(s), env) == Out(Done(0), env)
  {
    hide Atoi;
    forall p | Ends(env, p) && p[0] == s && |p| <= 100
      ensures Deref(env, s, HOPS) == p[|p| - 1]
    {
      DerefEnd(env, p, HOPS);
    }
    var p := DerefStuck(env, s, HOPS);
    if !Ends(env, p) { NameIsZero(Deref(env, s, HOPS)); }
  }

  // ---------- operators ----------

  function OneIf(b: bool): int {
    if b then 1 else 0
  }

  /** binArit */
  function BinArit(op: Sym, x: int, y: int): (r: Res)
    requires Int64(x) && Int64(y)
    ensures if r.Done? then Int64(r.v) else r.e != Crash
  {
    match op
    case Plus => Done(Wrap64(x + y))
    case Minus => Done(Wrap64(x - y))
    case Star => Done(Wrap64(x * y))
    case Slash => if y == 0 then Fail(Division) else Done(Wrap64(Quo(x, y)))
    case Perc => if y == 0 then Fail(Division) else Done(Wrap64(Rem(x, y)))
    case Power => Done(if y < 0 then 1 else Wrap64(Pow(x, y)))
    case Equal => Done(OneIf(x == y))
    case Greater => Done(OneIf(x > y))
    case Less => Done(OneIf(x < y))
    case NEqual => Done(OneIf(x != y))
    case LEqual => Done(OneIf(x <= y))
    case GEqual => Done(OneIf(x >= y))
    case Amp => Done(Bitwise(AndBit, x, y))
    case Pipe => Done(Bitwise(OrBit, x, y))
    case Caret => Done(Bitwise(XorBit, x, y))
    case Shr => Done(ShiftRight(x, y))
    case Shl => Done(ShiftLeft(x, y))
    case AndAnd => Done(OneIf(x != 0 && y != 0))
    case OrOr => Done(OneIf(x != 0 || y != 0))
    case Comma => Done(y)
    case _ => Fail(Unsupported)
  }

  /** The value assgnArit stores. */
  function AssgnArit(op: Sym, val: int, arg: int): (r: Res)
    requires Int64(val) && Int64(arg) && IsAssign(op)
    ensures if r.Done? then Int64(r.v) else r.e != Crash
  {
    match op
    case Assgn => Done(arg)
    case AddAssgn => Done(Wrap64(val + arg))
    case SubAssgn => Done(Wrap64(val - arg))
    case MulAssgn => Done(Wrap64(val * arg))
    case QuoAssgn => if arg == 0 then Fail(Division) else Done(Wrap64(Quo(val, arg)))
    case RemAssgn => if arg == 0 then Fail(Division) else Done(Wrap64(Rem(val, arg)))
    case AndAssgn => Done(Bitwise(AndBit, val, arg))
    case OrAssgn => Done(Bitwise(OrBit, val, arg))
    case XorAssgn => Done(Bitwise(XorBit, val, arg))
    case ShlAssgn => Done(ShiftLeft(val, arg))
    case ShrAssgn => Done(ShiftRight(val, arg))
  }

  /** The operator a compound assignment applies. */
  function BaseOp(op: Sym): Sym
    requires IsAssign(op) && op != Assgn
  {
    match op
    case AddAssgn => Plus
    case SubAssgn => Minus
    case MulAssgn => Star
    case QuoAssgn => Slash
    case RemAssgn => Perc
    case AndAssgn => Amp
    case OrAssgn => Pipe
    case XorAssgn => Caret
    case ShlAssgn => Shl
    case ShrAssgn => Shr
  }

  function Unary(op: Sym, v: int): (r: Res)
    requires Int64(v)
    ensures if r.Done? then Int64(r.v) else r.e != Crash
  {
    match op
    case Excl => Done(OneIf(v == 0))
    case Tilde => Done(-v - 1)
    case Plus => Done(v)
    case Minus => Done(Wrap64(-v))
    case _ => Fail(Unsupported)
  }

  /** The name a word spells; None where the code's type assertion to a word fails. */
  function NameOf(e: Expr): Option<string> {
    match e
    case LitE(s) => Some(s)
    case WordE(_) => Some("")
    case _ => None
  }

  // ---------- evaluation ----------

  function Eval(ws: Words, e: Expr, env: Env): (o: Out)
    ensures o.r.Done? ==> Int64(o.r.v)
    decreases e
  {
    match e
    case LitE(s) => Out(Done(Atoi(Deref(env, s, HOPS))), env)
    case WordE(w) =>
      var t := ws(w, env);
      if t.text.None? then Out(Fail(Expansion), t.env)
      else Out(Done(Atoi(Deref(t.env, t.text.value, HOPS))), t.env)
    case Paren(x) => Eval(ws, x, env)
    case Un(op, post, x) =>
      if IsStep(op) then EvalStep(op, post, x, env)
      else
        var o := Eval(ws, x, env);
        if o.r.Fail? then o else Out(Unary(op, o.r.v), o.env)
    case Bin(op, x, y) =>
      if IsAssign(op) then
        if NameOf(x).None? then Out(Fail(Crash), env)
        else Finish(op, NameOf(x).value, Atoi(Get(env, NameOf(x).value)), Eval(ws, y, env))
      else
        var l := Eval(ws, x, env);
        if l.r.Fail? then l
        else if op == Quest then
          if !y.Bin? then Out(Fail(Crash), l.env)
          else if l.r.v == 1 then Eval(ws, y.left, l.env)
          else Eval(ws, y.right, l.env)
        else
          var r := Eval(ws, y, l.env);
          if r.r.Fail? then r else Out(BinArit(op, l.r.v, r.r.v), r.env)
  }

  /** ++ and -- */
  function EvalStep(op: Sym, post: bool, x: Expr, env: Env): (o: Out)
    requires IsStep(op)
    ensures o.r.Done? ==> Int64(o.r.v)
  {
    if NameOf(x).None? then Out(Fail(Crash), env)
    else
      var before := Atoi(Get(env, NameOf(x).value));
      var val := Wrap64(if op == AddAdd then before + 1 else before - 1);
      Store(env, NameOf(x).value, val, if post then before else val)
  }

  /** The end of assgnArit, once the right-hand side is evaluated. */
  function Finish(op: Sym, x: string, val: int, o: Out): (r: Out)
    requires IsAssign(op) && Int64(val) && (o.r.Done? ==> Int64(o.r.v))
    ensures r.r.Done? ==> Int64(r.r.v)
    ensures r.r == Fail(Crash) ==> o.r == r.r
  {
    if o.r.Fail? then o
    else
      var a := AssgnArit(op, val, o.r.v);
      if a.Fail? then Out(a, o.env) else Store(o.env, x, a.v, a.v)
  }

  // ---------- parentheses do not change meaning ----------

  lemma {:induction false} StripMeaning(ws: Words, e: Expr, env: Env)
    requires Sane(e)
    ensures Eval(ws, Strip(e), env) == Eval(ws, e, env)
    decreases e
  {
    hide BinArit, AssgnArit, Unary, Finish, Atoi, Deref;
    match e
    case LitE(_) =>
    case WordE(_) =>
    case Paren(x) => StripMeaning(ws, x, env);
    case Un(op, post, x) =>
      if IsPrefix(op) { StripMeaning(ws, x, env); }
    case Bin(op, x, y) =>
      if IsAssign(op) {
        StripMeaning(ws, y, env);
      } else {
        StripMeaning(ws, x, env);
        var l := Eval(ws, x, env);
        if op == Quest {
          StripMeaning(ws, y.left, l.env);
          StripMeaning(ws, y.right, l.env);
        } else {
          StripMeaning(ws, y, l.env);
        }
      }
  }

  /**
   * Writing a tree down with the parentheses it needs and parsing that gives a tree with the same value, error and
   * variables.
   */
  lemma PrintedMeaning(ws: Words, e: Expr, env: Env, rest: seq<Tok>)
    requires Sane(e) && ArithRoundTrip.Ends(rest)
    ensures var p := Parse(COMMA, Flat(Fix(e, COMMA)) + rest);
            p.Got? && p.e.Some? && p.rest == rest && Eval(ws, p.e.value, env) == Eval(ws, e, env)
  {
    ArithRoundTrip.RoundTrip(e, rest);
    FixFits(e, COMMA);
    StripMeaning(ws, e, env);
    StripMeaning(ws, Fix(e, COMMA), env);
  }

  // ---------- what evaluation changes ----------

  /** Expanding words has no side effect. */
  ghost predicate PureWords(ws: Words) {
    forall w, env :: ws(w, env).env == env
  }

  /** The names a tree assigns to. */
  function Writes(e: Expr): set<string> {
    match e
    case LitE(_) => {}
    case WordE(_) => {}
    case Paren(x) => Writes(x)
    case Un(op, _, x) => Writes(x) + if IsStep(op) && NameOf(x).Some? then {NameOf(x).value} else {}
    case Bin(op, x, y) => Writes(x) + Writes(y) + if IsAssign(op) && NameOf(x).Some? then {NameOf(x).value} else {}
  }

  /** Only those variables change, only to decimal numbers, and never a read-only one. */
  ghost predicate Frame(e: Expr, env: Env, after: Env) {
    && after.locked == env.locked && after.writable == env.writable
    && forall y :: Get(after, y) == Get(env, y) || (y in Writes(e) && CanSet(env, y) && Numeral(Get(after, y)))
  }

  ghost predicate Numeral(s: string) {
    exists n: int :: Int64(n) && s == Format(n)
  }

  lemma FrameStep(op: Sym, post: bool, x: Expr, env: Env)
    requires IsStep(op)
    ensures Frame(Un(op, post, x), env, EvalStep(op, post, x, env).env)
  { }

  lemma FrameFinish(op: Sym, x: Expr, y: Expr, val: int, env: Env, o: Out)
    requires IsAssign(op) && NameOf(x).Some? && Int64(val) && (o.r.Done? ==> Int64(o.r.v)) && Frame(y, env, o.env)
    ensures Frame(Bin(op, x, y), env, Finish(op, NameOf(x).value, val, o).env)
  { }

  lemma FrameJoin(op: Sym, x: Expr, y: Expr, env: Env, mid: Env, after: Env)
    requires Frame(x, env, mid) && (after == mid || Frame(y, mid, after))
    ensures Frame(Bin(op, x, y), env, after)
  { }

  lemma FrameBranch(op: Sym, x: Expr, y: Expr, z: Expr, env: Env, mid: Env, after: Env)
    requires Frame(x, env, mid) && Frame(z, mid, after) && y.Bin? && (z == y.left || z == y.right)
    ensures Frame(Bin(op, x, y), env, after)
  {
    assert Writes(z) <= Writes(y);
    assert Writes(x) + Writes(y) <= Writes(Bin(op, x, y));
  }

  lemma {:induction false} EvalFrame(ws: Words, e: Expr, env: Env)
    requires PureWords(ws)
    ensures Frame(e, env, Eval(ws, e, env).env)
    decreases e
  {
    hide Frame, Finish, EvalStep, Writes, AssgnArit, BinArit, Unary;
    match e
    case LitE(_) => FrameLeaf(e, env);
    case WordE(w) => FrameLeaf(e, env);
    case Paren(x) =>
      EvalFrame(ws, x, env);
      FrameInner(e, x, env, Eval(ws, x, env).env);
    case Un(op, post, x) =>
      if IsStep(op) {
        FrameStep(op, post, x, env);
      } else {
        EvalFrame(ws, x, env);
        FrameInner(e, x, env, Eval(ws, x, env).env);
      }
    case Bin(op, x, y) =>
      if IsAssign(op) {
        if NameOf(x).None? {
          FrameLeaf(e, env);
        } else {
          EvalFrame(ws, y, env);
          FrameFinish(op, x, y, Atoi(Get(env, NameOf(x).value)), env, Eval(ws, y, env));
        }
      } else {
        EvalFrame(ws, x, env);
        var l := Eval(ws, x, env);
        FrameJoin(op, x, y, env, l.env, l.env);
        if l.r.Done? {
          if op != Quest {
            EvalFrame(ws, y, l.env);
            FrameJoin(op, x, y, env, l.env, Eval(ws, y, l.env).env);
          } else if y.Bin? {
            var z := if l.r.v == 1 then y.left else y.right;
            EvalFrame(ws, z, l.env);
            FrameBranch(op, x, y, z, env, l.env, Eval(ws, z, l.env).env);
          }
        }
      }
  }

  lemma FrameLeaf(e: Expr, env: Env)
    ensures Frame(e, env, env)
  { }

  lemma FrameInner(e: Expr, x: Expr, env: Env, after: Env)
    requires e == Paren(x) || (e.Un? && e.arg == x)
    requires Frame(x, env, after)
    ensures Frame(e, env, after)
  { }

  // ---------- crashes ----------

  /** Some prefix ++ or -- stands before a name that has its own postfix one. */
  predicate DoubleStep(e: Expr) {
    match e
    case LitE(_) => false
    case WordE(_) => false
    case Paren(x) => DoubleStep(x)
    case Un(op, _, x) => (IsStep(op) && x.Un?) || DoubleStep(x)
    case Bin(_, x, y) => DoubleStep(x) || DoubleStep(y)
  }

  predicate NoTernary(e: Expr) {
    match e
    case LitE(_) => true
    case WordE(_) => true
    case Paren(x) => NoTernary(x)
    case Un(_, _, x) => NoTernary(x)
    case Bin(op, x, y) => op != Quest && NoTernary(x) && NoTernary(y)
  }

  /** Such a step stands outside every branch that a ternary on the way does not take. */
  predicate OnTheWay(ws: Words, e: Expr, env: Env)
    decreases e
  {
    match e
    case LitE(_) => false
    case WordE(_) => false
    case Paren(x) => OnTheWay(ws, x, env)
    case Un(op, _, x) => if IsStep(op) then x.Un? else OnTheWay(ws, x, env)
    case Bin(op, x, y) =>
      if IsAssign(op) then OnTheWay(ws, y, env)
      else
        var l := Eval(ws, x, env);
        || OnTheWay(ws, x, env)
        || OnTheWay(ws, if op != Quest || !y.Bin? then y else if l.r == Done(1) then y.left else y.right, l.env)
  }

  /** Without ternaries everything is on the way. */
  lemma {:induction false} WayIsTree(ws: Words, e: Expr, env: Env)
    requires Sane(e)
    ensures OnTheWay(ws, e, env) ==> DoubleStep(e)
    ensures NoTernary(e) ==> (OnTheWay(ws, e, env) <==> DoubleStep(e))
    decreases e
  {
    hide Eval;
    match e
    case LitE(_) =>
    case WordE(_) =>
    case Paren(x) => WayIsTree(ws, x, env);
    case Un(op, post, x) =>
      if IsPrefix(op) { WayIsTree(ws, x, env); }
    case Bin(op, x, y) =>
      if IsAssign(op) {
        WayIsTree(ws, y, env);
      } else {
        WayIsTree(ws, x, env);
        var l := Eval(ws, x, env);
        if op == Quest {
          WayIsTree(ws, y.left, l.env);
          WayIsTree(ws, y.right, l.env);
        } else {
          WayIsTree(ws, y, l.env);
        }
      }
  }

  /**
   * A tree the parser can mean: an evaluation that fails a type assertion has such a step on its way, and one that
   * succeeds has none. So unless it fails otherwise it crashes exactly when there is one.
   */
  lemma {:induction false} CrashIff(ws: Words, e: Expr, env: Env)
    requires Sane(e)
    ensures Eval(ws, e, env).r == Fail(Crash) ==> OnTheWay(ws, e, env)
    ensures Eval(ws, e, env).r.Done? ==> !OnTheWay(ws, e, env)
    decreases e
  {
    hide BinArit, AssgnArit, Unary, Finish, Atoi, Deref;
    match e
    case LitE(_) =>
    case WordE(_) =>
    case Paren(x) => CrashIff(ws, x, env);
    case Un(op, post, x) =>
      if IsPrefix(op) { CrashIff(ws, x, env); }
    case Bin(op, x, y) =>
      if IsAssign(op) {
        CrashIff(ws, y, env);
        FinishDone(op, NameOf(x).value, Atoi(Get(env, NameOf(x).value)), Eval(ws, y, env));
      } else {
        CrashIff(ws, x, env);
        var l := Eval(ws, x, env);
        if op == Quest {
          CrashIff(ws, y.left, l.env);
          CrashIff(ws, y.right, l.env);
        } else {
          CrashIff(ws, y, l.env);
        }
      }
  }

  lemma FinishDone(op: Sym, x: string, val: int, o: Out)
    requires IsAssign(op) && Int64(val) && (o.r.Done? ==> Int64(o.r.v))
    ensures Finish(op, x, val, o).r.Done? ==> o.r.Done?
  { }

  /** A tree without ternaries, unless its evaluation fails otherwise, crashes exactly when it has a double step. */
  lemma PlainCrashIff(ws: Words, e: Expr, env: Env)
    requires Sane(e) && NoTernary(e)
    requires var r := Eval(ws, e, env).r; r.Done? || r == Fail(Crash)
    ensures Eval(ws, e, env).r == Fail(Crash) <==> DoubleStep(e)
  {
    hide Eval, DoubleStep, OnTheWay;
    CrashIff(ws, e, env);
    WayIsTree(ws, e, env);
  }

  /** Without a double step nothing crashes, ternaries or not. */
  lemma {:induction false} NoCrash(ws: Words, e: Expr, env: Env)
    requires Sane(e) && !DoubleStep(e)
    ensures Eval(ws, e, env).r != Fail(Crash)
  {
    hide Eval, DoubleStep, OnTheWay;
    CrashIff(ws, e, env);
    WayIsTree(ws, e, env);
  }

  /** `++x++` is accepted by the parser, and evaluating it always fails the type assertion. */
  lemma DoubleStepCrashes(ws: Words, env: Env)
    ensures var e := Un(AddAdd, false, Un(AddAdd, true, LitE("x")));
            Parse(COMMA, [Op(AddAdd), Lit("x"), Op(AddAdd)]) == Got(Some(e), [])
                && Eval(ws, e, env) == Out(Fail(Crash), env)
  {
    var e := Un(AddAdd, false, Un(AddAdd, true, LitE("x")));
    assert WellFormed(e) by { assert ValidName("x"); }
    assert Flat(e) == [Op(AddAdd), Lit("x"), Op(AddAdd)];
    ArithRoundTrip.Complete(e, COMMA, []);
    assert Flat(e) + [] == Flat(e);
  }

  // ---------- laws of assignment ----------

  /** After `x = e`, x reads as the value assigned. */
  lemma AssignThenRead(ws: Words, x: string, y: Expr, env: Env)
    ensures var o := Eval(ws, Bin(Assgn, LitE(x), y), env);
            o.r.Done? ==> o.r == Eval(ws, y, env).r && (ValidName(x) ==> Eval(ws, LitE(x), o.env) == Out(o.r, o.env))
  {
    hide Atoi, Format, Eval;
    AssignIs(ws, x, y, env);
    var r := Eval(ws, y, env);
    var o := Eval(ws, Bin(Assgn, LitE(x), y), env);
    if o.r.Done? && ValidName(x) {
      ReadNumber(ws, x, r.r.v, o.env);
    }
  }

  lemma AssignIs(ws: Words, x: string, y: Expr, env: Env)
    ensures var r := Eval(ws, y, env);
            Eval(ws, Bin(Assgn, LitE(x), y), env) == if r.r.Fail? then r else Store(r.env, x, r.r.v, r.r.v)
  { }

  lemma FormatNoName(n: int)
    ensures !ValidName(Format(n))
  { }

  lemma ReadNumber(ws: Words, x: string, n: int, env: Env)
    requires ValidName(x) && Int64(n) && Get(env, x) == Format(n)
    ensures Eval(ws, LitE(x), env) == Out(Done(n), env)
  {
    hide Atoi, Format;
    AtoiFormat(n);
    FormatNoName(n);
    assert Deref(env, x, HOPS) == Deref(env, Format(n), HOPS - 1);
    assert Deref(env, Format(n), HOPS - 1) == Format(n);
  }

  /** ++x is x += 1, and x++ leaves the same variables but gives the value before. */
  lemma StepIsAssign(ws: Words, x: string, env: Env)
    ensures Eval(ws, Un(AddAdd, false, LitE(x)), env) == Eval(ws, Bin(AddAssgn, LitE(x), LitE("1")), env)
    ensures Eval(ws, Un(SubSub, false, LitE(x)), env) == Eval(ws, Bin(SubAssgn, LitE(x), LitE("1")), env)
    ensures forall op :: IsStep(op) ==>
              var o, p := Eval(ws, Un(op, false, LitE(x)), env), Eval(ws, Un(op, true, LitE(x)), env);
              p.env == o.env && (o.r.Done? <==> p.r.Done?) && (p.r.Done? ==> p.r.v == Atoi(Get(env, x)))
  {
    hide Eval, Atoi, Deref, Get;
    One(env);
    EvalLit(ws, "1", env);
    EvalAssign(ws, AddAssgn, x, LitE("1"), env);
    EvalAssign(ws, SubAssgn, x, LitE("1"), env);
    forall op, post | IsStep(op)
      ensures Eval(ws, Un(op, post, LitE(x)), env) == EvalStep(op, post, LitE(x), env)
    {
      EvalUn(ws, op, post, x, env);
    }
  }

  lemma EvalLit(ws: Words, s: string, env: Env)
    ensures Eval(ws, LitE(s), env) == Out(Done(Atoi(Deref(env, s, HOPS))), env)
  { }

  lemma EvalUn(ws: Words, op: Sym, post: bool, x: string, env: Env)
    requires IsStep(op)
    ensures Eval(ws, Un(op, post, LitE(x)), env) == EvalStep(op, post, LitE(x), env)
  { }

  lemma One(env: Env)
    ensures Atoi(Deref(env, "1", HOPS)) == 1
  {
    assert !ValidName("1");
    assert Digits(1) == "1";
    AtoiFormat(1);
  }

  function Compound(op: Sym, x: string, y: Expr): Expr {
    Bin(op, LitE(x), y)
  }

  function Spelled(op: Sym, x: string, y: Expr): Expr
    requires IsAssign(op) && op != Assgn
  {
    Bin(Assgn, LitE(x), Bin(BaseOp(op), LitE(x), y))
  }

  lemma AssgnIsBin(op: Sym, val: int, arg: int)
    requires IsAssign(op) && op != Assgn && Int64(val) && Int64(arg)
    ensures AssgnArit(op, val, arg) == BinArit(BaseOp(op), val, arg)
  {
    hide Wrap64, Quo, Rem, Bitwise, ShiftLeft, ShiftRight;
  }

  /** What a compound assignment comes to when its left operand reads as `val`. */
  function Applied(op: Sym, x: string, val: int, o: Out): Out
    requires IsAssign(op) && op != Assgn && Int64(val) && (o.r.Done? ==> Int64(o.r.v))
  {
    if o.r.Fail? then o
    else
      var a := BinArit(BaseOp(op), val, o.r.v);
      if a.Fail? then Out(a, o.env) else Store(o.env, x, a.v, a.v)
  }

  lemma EvalBinary(ws: Words, op: Sym, x: Expr, y: Expr, env: Env)
    requires !IsAssign(op) && op != Quest
    ensures var l := Eval(ws, x, env);
            Eval(ws, Bin(op, x, y), env)
            == if l.r.Fail? then l
               else var r := Eval(ws, y, l.env); if r.r.Fail? then r else Out(BinArit(op, l.r.v, r.r.v), r.env)
  {
    hide BinArit, Atoi, Deref, Finish, EvalStep, Unary, IsAssign;
  }

  lemma EvalAssignment(ws: Words, op: Sym, x: Expr, y: Expr, env: Env)
    requires IsAssign(op)
    ensures Eval(ws, Bin(op, x, y), env)
            == if NameOf(x).None? then Out(Fail(Crash), env)
               else Finish(op, NameOf(x).value, Atoi(Get(env, NameOf(x).value)), Eval(ws, y, env))
  {
    hide Finish, Atoi, Get;
  }

  lemma EvalAssign(ws: Words, op: Sym, x: string, y: Expr, env: Env)
    requires IsAssign(op)
    ensures Eval(ws, Bin(op, LitE(x), y), env) == Finish(op, x, Atoi(Get(env, x)), Eval(ws, y, env))
  {
    hide Eval, Finish, Atoi, Get;
    EvalAssignment(ws, op, LitE(x), y, env);
  }

  lemma EvalBin(ws: Words, op: Sym, x: string, y: Expr, env: Env)
    requires !IsAssign(op) && op != Quest
    ensures var o := Eval(ws, y, env);
            Eval(ws, Bin(op, LitE(x), y), env) == if o.r.Fail? then o
                else Out(BinArit(op, Atoi(Deref(env, x, HOPS)), o.r.v), o.env)
  {
    hide BinArit, Deref, Atoi, Finish, EvalStep, Unary;
    var e := LitE(x);
    assert Eval(ws, e, env) == Out(Done(Atoi(Deref(env, x, HOPS))), env);
  }

  lemma CompoundIs(ws: Words, op: Sym, x: string, y: Expr, env: Env)
    requires IsAssign(op) && op != Assgn
    ensures Eval(ws, Compound(op, x, y), env) == Applied(op, x, Atoi(Get(env, x)), Eval(ws, y, env))
  {
    hide Eval, AssgnArit, BinArit, BaseOp, Atoi, IsAssign;
    EvalAssign(ws, op, x, y, env);
    var o := Eval(ws, y, env);
    if o.r.Done? { AssgnIsBin(op, Atoi(Get(env, x)), o.r.v); }
  }

  lemma BaseBinary(op: Sym)
    requires IsAssign(op) && op != Assgn
    ensures !IsAssign(BaseOp(op)) && BaseOp(op) != Quest
  { }

  lemma SpelledIs(ws: Words, op: Sym, x: string, y: Expr, env: Env)
    requires IsAssign(op) && op != Assgn
    ensures Eval(ws, Spelled(op, x, y), env) == Applied(op, x, Atoi(Deref(env, x, HOPS)), Eval(ws, y, env))
  {
    hide Eval, BinArit, BaseOp, Atoi, Deref;
    BaseBinary(op);
    EvalBin(ws, BaseOp(op), x, y, env);
    EvalAssign(ws, Assgn, x, Bin(BaseOp(op), LitE(x), y), env);
  }

  /** The two readings of x agree, or x cannot be set at all. */
  predicate ReadsAlike(env: Env, x: string) {
    !CanSet(env, x) || Atoi(Get(env, x)) == Atoi(Deref(env, x, HOPS))
  }

  /** Expanding a word, whatever else it sets, does not change whether x can be set. */
  ghost predicate KeepsSettable(ws: Words, x: string) {
    forall w, env :: CanSet(ws(w, env).env, x) == CanSet(env, x)
  }

  lemma {:induction false} EvalSettable(ws: Words, e: Expr, env: Env, x: string)
    requires KeepsSettable(ws, x)
    ensures CanSet(Eval(ws, e, env).env, x) == CanSet(env, x)
    decreases e
  {
    hide BinArit, AssgnArit, Unary, Atoi, Deref, CanSet;
    match e
    case LitE(_) =>
    case WordE(_) =>
    case Paren(y) => EvalSettable(ws, y, env, x);
    case Un(op, post, y) =>
      if IsStep(op) {
        if NameOf(y).Some? { StoreSettable(env, NameOf(y).value, x); }
      } else {
        EvalSettable(ws, y, env, x);
      }
    case Bin(op, y, z) =>
      if IsAssign(op) {
        EvalSettable(ws, z, env, x);
        if NameOf(y).Some? { StoreSettable(Eval(ws, z, env).env, NameOf(y).value, x); }
      } else {
        EvalSettable(ws, y, env, x);
        var l := Eval(ws, y, env);
        EvalSettable(ws, z, l.env, x);
        if z.Bin? {
          EvalSettable(ws, z.left, l.env, x);
          EvalSettable(ws, z.right, l.env, x);
        }
      }
  }

  lemma StoreSettable(env: Env, y: string, x: string)
    ensures forall n, r :: Int64(n) ==> CanSet(Store(env, y, n, r).env, x) == CanSet(env, x)
  { }

  /**
   * `x op= e` is `x = x op e` for every operator and every e exactly when x reads alike both ways, or x is read-only.
   */
  lemma CompoundIff(ws: Words, x: string, env: Env)
    requires KeepsSettable(ws, x)
    ensures (forall op, y :: IsAssign(op) && op != Assgn ==>
              Eval(ws, Compound(op, x, y), env) == Eval(ws, Spelled(op, x, y), env))
            <==> ReadsAlike(env, x)
  {
    if ReadsAlike(env, x) {
      forall op, y | IsAssign(op) && op != Assgn
        ensures Eval(ws, Compound(op, x, y), env) == Eval(ws, Spelled(op, x, y), env)
      {
        CompoundSame(ws, op, x, y, env);
      }
    } else {
      CompoundDiffers(ws, x, env);
    }
  }

  lemma CompoundSame(ws: Words, op: Sym, x: string, y: Expr, env: Env)
    requires KeepsSettable(ws, x) && ReadsAlike(env, x) && IsAssign(op) && op != Assgn
    ensures Eval(ws, Compound(op, x, y), env) == Eval(ws, Spelled(op, x, y), env)
  {
    hide Eval, Deref, Atoi;
    CompoundIs(ws, op, x, y, env);
    SpelledIs(ws, op, x, y, env);
    EvalSettable(ws, y, env, x);
    var o := Eval(ws, y, env);
    if o.r.Done? && !CanSet(env, x) {
      FailsAlike(BaseOp(op), Atoi(Get(env, x)), Atoi(Deref(env, x, HOPS)), o.r.v);
    }
  }

  /** Whether an operator fails depends only on its right operand. */
  lemma FailsAlike(op: Sym, x: int, x2: int, y: int)
    requires Int64(x) && Int64(x2) && Int64(y)
    ensures BinArit(op, x, y).Fail? <==> BinArit(op, x2, y).Fail?
    ensures BinArit(op, x, y).Fail? ==> BinArit(op, x, y) == BinArit(op, x2, y)
  { }

  lemma Zero(env: Env)
    ensures Atoi(Deref(env, "0", HOPS)) == 0
  {
    assert !ValidName("0");
    assert Digits(0) == "0";
    AtoiFormat(0);
  }

  lemma CompoundDiffers(ws: Words, x: string, env: Env)
    requires !ReadsAlike(env, x)
    ensures Eval(ws, Compound(AddAssgn, x, LitE("0")), env) != Eval(ws, Spelled(AddAssgn, x, LitE("0")), env)
  {
    hide Deref, Atoi;
    Zero(env);
    CompoundIs(ws, AddAssgn, x, LitE("0"), env);
    SpelledIs(ws, AddAssgn, x, LitE("0"), env);
  }

  /** The failing input: x holds the name of y and y holds 5, where `x += 1` makes 1 of x and `x = x + 1` makes 6. */
  lemma CompoundOfName(ws: Words)
    ensures var env := Env(map["x" := "y", "y" := "5"], {}, true);
            && !ReadsAlike(env, "x")
            && Eval(ws, Compound(AddAssgn, "x", LitE("1")), env).r == Done(1)
            && Eval(ws, Spelled(AddAssgn, "x", LitE("1")), env).r == Done(6)
  {
    hide Eval, Atoi, Deref, Applied, ValidName, Digits;
    var env := Env(map["x" := "y", "y" := "5"], {}, true);
    One(env);
    EvalLit(ws, "1", env);
    CompoundIs(ws, AddAssgn, "x", LitE("1"), env);
    SpelledIs(ws, AddAssgn, "x", LitE("1"), env);
    ChainOfNames(env);
    FiveAndName();
    AppliedAdd("x", 0, 1, env);
    AppliedAdd("x", 5, 1, env);
  }

  lemma FiveAndName()
    ensures Atoi("y") == 0 && Atoi("5") == 5
  {
    hide Atoi;
    assert ValidName("y");
    NameIsZero("y");
    assert Digits(5) == "5";
    AtoiFormat(5);
  }

  lemma AppliedAdd(x: string, val: nat, n: nat, env: Env)
    requires CanSet(env, x) && val < 100 && n < 100
    ensures Applied(AddAssgn, x, val, Out(Done(n), env)).r == Done(val + n)
  {
    hide Format;
  }

  lemma ChainOfNames(env: Env)
    requires Get(env, "x") == "y" && Get(env, "y") == "5"
    ensures Deref(env, "x", HOPS) == "5"
  {
    hide Get;
    assert ValidName("x") && ValidName("y") && !ValidName("5");
    assert Deref(env, "5", HOPS - 2) == "5";
    assert Deref(env, "y", HOPS - 1) == "5";
  }

  /** Variables that are unset or hold numbers always read alike. */
  lemma NumbersReadAlike(env: Env, x: string)
    requires ValidName(x) && (Get(env, x) == "" || !ValidName(Get(env, x)))
    ensures ReadsAlike(env, x)
  {
    if Get(env, x) == "" {
      NameIsZero(x);
      assert Deref(env, x, HOPS) == x;
    } else {
      assert Deref(env, x, HOPS) == Deref(env, Get(env, x), HOPS - 1) == Get(env, x);
    }
  }

  /** Every variable is unset or holds a decimal number. */
  ghost predicate AllNumbers(env: Env) {
    forall x :: Get(env, x) == "" || Numeral(Get(env, x))
  }

  /** Evaluation keeps variables numeric, and over numeric variables compound assignment always reads as spelled out. */
  lemma {:induction false} NumbersStay(ws: Words, e: Expr, env: Env)
    requires PureWords(ws) && AllNumbers(env)
    ensures AllNumbers(Eval(ws, e, env).env)
    ensures forall x :: ValidName(x) ==> ReadsAlike(Eval(ws, e, env).env, x)
  {
    hide Eval, Format, Numeral;
    EvalFrame(ws, e, env);
    var after := Eval(ws, e, env).env;
    forall x | ValidName(x) ensures ReadsAlike(after, x) {
      if Get(after, x) != "" { NumeralNoName(Get(after, x)); }
      NumbersReadAlike(after, x);
    }
  }

  lemma NumeralNoName(s: string)
    requires Numeral(s)
    ensures !ValidName(s)
  {
    var n :| Int64(n) && s == Format(n);
    FormatNoName(n);
  }

  // ---------- the ternary ----------

  /** What C and POSIX make of a ternary: any value but 0 is true. */
  function Textbook(ws: Words, c: Expr, t: Expr, f: Expr, env: Env): Out {
    var o := Eval(ws, c, env);
    if o.r.Fail? then o else if o.r.v != 0 then Eval(ws, t, o.env) else Eval(ws, f, o.env)
  }

  /**
   * The code's ternary is the textbook one for every pair of branches exactly when the condition fails or is 0 or 1.
   */
  lemma TernaryIff(ws: Words, c: Expr, env: Env)
    ensures (forall t, f :: Eval(ws, Bin(Quest, c, Bin(Colon, t, f)), env) == Textbook(ws, c, t, f, env))
            <==> (Eval(ws, c, env).r.Fail? || Eval(ws, c, env).r.v == 0 || Eval(ws, c, env).r.v == 1)
  {
    hide Eval, Atoi, Deref;
    forall t, f { EvalTernary(ws, c, t, f, env); }
    var o := Eval(ws, c, env);
    if o.r.Done? && o.r.v != 0 && o.r.v != 1 {
      Zero(o.env);
      One(o.env);
      EvalLit(ws, "0", o.env);
      EvalLit(ws, "1", o.env);
      assert Eval(ws, Bin(Quest, c, Bin(Colon, LitE("1"), LitE("0"))), env).r == Done(0);
      assert Textbook(ws, c, LitE("1"), LitE("0"), env).r == Done(1);
    }
  }

  /** The failing input: `2 ? 1 : 0` is 0. */
  lemma TernaryOfTwo(ws: Words, env: Env)
    ensures var e := Bin(Quest, LitE("2"), Bin(Colon, LitE("1"), LitE("0")));
            Eval(ws, e, env).r == Done(0) && Textbook(ws, LitE("2"), LitE("1"), LitE("0"), env).r == Done(1)
  {
    hide Eval, Atoi, Deref;
    Zero(env);
    One(env);
    LiteralTwo(env);
    EvalLit(ws, "0", env);
    EvalLit(ws, "1", env);
    EvalLit(ws, "2", env);
    EvalTernary(ws, LitE("2"), LitE("1"), LitE("0"), env);
  }

  lemma LiteralTwo(env: Env)
    ensures Atoi(Deref(env, "2", HOPS)) == 2
  {
    assert !ValidName("2");
    assert Digits(2) == "2";
    AtoiFormat(2);
  }

  lemma EvalTernary(ws: Words, c: Expr, t: Expr, f: Expr, env: Env)
    ensures var o := Eval(ws, c, env);
            Eval(ws, Bin(Quest, c, Bin(Colon, t, f)), env)
            == if o.r.Fail? then o else if o.r.v == 1 then Eval(ws, t, o.env) else Eval(ws, f, o.env)
  { }
}

/** Which operators bind tighter, on token sequences. */
module ArithPrecedence {
  import opened Basics
  import opened ArithSyntax
  import opened ArithParse
  import opened ArithRoundTrip

  /** The left-associative operators, each set binding tighter than those before it. */
  const LADDER: seq<set<Sym>> := [
    {Comma}, {OrOr, DblCaret}, {AndAnd}, {Pipe}, {Caret}, {Amp}, {Equal, NEqual}, {Less, Greater, LEqual, GEqual},
    {Shl, Shr}, {Plus, Minus}, {Star, Slash, Perc}
  ]

  const PREFIXES: set<Sym> := {Excl, Tilde, Plus, Minus}
  const STEPS: set<Sym> := {AddAdd, SubSub}
  const ASSIGNMENTS: set<Sym> := {
    Assgn, AddAssgn, SubAssgn, MulAssgn, QuoAssgn, RemAssgn, AndAssgn, OrAssgn, XorAssgn, ShlAssgn, ShrAssgn
  }

  /** A whole token sequence is that tree. */
  predicate Means(ts: seq<Tok>, e: Expr) {
    Parse(COMMA, ts) == Got(Some(e), [])
  }

  lemma MeansTree(ts: seq<Tok>, e: Expr, l: nat)
    requires Fits(e, l) && Flat(e) == ts
    ensures Means(ts, e)
  {
    hide Parse;
    Complete(e, COMMA, []);
    assert Flat(e) + [] == ts;
  }

  lemma LowLadder(i: nat, o: Sym)
    requires i < 6 && o in LADDER[i]
    ensures BinLevel(o) == Some(if i == 0 then COMMA else i + 2)
  { }

  lemma MidLadder(i: nat, o: Sym)
    requires 6 <= i < 8 && o in LADDER[i]
    ensures BinLevel(o) == Some(i + 2)
  { }

  lemma HighLadder(i: nat, o: Sym)
    requires 8 <= i < |LADDER| && o in LADDER[i]
    ensures BinLevel(o) == Some(i + 2)
  { }

  lemma OnLadder(i: nat, o: Sym)
    requires i < |LADDER| && o in LADDER[i]
    ensures BinLevel(o) == Some(if i == 0 then COMMA else i + 2)
    ensures LeftLevel(BinLevel(o).value) && OpOf(BinLevel(o).value, o)
  {
    hide BinLevel;
    if i < 6 { LowLadder(i, o); } else if i < 8 { MidLadder(i, o); } else { HighLadder(i, o); }
  }

  lemma LitFits(a: string, l: nat)
    requires l <= VALUE
    ensures Fits(LitE(a), l)
  { }

  lemma Loosen(e: Expr, k: nat, l: nat)
    requires Fits(e, k) && l <= k
    ensures Fits(e, l)
  { }

  lemma RightFits(x: Expr, y: Expr)
    requires Fits(x, UNARY) && Fits(y, POWER)
    ensures Fits(Bin(Power, x, y), POWER)
  { }

  lemma PrefixFits(u: Sym, x: Expr)
    requires IsPrefix(u) && Fits(x, UNARY)
    ensures Fits(Un(u, false, x), UNARY)
  { }

  lemma AssignFits(op: Sym, x: string, y: Expr)
    requires IsAssign(op) && ValidName(x) && Fits(y, ASSIGN)
    ensures Fits(Bin(op, LitE(x), y), ASSIGN)
  { }

  lemma ChoiceFits(c: Expr, t: Expr, f: Expr)
    requires Fits(c, LOR) && Fits(t, COMMA) && Fits(f, TERNARY)
    ensures Fits(Choice(c, t, f), TERNARY)
  { }

  lemma Tokens(a: string, o: Sym, b: string, p: Sym, c: string)
    ensures Flat(Bin(p, Bin(o, LitE(a), LitE(b)), LitE(c))) == [Lit(a), Op(o), Lit(b), Op(p), Lit(c)]
    ensures Flat(Bin(o, LitE(a), Bin(p, LitE(b), LitE(c)))) == [Lit(a), Op(o), Lit(b), Op(p), Lit(c)]
  {
    assert Flat(Bin(o, LitE(a), LitE(b))) == [Lit(a), Op(o), Lit(b)];
    assert Flat(Bin(p, LitE(b), LitE(c))) == [Lit(b), Op(p), Lit(c)];
  }

  lemma LeftFirst(a: string, o: Sym, b: string, p: Sym, c: string, k: nat, l: nat)
    requires LeftLevel(k) && OpOf(k, o) && LeftLevel(l) && OpOf(l, p) && l <= k
    ensures Means([Lit(a), Op(o), Lit(b), Op(p), Lit(c)], Bin(p, Bin(o, LitE(a), LitE(b)), LitE(c)))
  {
    hide Means, BinLevel, Fits, Flat, OpOf;
    LitFits(a, k);
    LitFits(b, k + 1);
    LitFits(c, l + 1);
    LeftFits(o, LitE(a), LitE(b), k);
    Loosen(Bin(o, LitE(a), LitE(b)), k, l);
    LeftFits(p, Bin(o, LitE(a), LitE(b)), LitE(c), l);
    Tokens(a, o, b, p, c);
    MeansTree([Lit(a), Op(o), Lit(b), Op(p), Lit(c)], Bin(p, Bin(o, LitE(a), LitE(b)), LitE(c)), l);
  }

  lemma RightFirst(a: string, o: Sym, b: string, p: Sym, c: string, k: nat, l: nat)
    requires LeftLevel(k) && OpOf(k, o) && LeftLevel(l) && OpOf(l, p) && k < l
    ensures Means([Lit(a), Op(o), Lit(b), Op(p), Lit(c)], Bin(o, LitE(a), Bin(p, LitE(b), LitE(c))))
  {
    hide Means, BinLevel, Fits, Flat, OpOf;
    LitFits(a, k);
    LitFits(b, l);
    LitFits(c, l + 1);
    LeftFits(p, LitE(b), LitE(c), l);
    Loosen(Bin(p, LitE(b), LitE(c)), l, k + 1);
    LeftFits(o, LitE(a), Bin(p, LitE(b), LitE(c)), k);
    Tokens(a, o, b, p, c);
    MeansTree([Lit(a), Op(o), Lit(b), Op(p), Lit(c)], Bin(o, LitE(a), Bin(p, LitE(b), LitE(c))), k);
  }

  /** Of two operators the tighter one takes the middle operand, and of two equally tight ones the left. */
  lemma Precedence(a: string, b: string, c: string, i: nat, o: Sym, j: nat, p: Sym)
    requires i < |LADDER| && o in LADDER[i] && j < |LADDER| && p in LADDER[j]
    ensures Means([Lit(a), Op(o), Lit(b), Op(p), Lit(c)],
                  if i >= j then Bin(p, Bin(o, LitE(a), LitE(b)), LitE(c))
                  else Bin(o, LitE(a), Bin(p, LitE(b), LitE(c))))
  {
    hide Means, BinLevel, OpOf;
    OnLadder(i, o);
    OnLadder(j, p);
    var k, l := BinLevel(o).value, BinLevel(p).value;
    if i >= j { LeftFirst(a, o, b, p, c, k, l); } else { RightFirst(a, o, b, p, c, k, l); }
  }

  /** Exponentiation is right-associative and binds tighter than all of these, a prefix operator tighter still. */
  lemma PowerBinds(a: string, b: string, c: string, i: nat, o: Sym, u: Sym)
    requires i < |LADDER| && o in LADDER[i] && u in PREFIXES
    ensures Means([Lit(a), Op(o), Lit(b), Op(Power), Lit(c)], Bin(o, LitE(a), Bin(Power, LitE(b), LitE(c))))
    ensures Means([Lit(a), Op(Power), Lit(b), Op(o), Lit(c)], Bin(o, Bin(Power, LitE(a), LitE(b)), LitE(c)))
    ensures Means([Lit(a), Op(Power), Lit(b), Op(Power), Lit(c)], Bin(Power, LitE(a), Bin(Power, LitE(b), LitE(c))))
    ensures Means([Op(u), Lit(a), Op(Power), Lit(b)], Bin(Power, Un(u, false, LitE(a)), LitE(b)))
  {
    hide Means, BinLevel, Fits, Flat, OpOf, IsPrefix;
    PrefixesAre(u);
    OnLadder(i, o);
    var k := BinLevel(o).value;
    LitFits(a, k);
    LitFits(a, UNARY);
    LitFits(b, UNARY);
    LitFits(b, POWER);
    LitFits(c, POWER);
    LitFits(c, k + 1);
    var ab, bc := Bin(Power, LitE(a), LitE(b)), Bin(Power, LitE(b), LitE(c));
    RightFits(LitE(a), LitE(b));
    RightFits(LitE(b), LitE(c));
    Loosen(ab, POWER, k);
    Loosen(bc, POWER, k + 1);
    LeftFits(o, LitE(a), bc, k);
    LeftFits(o, ab, LitE(c), k);
    RightFits(LitE(a), bc);
    PrefixFits(u, LitE(a));
    RightFits(Un(u, false, LitE(a)), LitE(b));
    Tokens(a, o, b, Power, c);
    Tokens(a, Power, b, o, c);
    Tokens(a, Power, b, Power, c);
    PrefixTokens(u, a, b);
    MeansTree([Lit(a), Op(o), Lit(b), Op(Power), Lit(c)], Bin(o, LitE(a), bc), k);
    MeansTree([Lit(a), Op(Power), Lit(b), Op(o), Lit(c)], Bin(o, ab, LitE(c)), k);
    MeansTree([Lit(a), Op(Power), Lit(b), Op(Power), Lit(c)], Bin(Power, LitE(a), bc), POWER);
    MeansTree([Op(u), Lit(a), Op(Power), Lit(b)], Bin(Power, Un(u, false, LitE(a)), LitE(b)), POWER);
  }

  lemma PrefixesAre(u: Sym)
    ensures u in PREFIXES <==> IsPrefix(u)
  { }

  lemma AssignmentsAre(op: Sym)
    ensures op in ASSIGNMENTS <==> IsAssign(op)
  { }

  lemma PrefixTokens(u: Sym, a: string, b: string)
    ensures Flat(Bin(Power, Un(u, false, LitE(a)), LitE(b))) == [Op(u), Lit(a), Op(Power), Lit(b)]
  {
    assert Flat(Un(u, false, LitE(a))) == [Op(u), Lit(a)];
  }

  /** Assignments are right-associative and take everything but a comma. */
  lemma AssignmentBinds(x: string, y: string, b: string, c: string, i: nat, o: Sym, op: Sym, op': Sym)
    requires i < |LADDER| && o in LADDER[i] && op in ASSIGNMENTS && op' in ASSIGNMENTS && ValidName(x) && ValidName(y)
    ensures Means([Lit(x), Op(op), Lit(b), Op(o), Lit(c)],
                  if i == 0 then Bin(o, Bin(op, LitE(x), LitE(b)), LitE(c))
                  else Bin(op, LitE(x), Bin(o, LitE(b), LitE(c))))
    ensures Means([Lit(x), Op(op), Lit(y), Op(op'), Lit(c)], Bin(op, LitE(x), Bin(op', LitE(y), LitE(c))))
  {
    hide Means, BinLevel, Fits, Flat, OpOf, IsAssign, ValidName;
    AssignmentsAre(op);
    AssignmentsAre(op');
    OnLadder(i, o);
    var k := BinLevel(o).value;
    LitFits(b, ASSIGN);
    LitFits(b, k);
    LitFits(c, ASSIGN);
    LitFits(c, k + 1);
    Tokens(x, op, b, o, c);
    Tokens(x, op, y, op', c);
    if i == 0 {
      AssignFits(op, x, LitE(b));
      LeftFits(o, Bin(op, LitE(x), LitE(b)), LitE(c), COMMA);
      Loosen(Bin(op, LitE(x), LitE(b)), ASSIGN, COMMA);
      MeansTree([Lit(x), Op(op), Lit(b), Op(o), Lit(c)], Bin(o, Bin(op, LitE(x), LitE(b)), LitE(c)), COMMA);
    } else {
      LeftFits(o, LitE(b), LitE(c), k);
      Loosen(Bin(o, LitE(b), LitE(c)), k, ASSIGN);
      AssignFits(op, x, Bin(o, LitE(b), LitE(c)));
      MeansTree([Lit(x), Op(op), Lit(b), Op(o), Lit(c)], Bin(op, LitE(x), Bin(o, LitE(b), LitE(c))), ASSIGN);
    }
    AssignFits(op', y, LitE(c));
    AssignFits(op, x, Bin(op', LitE(y), LitE(c)));
    MeansTree([Lit(x), Op(op), Lit(y), Op(op'), Lit(c)], Bin(op, LitE(x), Bin(op', LitE(y), LitE(c))), ASSIGN);
  }

  /** A step before any literal or after a name is taken; after anything else it, like an assignment, is an error. */
  lemma StepBinds(a: string, b: string, st: Sym, op: Sym)
    requires st in STEPS && op in ASSIGNMENTS
    ensures Means([Op(st), Lit(a)], Un(st, false, LitE(a)))
    ensures if ValidName(a) then Means([Lit(a), Op(st)], Un(st, true, LitE(a)))
            else Parse(COMMA, [Lit(a), Op(st)]) == Bad && Parse(COMMA, [Lit(a), Op(op), Lit(b)]) == Bad
  {
    hide Means, ValidName;
    StepFits(st, a);
    MeansTree([Op(st), Lit(a)], Un(st, false, LitE(a)), VALUE);
    if ValidName(a) {
      MeansTree([Lit(a), Op(st)], Un(st, true, LitE(a)), VALUE);
    } else {
      AssignmentsAre(op);
      NoTree(a, st, []);
      NoTree(a, op, [Lit(b)]);
      assert [Lit(a), Op(st)] + [] == [Lit(a), Op(st)];
      assert [Lit(a), Op(op)] + [Lit(b)] == [Lit(a), Op(op), Lit(b)];
    }
  }

  lemma {:induction false} SomeTokens(e: Expr)
    ensures |Flat(e)| >= 1 && (e.Bin? ==> |Flat(e)| >= 3)
  {
    match e
    case LitE(_) =>
    case WordE(_) =>
    case Paren(_) =>
    case Un(_, _, _) =>
    case Bin(_, x, y) =>
      SomeTokens(x);
      SomeTokens(y);
  }

  lemma BinLeft(e: Expr)
    requires WellFormed(e) && e.Bin?
    ensures WellFormed(e.left)
  {
    hide BinLevel, IsAssign, Level;
  }

  lemma UnIs(e: Expr)
    requires WellFormed(e) && e.Un?
    ensures e.post ==> IsStep(e.op) && IsName(e.arg) && Flat(e) == [Lit(e.arg.s), Op(e.op)]
    ensures !e.post ==> Flat(e)[0] == Op(e.op)
  { }

  /** Trees of one, two and three tokens that start with a literal. */
  lemma {:induction false} SmallTrees(e: Expr)
    requires WellFormed(e) && Flat(e) != [] && Flat(e)[0].Lit?
    ensures |Flat(e)| == 1 ==> e.LitE?
    ensures |Flat(e)| == 2 ==> e.Un? && e.post && IsStep(e.op) && IsName(e.arg)
    ensures |Flat(e)| == 3 ==> e.Bin? && Flat(e)[1] == Op(e.bop) && e.left == LitE(Flat(e)[0].s)
    decreases e
  {
    hide BinLevel, IsAssign, Level, WellFormed;
    SomeTokens(e);
    match e
    case LitE(_) =>
    case WordE(_) =>
    case Paren(x) =>
    case Un(op, post, x) => UnIs(e);
    case Bin(op, x, y) =>
      BinLeft(e);
      SomeTokens(x);
      SomeTokens(y);
      assert Flat(e)[0] == Flat(x)[0];
      SmallTrees(x);
  }

  lemma NotName(e: Expr)
    requires WellFormed(e) && e.Bin? && IsAssign(e.bop)
    ensures IsName(e.left)
  { }

  /** A literal that is no name, with a step or an assignment after it. */
  lemma NoTree(a: string, y: Sym, more: seq<Tok>)
    requires !ValidName(a) && |more| <= 1 && (IsAssign(y) || (IsStep(y) && more == []))
    ensures Parse(COMMA, [Lit(a), Op(y)] + more) == Bad
  {
    hide Parse, WellFormed, ValidName, Flat;
    var ts := [Lit(a), Op(y)] + more;
    StopsOnlyAtEnd(ts);
    var r := Parse(COMMA, ts);
    if r.Got? && r.e.Some? {
      ParseThenFlat(ts);
      var e, n := r.e.value, |Flat(r.e.value)|;
      SomeTokens(e);
      assert ts[0] == Flat(e)[0] && (n == 1 ==> r.rest[0] == ts[1]) && (n == 3 ==> Flat(e)[1] == ts[1]);
      SmallTrees(e);
      AssignLevel(y);
      if n == 1 {
        LitLast(e);
      } else if n == 2 {
        PostTokens(e);
      } else {
        NotName(e);
      }
    }
  }

  lemma AssignLevel(y: Sym)
    ensures IsAssign(y) ==> BinLevel(y) == Some(ASSIGN) && !IsStep(y)
  { }

  lemma LitLast(e: Expr)
    requires e.LitE?
    ensures !LastStep(e)
  { }

  lemma PostTokens(e: Expr)
    requires e.Un? && e.post && IsName(e.arg)
    ensures Flat(e) == [Lit(e.arg.s), Op(e.op)] && ValidName(e.arg.s)
  { }

  lemma StepFits(st: Sym, a: string)
    requires st in STEPS
    ensures Fits(Un(st, false, LitE(a)), VALUE) && Flat(Un(st, false, LitE(a))) == [Op(st), Lit(a)]
    ensures ValidName(a) ==> Fits(Un(st, true, LitE(a)), VALUE)
    ensures Flat(Un(st, true, LitE(a))) == [Lit(a), Op(st)]
  {
    hide ValidName;
  }

  function Choice(c: Expr, t: Expr, f: Expr): Expr {
    Bin(Quest, c, Bin(Colon, t, f))
  }

  lemma ChoiceTokens(c: Expr, t: Expr, f: Expr)
    ensures Flat(Choice(c, t, f)) == Flat(c) + [Op(Quest)] + Flat(t) + [Op(Colon)] + Flat(f)
  {
    assert Flat(c) + [Op(Quest)] + (Flat(t) + [Op(Colon)] + Flat(f))
        == Flat(c) + [Op(Quest)] + Flat(t) + [Op(Colon)] + Flat(f);
  }

  lemma BinTokens(a: string, o: Sym, b: string)
    ensures Flat(Bin(o, LitE(a), LitE(b))) == [Lit(a), Op(o), Lit(b)]
    ensures Flat(LitE(a)) == [Lit(a)] && Flat(LitE(b)) == [Lit(b)]
  { }

  /** A ternary takes any operator but a comma into its condition and its last branch, and nests to the right. */
  lemma TernaryBinds(a: string, b: string, c: string, d: string, e: string, i: nat, o: Sym)
    requires 0 < i < |LADDER| && o in LADDER[i]
    ensures Means([Lit(a), Op(o), Lit(b), Op(Quest), Lit(c), Op(Colon), Lit(d), Op(o), Lit(e)],
                  Choice(Bin(o, LitE(a), LitE(b)), LitE(c), Bin(o, LitE(d), LitE(e))))
    ensures Means([Lit(a), Op(Quest), Lit(b), Op(Comma), Lit(c), Op(Colon), Lit(d), Op(Comma), Lit(e)],
                  Bin(Comma, Choice(LitE(a), Bin(Comma, LitE(b), LitE(c)), LitE(d)), LitE(e)))
    ensures Means([Lit(a), Op(Quest), Lit(b), Op(Colon), Lit(c), Op(Quest), Lit(d), Op(Colon), Lit(e)],
                  Choice(LitE(a), LitE(b), Choice(LitE(c), LitE(d), LitE(e))))
  {
    hide Means, Choice;
    TernaryOver(a, b, c, d, e, i, o);
    TernaryCommas(a, b, c, d, e);
    TernaryNests(a, b, c, d, e);
  }

  /** An operator on two literals, as a condition or a last branch. */
  lemma SideFits(a: string, o: Sym, b: string, i: nat)
    requires 0 < i < |LADDER| && o in LADDER[i]
    ensures Fits(Bin(o, LitE(a), LitE(b)), LOR) && Fits(Bin(o, LitE(a), LitE(b)), TERNARY)
  {
    hide BinLevel, Fits, Flat, OpOf;
    OnLadder(i, o);
    var k := BinLevel(o).value;
    LitFits(a, k);
    LitFits(b, k + 1);
    LeftFits(o, LitE(a), LitE(b), k);
    Loosen(Bin(o, LitE(a), LitE(b)), k, LOR);
    Loosen(Bin(o, LitE(a), LitE(b)), k, TERNARY);
  }

  lemma ChoiceMeans(c: Expr, t: Expr, f: Expr)
    requires Fits(c, LOR) && Fits(t, COMMA) && Fits(f, TERNARY)
    ensures Means(Flat(c) + [Op(Quest)] + Flat(t) + [Op(Colon)] + Flat(f), Choice(c, t, f))
  {
    hide Means, Choice, Fits, Flat;
    ChoiceFits(c, t, f);
    ChoiceTokens(c, t, f);
    MeansTree(Flat(Choice(c, t, f)), Choice(c, t, f), TERNARY);
  }

  lemma TernaryOver(a: string, b: string, c: string, d: string, e: string, i: nat, o: Sym)
    requires 0 < i < |LADDER| && o in LADDER[i]
    ensures Means([Lit(a), Op(o), Lit(b), Op(Quest), Lit(c), Op(Colon), Lit(d), Op(o), Lit(e)],
                  Choice(Bin(o, LitE(a), LitE(b)), LitE(c), Bin(o, LitE(d), LitE(e))))
  {
    hide Means, Choice, Fits, Flat, BinLevel;
    SideFits(a, o, b, i);
    LitFits(c, COMMA);
    SideFits(d, o, e, i);
    ChoiceMeans(Bin(o, LitE(a), LitE(b)), LitE(c), Bin(o, LitE(d), LitE(e)));
    BinTokens(a, o, b);
    BinTokens(d, o, e);
    BinTokens(c, o, c);
    assert [Lit(a), Op(o), Lit(b)] + [Op(Quest)] + [Lit(c)] + [Op(Colon)] + [Lit(d), Op(o), Lit(e)]
        == [Lit(a), Op(o), Lit(b), Op(Quest), Lit(c), Op(Colon), Lit(d), Op(o), Lit(e)];
  }

  lemma TernaryCommas(a: string, b: string, c: string, d: string, e: string)
    ensures Means([Lit(a), Op(Quest), Lit(b), Op(Comma), Lit(c), Op(Colon), Lit(d), Op(Comma), Lit(e)],
                  Bin(Comma, Choice(LitE(a), Bin(Comma, LitE(b), LitE(c)), LitE(d)), LitE(e)))
  {
    hide Means, Choice, BinLevel, Fits, Flat, OpOf;
    OnLadder(0, Comma);
    LitFits(a, LOR);
    LitFits(b, COMMA);
    LitFits(c, ASSIGN);
    LitFits(d, TERNARY);
    LitFits(e, ASSIGN);
    var t := Choice(LitE(a), Bin(Comma, LitE(b), LitE(c)), LitE(d));
    LeftFits(Comma, LitE(b), LitE(c), COMMA);
    ChoiceFits(LitE(a), Bin(Comma, LitE(b), LitE(c)), LitE(d));
    Loosen(t, TERNARY, COMMA);
    LeftFits(Comma, t, LitE(e), COMMA);
    ChoiceTokens(LitE(a), Bin(Comma, LitE(b), LitE(c)), LitE(d));
    BinTokens(b, Comma, c);
    BinTokens(a, Comma, d);
    BinTokens(e, Comma, e);
    JoinTokens(Comma, t, LitE(e));
    MeansTree([Lit(a), Op(Quest), Lit(b), Op(Comma), Lit(c), Op(Colon), Lit(d), Op(Comma), Lit(e)],
              Bin(Comma, t, LitE(e)), COMMA);
  }

  lemma JoinTokens(o: Sym, x: Expr, y: Expr)
    ensures Flat(Bin(o, x, y)) == Flat(x) + [Op(o)] + Flat(y)
  { }

  lemma TernaryNests(a: string, b: string, c: string, d: string, e: string)
    ensures Means([Lit(a), Op(Quest), Lit(b), Op(Colon), Lit(c), Op(Quest), Lit(d), Op(Colon), Lit(e)],
                  Choice(LitE(a), LitE(b), Choice(LitE(c), LitE(d), LitE(e))))
  {
    hide Means, Choice, Fits, Flat;
    LitFits(a, LOR);
    LitFits(b, COMMA);
    LitFits(c, LOR);
    LitFits(d, COMMA);
    LitFits(e, TERNARY);
    var f := Choice(LitE(c), LitE(d), LitE(e));
    ChoiceFits(LitE(c), LitE(d), LitE(e));
    ChoiceFits(LitE(a), LitE(b), f);
    ChoiceTokens(LitE(c), LitE(d), LitE(e));
    ChoiceTokens(LitE(a), LitE(b), f);
    BinTokens(a, Comma, b);
    BinTokens(c, Comma, d);
    BinTokens(e, Comma, e);
    MeansTree([Lit(a), Op(Quest), Lit(b), Op(Colon), Lit(c), Op(Quest), Lit(d), Op(Colon), Lit(e)],
              Choice(LitE(a), LitE(b), f), TERNARY);
  }
}

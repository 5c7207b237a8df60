/** Tokens and trees of arithmetic expressions, and the grammar as levels of binding. */
module ArithSyntax {
  import opened Basics

  datatype Sym =
    | Comma
    | Assgn | AddAssgn | SubAssgn | MulAssgn | QuoAssgn | RemAssgn | AndAssgn | OrAssgn | XorAssgn | ShlAssgn | ShrAssgn
    | Quest | Colon
    | OrOr | DblCaret | AndAnd | Pipe | Caret | Amp
    | Equal | NEqual | Less | Greater | LEqual | GEqual | Shl | Shr
    | Plus | Minus | Star | Slash | Perc | Power
    | Excl | Tilde | AddAdd | SubSub
    | LParen | RParen | Other

  /** `Lit` is a literal word on its own; `Word` stands for any other word (a quoted or expanded one). */
  datatype Tok = Lit(s: string) | Word(w: nat) | Op(y: Sym) | Newl

  datatype Expr =
    | LitE(s: string)
    | WordE(w: nat)
    | Paren(x: Expr)
    | Un(op: Sym, post: bool, arg: Expr)
    | Bin(bop: Sym, left: Expr, right: Expr)

  predicate NameStart(c: char) {
    'a' <= c <= 'z' || 'A' <= c <= 'Z' || c == '_'
  }

  predicate ValidName(s: string) {
    s != "" && NameStart(s[0]) && forall i :: 1 <= i < |s| ==> NameStart(s[i]) || '0' <= s[i] <= '9'
  }

  /** isArithName */
  predicate IsName(e: Expr) {
    e.LitE? && ValidName(e.s)
  }

  predicate IsAssign(y: Sym) {
    || y.Assgn? || y.AddAssgn? || y.SubAssgn? || y.MulAssgn? || y.QuoAssgn? || y.RemAssgn?
    || y.AndAssgn? || y.OrAssgn? || y.XorAssgn? || y.ShlAssgn? || y.ShrAssgn?
  }

  predicate IsPrefix(y: Sym) {
    y == Excl || y == Tilde || y == Plus || y == Minus
  }

  predicate IsStep(y: Sym) {
    y == AddAdd || y == SubSub
  }

  // Binding levels, loosest first: comma, assignment, ternary, then ten left-associative ones, power, unary, value.
  const COMMA: nat := 0
  const ASSIGN: nat := 1
  const TERNARY: nat := 2
  const LOR: nat := 3
  const POWER: nat := 13
  const UNARY: nat := 14
  const VALUE: nat := 15

  /** The level of a binary operator; None for what is not one. */
  function BinLevel(y: Sym): (l: Option<nat>)
    ensures l.Some? ==> l.value < UNARY
  {
    if y == Comma then Some(COMMA)
    else if IsAssign(y) then Some(ASSIGN)
    else if y == Quest then Some(TERNARY)
    else match y
      case OrOr => Some(3)
      case DblCaret => Some(3)
      case AndAnd => Some(4)
      case Pipe => Some(5)
      case Caret => Some(6)
      case Amp => Some(7)
      case Equal => Some(8)
      case NEqual => Some(8)
      case Less => Some(9)
      case Greater => Some(9)
      case LEqual => Some(9)
      case GEqual => Some(9)
      case Shl => Some(10)
      case Shr => Some(10)
      case Plus => Some(11)
      case Minus => Some(11)
      case Star => Some(12)
      case Slash => Some(12)
      case Perc => Some(12)
      case Power => Some(POWER)
      case _ => None
  }

  /** The levels arithmExprBinary parses: left-associative. */
  predicate LeftLevel(l: nat) {
    l == COMMA || LOR <= l < POWER
  }

  predicate OpOf(l: nat, y: Sym) {
    BinLevel(y) == Some(l)
  }

  // ---------- the grammar ----------

  /** The loosest level a tree needs no parentheses at. */
  function Level(e: Expr): (l: nat)
    ensures l <= VALUE
  {
    match e
    case LitE(_) => VALUE
    case WordE(_) => VALUE
    case Paren(_) => VALUE
    case Un(op, post, _) => if IsPrefix(op) then UNARY else VALUE
    case Bin(op, _, _) => if BinLevel(op).Some? then BinLevel(op).value else COMMA
  }

  /** The tree as it stands can be written down without further parentheses. */
  predicate WellFormed(e: Expr) {
    match e
    case LitE(_) => true
    case WordE(_) => true
    case Paren(x) => WellFormed(x)
    case Un(op, post, x) =>
      if IsPrefix(op) then !post && WellFormed(x) && Level(x) >= UNARY
      else if IsStep(op) then (if post then IsName(x) else StepOperand(x))
      else false
    case Bin(op, x, y) =>
      if IsAssign(op) then IsName(x) && WellFormed(y) && Level(y) >= ASSIGN
      else if op == Quest then
        && WellFormed(x) && Level(x) >= LOR
        && y.Bin? && y.bop == Colon
        && WellFormed(y.left) && WellFormed(y.right) && Level(y.right) >= TERNARY
      else if op == Power then WellFormed(x) && Level(x) >= UNARY && WellFormed(y) && Level(y) >= POWER
      else
        && BinLevel(op).Some?
        && WellFormed(x) && Level(x) >= BinLevel(op).value
        && WellFormed(y) && Level(y) > BinLevel(op).value
  }

  /** What may follow a prefix ++ or --: a literal, possibly a name with its own postfix ++ or --. */
  predicate StepOperand(x: Expr) {
    x.LitE? || (x.Un? && x.post && IsStep(x.op) && IsName(x.arg))
  }

  predicate Fits(e: Expr, l: nat) {
    WellFormed(e) && Level(e) >= l
  }

  /** The tree's tokens, left to right. */
  function Flat(e: Expr): (ts: seq<Tok>)
  {
    match e
    case LitE(s) => [Lit(s)]
    case WordE(w) => [Word(w)]
    case Paren(x) => [Op(LParen)] + Flat(x) + [Op(RParen)]
    case Un(op, post, x) => if post then Flat(x) + [Op(op)] else [Op(op)] + Flat(x)
    case Bin(op, x, y) => Flat(x) + [Op(op)] + Flat(y)
  }

  /** The tree without its parentheses. */
  function Strip(e: Expr): Expr {
    match e
    case LitE(_) => e
    case WordE(_) => e
    case Paren(x) => Strip(x)
    case Un(op, post, x) => Un(op, post, Strip(x))
    case Bin(op, x, y) => Bin(op, Strip(x), Strip(y))
  }

  // ---------- adding the parentheses a tree needs ----------

  /** Any tree the parser could mean, parentheses aside. */
  predicate Sane(e: Expr) {
    match e
    case LitE(_) => true
    case WordE(_) => true
    case Paren(x) => Sane(x)
    case Un(op, post, x) =>
      if IsPrefix(op) then !post && Sane(x) else IsStep(op) && if post then IsName(x) else StepOperand(x)
    case Bin(op, x, y) =>
      if IsAssign(op) then IsName(x) && Sane(y)
      else if op == Quest then Sane(x) && y.Bin? && y.bop == Colon && Sane(y.left) && Sane(y.right)
      else BinLevel(op).Some? && Sane(x) && Sane(y)
  }

  function Wrap(e: Expr, l: nat): Expr {
    if Level(e) >= l then e else Paren(e)
  }

  /** The tree with parentheses exactly where the grammar needs them to put it at level l. */
  function Fix(e: Expr, l: nat): Expr
    requires Sane(e)
    decreases e
  {
    match e
    case LitE(_) => e
    case WordE(_) => e
    case Paren(x) => Paren(Fix(x, COMMA))
    case Un(op, post, x) => if IsPrefix(op) then Wrap(Un(op, false, Fix(x, UNARY)), l) else e
    case Bin(op, x, y) =>
      if IsAssign(op) then Wrap(Bin(op, x, Fix(y, ASSIGN)), l)
      else if op == Quest then Wrap(Bin(op, Fix(x, LOR), Bin(Colon, Fix(y.left, COMMA), Fix(y.right, TERNARY))), l)
      else if op == Power then Wrap(Bin(op, Fix(x, UNARY), Fix(y, POWER)), l)
      else Wrap(Bin(op, Fix(x, BinLevel(op).value), Fix(y, BinLevel(op).value + 1)), l)
  }

  ghost predicate Fixed(e: Expr, l: nat)
    requires Sane(e)
  {
    var f := Fix(e, l);
    Fits(f, l) && Strip(f) == Strip(e) && Sane(f) && (Fits(e, l) ==> f == e)
  }

  lemma Wrapped(e: Expr, l: nat)
    requires WellFormed(e) && l <= VALUE
    ensures Fits(Wrap(e, l), l) && Strip(Wrap(e, l)) == Strip(e) && (Sane(e) ==> Sane(Wrap(e, l)))
    ensures Level(e) >= l ==> Wrap(e, l) == e
  { }

  lemma FixAssign(e: Expr, l: nat)
    requires Sane(e) && l <= VALUE && e.Bin? && IsAssign(e.bop) && Fixed(e.right, ASSIGN)
    ensures Fixed(e, l)
  {
    Wrapped(Bin(e.bop, e.left, Fix(e.right, ASSIGN)), l);
  }

  lemma FixTernary(e: Expr, l: nat)
    requires Sane(e) && l <= VALUE && e.Bin? && e.bop == Quest
    requires Fixed(e.left, LOR) && Fixed(e.right.left, COMMA) && Fixed(e.right.right, TERNARY)
    ensures Fixed(e, l)
  {
    var f := Bin(e.bop, Fix(e.left, LOR), Bin(Colon, Fix(e.right.left, COMMA), Fix(e.right.right, TERNARY)));
    assert WellFormed(f) && Sane(f) && Strip(f) == Strip(e);
    Wrapped(f, l);
  }

  lemma FixPower(e: Expr, l: nat)
    requires Sane(e) && l <= VALUE && e.Bin? && e.bop == Power && Fixed(e.left, UNARY) && Fixed(e.right, POWER)
    ensures Fixed(e, l)
  {
    Wrapped(Bin(e.bop, Fix(e.left, UNARY), Fix(e.right, POWER)), l);
  }

  lemma FixLeft(op: Sym, x: Expr, y: Expr, k: nat, l: nat)
    requires BinLevel(op) == Some(k) && LeftLevel(k) && l <= VALUE && Sane(x) && Sane(y) && Fixed(x, k)
              && Fixed(y, k + 1)
    ensures Sane(Bin(op, x, y)) && Fixed(Bin(op, x, y), l)
  {
    LeftTree(op, x, y, k, l);
    LeftTree(op, Fix(x, k), Fix(y, k + 1), k, l);
    Wrapped(Bin(op, Fix(x, k), Fix(y, k + 1)), l);
  }

  lemma LeftTree(op: Sym, x: Expr, y: Expr, k: nat, l: nat)
    requires BinLevel(op) == Some(k) && LeftLevel(k) && Sane(x) && Sane(y)
    ensures WellFormed(Bin(op, x, y)) <==> Fits(x, k) && Fits(y, k + 1)
    ensures Sane(Bin(op, x, y)) && Fix(Bin(op, x, y), l) == Wrap(Bin(op, Fix(x, k), Fix(y, k + 1)), l)
    ensures Level(Bin(op, x, y)) == k
  { }

  lemma FixUnary(e: Expr, l: nat)
    requires Sane(e) && l <= VALUE && e.Un? && (IsPrefix(e.op) ==> Fixed(e.arg, UNARY))
    ensures Fixed(e, l)
  {
    if IsPrefix(e.op) { Wrapped(Un(e.op, false, Fix(e.arg, UNARY)), l); }
  }

  /** The fixed tree is grammatical, is the same tree, and nothing was added to a tree that needed nothing. */
  lemma {:induction false} FixFits(e: Expr, l: nat)
    requires Sane(e) && l <= VALUE
    ensures Fits(Fix(e, l), l) && Strip(Fix(e, l)) == Strip(e) && Sane(Fix(e, l))
    ensures Fits(e, l) ==> Fix(e, l) == e
    decreases e
  {
    FixedAll(e, l);
  }

  lemma {:induction false} FixedAll(e: Expr, l: nat)
    requires Sane(e) && l <= VALUE
    ensures Fixed(e, l)
    decreases e
  {
    hide Fix, Fits, Strip, Fixed;
    match e
    case LitE(_) => FixLeaf(e, l);
    case WordE(_) => FixLeaf(e, l);
    case Paren(x) =>
      FixedAll(x, COMMA);
      FixParen(e, l);
    case Un(op, post, x) =>
      if IsPrefix(op) { FixedAll(x, UNARY); }
      FixUnary(e, l);
    case Bin(op, x, y) =>
      if IsAssign(op) {
        FixedAll(y, ASSIGN);
        FixAssign(e, l);
      } else if op == Quest {
        FixedAll(x, LOR);
        FixedAll(y.left, COMMA);
        FixedAll(y.right, TERNARY);
        FixTernary(e, l);
      } else if op == Power {
        FixedAll(x, UNARY);
        FixedAll(y, POWER);
        FixPower(e, l);
      } else {
        FixedAll(x, BinLevel(op).value);
        FixedAll(y, BinLevel(op).value + 1);
        FixLeft(op, x, y, BinLevel(op).value, l);
      }
  }

  lemma FixLeaf(e: Expr, l: nat)
    requires (e.LitE? || e.WordE?) && l <= VALUE
    ensures Fixed(e, l)
  { }

  lemma FixParen(e: Expr, l: nat)
    requires e.Paren? && Sane(e) && l <= VALUE && Fixed(e.x, COMMA)
    ensures Fixed(e, l)
  { }
}

/** Quote, and reading its output back: the shell's word syntax and the expansions quoting is meant to prevent. */
module Quoting {
  import opened Basics
  import opened Utf8

  datatype Lang = Bash | Posix | Mksh

  /** unicode.IsPrint */
  type Print = int -> bool

  const SQ: Byte := 39
  const DQ: Byte := 34
  const BS: Byte := 92
  const DOLLAR: Byte := 36
  const BQ: Byte := 96

  function Text(s: Bytes): string {
    seq(|s|, i requires 0 <= i < |s| => s[i] as char)
  }

  const KEYWORDS: set<string> := {
    "!", "[[", "]]", "case", "coproc", "do", "done", "else", "esac", "fi", "for", "function", "if", "in", "select",
    "then", "time", "until", "while", "{", "}"}

  predicate IsKeyword(s: Bytes) {
    Text(s) in KEYWORDS
  }

  /**
   * The words that are no plain words at the start of a command: those gotStmtPipe has a case for in the language, and
   * "else", at which the statements of an `if` end.
   */
  function Reserved(lang: Lang): set<string> {
    {"{", "if", "while", "until", "for", "case", "}", "then", "elif", "else", "fi", "do", "done", "esac", "!"}
    + (if lang == Posix then {}
       else {"[[", "]]", "let", "function", "local", "export", "readonly", "typeset", "nameref", "time", "select"})
    + (if lang == Bash then {"declare", "coproc"} else {})
  }

  predicate IsReserved(lang: Lang, s: Bytes) {
    Text(s) in Reserved(lang)
  }

  /** Those that IsKeyword does not know. */
  function Unlisted(lang: Lang): set<string> {
    {"elif"}
    + (if lang == Posix then {} else {"let", "local", "export", "readonly", "typeset", "nameref"})
    + (if lang == Bash then {"declare"} else {})
  }

  /** Characters the lexer ends a plain word at, or treats as the start of something else. */
  predicate Lexical(c: int) {
    || c == ';' as int || c == DQ || c == SQ || c == '(' as int || c == ')' as int || c == DOLLAR || c == '|' as int
    || c == '&' as int || c == '>' as int || c == '<' as int || c == BQ || c == ' ' as int || c == '\t' as int
    || c == '\r' as int || c == '\n' as int || c == BS
  }

  /** Characters that make a plain word a comment, a brace or tilde expansion, a glob or an assignment. */
  predicate Expansive(c: int) {
    || c == '#' as int || c == '{' as int || c == '~' as int || c == '*' as int || c == '?' as int || c == '[' as int
    || c == '=' as int
  }

  predicate ShellChar(c: int) {
    Lexical(c) || Expansive(c)
  }

  // ---------- Quote ----------

  datatype Problem = NullByte | NoEscapes | TooWide
  datatype Quoted = Done(q: Bytes) | Refused(offset: nat, why: Problem)

  predicate Plain(pr: Print, r: int) {
    pr(r) && r != RUNE_ERROR
  }

  datatype Survey = Seen(shell: bool, odd: bool) | Stop(offset: nat, why: Problem)

  /** The first loop of Quote: what kinds of characters there are, or the first that cannot be quoted. */
  function Look(s: Bytes, lang: Lang, pr: Print, offs: nat): Survey
    decreases |s|
  {
    if s == [] then Seen(false, false)
    else
      var d := Decode(s);
      if d.r == 0 then Stop(offs, NullByte)
      else if !Plain(pr, d.r) && lang == Posix then Stop(offs, NoEscapes)
      else match Look(s[d.size..], lang, pr, offs + d.size)
        case Seen(shell, odd) => Seen(ShellChar(d.r) || shell, !Plain(pr, d.r) || odd)
        case stop => stop
  }

  function HexDigit(d: int): Byte
    requires 0 <= d < 16
  {
    if d < 10 then '0' as int + d else 'a' as int + d - 10
  }

  /** The last k hexadecimal digits, as %0kx prints them. */
  function Hex(n: nat, k: nat): (s: Bytes)
    ensures |s| == k
  {
    if k == 0 then [] else Hex(n / 16, k - 1) + [HexDigit(n % 16)]
  }

  predicate IsHex(c: int) {
    '0' as int <= c <= '9' as int || 'a' as int <= c <= 'f' as int || 'A' as int <= c <= 'F' as int
  }

  /** The letter a control character is escaped with. */
  function Letter(r: int): Option<Byte> {
    if r == 7 then Some('a' as int)
    else if r == 8 then Some('b' as int)
    else if r == 12 then Some('f' as int)
    else if r == 10 then Some('n' as int)
    else if r == 13 then Some('r' as int)
    else if r == 9 then Some('t' as int)
    else if r == 11 then Some('v' as int)
    else None
  }

  /** The rune is written as a two-digit escape of its first byte. */
  predicate ByByte(s: Bytes, pr: Print)
    requires s != []
  {
    var d := Decode(s);
    d.r != SQ && d.r != BS && !Plain(pr, d.r) && Letter(d.r).None? && (d.r < RUNE_SELF || Bad(d))
  }

  /** What the first rune of s becomes inside $'...'. */
  function Escape(s: Bytes, pr: Print): Bytes
    requires s != []
  {
    var d := Decode(s);
    if d.r == SQ || d.r == BS then [BS] + Encode(d.r)
    else if Plain(pr, d.r) then Encode(d.r)
    else if Letter(d.r).Some? then [BS, Letter(d.r).value]
    else if ByByte(s, pr) then [BS, 'x' as int] + Hex(s[0], 2)
    else if d.r < 0x10000 then [BS, 'u' as int] + Hex(d.r, 4)
    else [BS, 'U' as int] + Hex(d.r, 8)
  }

  /** mksh would let a two-digit escape go on into a hexadecimal character, so the quotes are reopened before one. */
  predicate Reopens(s: Bytes, pr: Print, last: bool)
    requires s != []
  {
    last && Plain(pr, Decode(s).r) && IsHex(Decode(s).r)
  }

  const REOPEN: Bytes := [SQ, DOLLAR, SQ]

  function Ansi(s: Bytes, lang: Lang, pr: Print, last: bool): Bytes
    decreases |s|
  {
    if s == [] then []
    else
      (if Reopens(s, pr, last) then REOPEN else []) + Escape(s, pr)
      + Ansi(s[Decode(s).size..], lang, pr, lang == Mksh && ByByte(s, pr))
  }

  /** Where mksh cannot escape a code point. */
  function Wide(s: Bytes, pr: Print, offs: nat): Option<nat>
    decreases |s|
  {
    if s == [] then None
    else
      var d := Decode(s);
      if !Plain(pr, d.r) && d.r > 0xFFFD then Some(offs) else Wide(s[d.size..], pr, offs + d.size)
  }

  predicate InDouble(c: int) {
    c == DQ || c == BS || c == BQ || c == DOLLAR
  }

  function Dbl(s: Bytes): Bytes
    decreases |s|
  {
    if s == [] then []
    else
      var d := Decode(s);
      (if InDouble(d.r) then [BS] else []) + Encode(d.r) + Dbl(s[d.size..])
  }

  function Quote(s: Bytes, lang: Lang, pr: Print): Quoted {
    if s == [] then Done([SQ, SQ])
    else match Look(s, lang, pr, 0)
      case Stop(offset, why) => Refused(offset, why)
      case Seen(shell, odd) =>
        if !shell && !odd && !IsKeyword(s) then Done(s)
        else if odd then
          if lang == Mksh && Wide(s, pr, 0).Some? then Refused(Wide(s, pr, 0).value, TooWide)
          else Done([DOLLAR, SQ] + Ansi(s, lang, pr, false) + [SQ])
        else if SQ !in s then Done([SQ] + s + [SQ])
        else Done([DQ] + Dbl(s) + [DQ])
  }

  // ---------- reading a word back ----------

  datatype Taken = Taken(body: Bytes, rest: Bytes)

  function Prepend(p: Bytes, t: Option<Taken>): Option<Taken> {
    if t.None? then None else Some(Taken(p + t.value.body, t.value.rest))
  }

  /** Up to the closing single quote. */
  function TakeSingle(q: Bytes): (t: Option<Taken>)
    ensures t.Some? ==> |t.value.rest| < |q|
  {
    if q == [] then None
    else if q[0] == SQ then Some(Taken([], q[1..]))
    else Prepend([q[0]], TakeSingle(q[1..]))
  }

  /** Up to the closing single quote of $'...', where a backslash hides the next character. */
  function TakeDollar(q: Bytes): (t: Option<Taken>)
    ensures t.Some? ==> |t.value.rest| < |q|
    decreases |q|
  {
    if q == [] then None
    else if q[0] == SQ then Some(Taken([], q[1..]))
    else if q[0] != BS then Prepend([q[0]], TakeDollar(q[1..]))
    else if |q| == 1 then None
    else Prepend([q[0], q[1]], TakeDollar(q[2..]))
  }

  /** Up to the closing double quote; None as well for the expansions that may stand inside. */
  function TakeDouble(q: Bytes): (t: Option<Taken>)
    ensures t.Some? ==> |t.value.rest| < |q|
    decreases |q|
  {
    if q == [] || q[0] == DOLLAR || q[0] == BQ then None
    else if q[0] == DQ then Some(Taken([], q[1..]))
    else if q[0] != BS then Prepend([q[0]], TakeDouble(q[1..]))
    else if |q| == 1 then None
    else Prepend([q[0], q[1]], TakeDouble(q[2..]))
  }

  /** A run of unquoted characters. */
  function TakeBare(q: Bytes): (t: Taken)
    ensures |t.rest| <= |q| && t.body + t.rest == q
  {
    if q == [] || Lexical(q[0]) then Taken([], q)
    else var t := TakeBare(q[1..]); Taken([q[0]] + t.body, t.rest)
  }

  /** wordField on a literal inside double quotes: a backslash before a special character goes. */
  function Undouble(s: Bytes): Bytes
    decreases |s|
  {
    if s == [] then []
    else if s[0] == BS && |s| > 1 && InDouble(s[1]) then [s[1]] + Undouble(s[2..])
    else [s[0]] + Undouble(s[1..])
  }

  /** strings.Cut at the first null byte */
  function Cut(s: Bytes): Bytes {
    if s == [] || s[0] == 0 then [] else [s[0]] + Cut(s[1..])
  }

  // ---------- formatInto without arguments: escape sequences ----------

  predicate DigitFor(c: Byte, hex: bool) {
    '0' as int <= c <= '9' as int || (hex && IsHex(c))
  }

  /** readDigits */
  function ReadDigits(f: Bytes, max: nat, hex: bool): (ds: Bytes)
    ensures |ds| <= |f| && |ds| <= max && f[..|ds|] == ds && forall i :: 0 <= i < |ds| ==> DigitFor(ds[i], hex)
    ensures |ds| == max || |ds| == |f| || !DigitFor(f[|ds|], hex)
    decreases max
  {
    if max == 0 || f == [] || !DigitFor(f[0], hex) then [] else [f[0]] + ReadDigits(f[1..], max - 1, hex)
  }

  /** The readDigits limit of an octal or of a hexadecimal escape. */
  function HexMax(c: Byte): nat {
    if c == 'u' as int then 4 else if c == 'U' as int then 8 else 2
  }

  predicate HexLetter(c: Byte) {
    c == 'x' as int || c == 'u' as int || c == 'U' as int
  }

  /**
   * strconv.ParseUint(digits, 8, 8) with its error ignored: a digit past 7 gives 0, overflow 255, whichever is met
   * first.
   */
  function Octal(ds: Bytes, n: int): Byte
    requires 0 <= n < 256 && forall i :: 0 <= i < |ds| ==> DigitFor(ds[i], false)
  {
    if ds == [] then n
    else
      var d: int := ds[0] as int - '0' as int;
      assert DigitFor(ds[0], false);
      if d >= 8 then 0 else if n * 8 + d > 255 then 255 else Octal(ds[1..], n * 8 + d)
  }

  function HexValue(c: Byte): int
    requires IsHex(c)
  {
    if c <= '9' as int then c - '0' as int else if c >= 'a' as int then c - 'a' as int + 10 else c - 'A' as int + 10
  }

  function ParseHex(ds: Bytes): int
    requires forall i :: 0 <= i < |ds| ==> IsHex(ds[i])
  {
    if ds == [] then 0 else ParseHex(ds[..|ds| - 1]) * 16 + HexValue(ds[|ds| - 1])
  }

  /** The byte a one-letter escape stands for. */
  function Simple(c: Byte): Option<Byte> {
    if c == 'a' as int then Some(7)
    else if c == 'b' as int then Some(8)
    else if c == 'e' as int || c == 'E' as int then Some(27)
    else if c == 'f' as int then Some(12)
    else if c == 'n' as int then Some(10)
    else if c == 'r' as int then Some(13)
    else if c == 't' as int then Some(9)
    else if c == 'v' as int then Some(11)
    else if c == BS || c == SQ || c == DQ || c == '?' as int then Some(c)
    else None
  }

  predicate OctalDigit(c: Byte) {
    '0' as int <= c <= '7' as int
  }

  /** What a hexadecimal escape writes: a byte for \x, a rune otherwise. */
  function HexWrites(c: Byte, n: int): Bytes {
    if c == 'x' as int then [n % 256] else Encode(n)
  }

  function Fmt(f: Bytes): Bytes
    decreases |f|
  {
    if f == [] then []
    else if f[0] != BS then [f[0]] + Fmt(f[1..])
    else if |f| == 1 then [BS]
    else
      var c := f[1];
      if Simple(c).Some? then [Simple(c).value] + Fmt(f[2..])
      else if OctalDigit(c) then
        var ds := ReadDigits(f[1..], 3, false);
        assert |ds| > 0;
        [Octal(ds, 0)] + Fmt(f[1 + |ds|..])
      else
        var ds := if HexLetter(c) then ReadDigits(f[2..], HexMax(c), true) else [];
        if ds != [] then HexWrites(c, ParseHex(ds)) + Fmt(f[2 + |ds|..]) else [BS, c] + Fmt(f[2..])
  }

  // ---------- a whole word ----------

  function Cat(p: Bytes, v: Option<Bytes>): Option<Bytes> {
    if v.None? then None else Some(p + v.value)
  }

  /** The word's text after quote removal; None for syntax or expansions this reader does not cover. */
  function Word(q: Bytes): Option<Bytes>
    decreases |q|
  {
    if q == [] then Some([])
    else if q[0] == SQ then
      var t := TakeSingle(q[1..]);
      if t.None? then None else Cat(t.value.body, Word(t.value.rest))
    else if q[0] == DOLLAR && |q| > 1 && q[1] == SQ then
      var t := TakeDollar(q[2..]);
      if t.None? then None else Cat(Cut(Fmt(t.value.body)), Word(t.value.rest))
    else if q[0] == DQ then
      var t := TakeDouble(q[1..]);
      if t.None? then None else Cat(Undouble(t.value.body), Word(t.value.rest))
    else
      var t := TakeBare(q);
      if t.body == [] || exists i :: 0 <= i < |t.body| && Expansive(t.body[i]) then None else Cat(t.body, Word(t.rest))
  }

  /** No control characters: those are newlines, or what the lexer drops or joins before it looks. */
  predicate NoControls(q: Bytes) {
    forall i :: 0 <= i < |q| ==> q[i] >= 32 && q[i] != 127
  }

  /** The one string a word expands to as an argument: no word at all or broken UTF-8 gives none. */
  function Expand(q: Bytes): Option<Bytes> {
    if q == [] || !NoControls(q) || !Valid(q) then None else Word(q)
  }

  /** The same at the start of a command, where a reserved word is no plain word. */
  function ExpandFirst(lang: Lang, q: Bytes): Option<Bytes> {
    if IsReserved(lang, q) then None else Expand(q)
  }
}

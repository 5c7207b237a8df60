/** What Regexp, HasMeta and QuoteMeta make of every pattern's bytes. */
module GlobLaws {
  import opened Basics
  import opened Utf8
  import opened Globbing
  import opened GlobBytes

  // ---------- Regexp ----------

  /** One element of a pattern. */
  datatype Element = Star | Mark | Plain(c: Byte) | Escaped(c: Byte)

  /** How a pattern ends: nothing more, a null byte, or a backslash with nothing to escape. */
  datatype End = Whole | Null(rest: Bytes) | Dangling | DanglingNull(rest: Bytes)

  predicate Good(e: Element) {
    match e
    case Star => true
    case Mark => true
    case Plain(c) => c != 0 && c as char !in "*?\\["
    case Escaped(c) => c != 0
  }

  function Bytes1(e: Element): Bytes {
    match e
    case Star => ['*' as int]
    case Mark => ['?' as int]
    case Plain(c) => [c]
    case Escaped(c) => ['\\' as int, c]
  }

  function Last(d: End): Bytes {
    match d
    case Whole => []
    case Null(rest) => [0] + rest
    case Dangling => ['\\' as int]
    case DanglingNull(rest) => ['\\' as int, 0] + rest
  }

  /** A character that means something in regular expressions gets a backslash; others are written as code points. */
  function Literal(c: Byte): Bytes {
    if c as char in "\\.+*?()|[]{}^$" then ['\\' as int, c]
    else if c < 0x80 then [c]
    else [0xC0 + c / 64, 0x80 + c % 64]
  }

  /** A byte past ASCII, save 0x80, goes through as it is unless a backslash stands before it. */
  function Output(e: Element): Bytes {
    match e
    case Star => ['.' as int, '*' as int]
    case Mark => ['.' as int]
    case Plain(c) => if c > 0x80 then [c] else Literal(c)
    case Escaped(c) => Literal(c)
  }

  function Spelled(es: seq<Element>, d: End): Bytes {
    if es == [] then Last(d) else Bytes1(es[0]) + Spelled(es[1..], d)
  }

  function Outputs(es: seq<Element>): Bytes {
    if es == [] then [] else Output(es[0]) + Outputs(es[1..])
  }

  /** "(?s)^" */
  const HEAD: Bytes := [40, 63, 115, 41, 94]

  ghost predicate Reads(p: Bytes, es: seq<Element>, d: End) {
    (forall i :: 0 <= i < |es| ==> Good(es[i])) && Spelled(es, d) == p
  }

  function Result(es: seq<Element>, d: End): Option<Bytes> {
    if d.Whole? || d.Null? then Some(HEAD + Outputs(es) + ['$' as int]) else None
  }

  lemma AsciiMeta(c: Byte)
    requires c < 0x80
    ensures Meta(c) == Literal(c)
  {
    var q := Quoted(c as char);
    if RegMeta(c as char) {
      assert q[0] == '\\' && q[1] == c as char && q[1..] == [c as char];
      assert Utf8Of([c as char]) == [c] by { assert [c as char][1..] == ""; }
    } else {
      assert q[1..] == "";
    }
  }

  lemma HighLiteral(c: Byte)
    requires c >= 0x80
    ensures c as char !in "\\.+*?()|[]{}^$"
  { }

  lemma MetaIs(c: Byte)
    ensures Meta(c) == Literal(c)
  {
    hide Meta;
    if c < 0x80 {
      AsciiMeta(c);
    } else {
      PieceHigh(c);
      HighLiteral(c);
    }
  }

  lemma DotIs()
    ensures Utf8Of(".*") == ['.' as int, '*' as int] && Utf8Of(".") == ['.' as int] && Utf8Of("$") == ['$' as int]
  {
    assert ".*"[1..] == "*" && "*"[1..] == "" && "."[1..] == "" && "$"[1..] == "";
    assert Utf8Of("*") == ['*' as int];
  }

  lemma HeadIs()
    ensures Utf8Of(OPEN) == HEAD
  {
    assert OPEN == "(" + ("?" + ("s" + (")" + "^")));
    OfConcat(")", "^");
    OfConcat("s", ")" + "^");
    OfConcat("?", "s" + (")" + "^"));
    OfConcat("(", "?" + ("s" + (")" + "^")));
    forall c: char | c < '\U{80}' ensures Utf8Of([c]) == [c as int] { assert [c][1..] == ""; }
  }

  /** The rest of a pattern after one element. */
  lemma WriteElement(e: Element, rest: Bytes)
    requires Good(e)
    ensures Write(Bytes1(e) + rest) == Prefixed(Output(e), Write(rest))
  {
    hide Meta;
    DotIs();
    match e
    case Star => Skip1('*' as int, rest);
    case Mark => Skip1('?' as int, rest);
    case Plain(c) =>
      MetaIs(c);
      Skip1(c, rest);
      NotSpecial(c);
    case Escaped(c) =>
      MetaIs(c);
      assert (['\\' as int, c] + rest)[2..] == rest;
  }

  lemma Skip1(c: Byte, rest: Bytes)
    ensures ([c] + rest)[0] == c && ([c] + rest)[1..] == rest
  { }

  lemma NotSpecial(c: Byte)
    requires c as char !in "*?\\["
    ensures c != STAR && c != MARK && c != BS && c != BRACKET
  { }

  lemma WriteEnd(d: End)
    ensures Write(Last(d)) == if d.Whole? || d.Null? then Some(['$' as int]) else None
  {
    DotIs();
  }

  lemma {:induction false} WriteSpelled(es: seq<Element>, d: End)
    requires forall i :: 0 <= i < |es| ==> Good(es[i])
    ensures Write(Spelled(es, d))
         == if d.Whole? || d.Null? then Some(Outputs(es) + ['$' as int]) else None
    decreases |es|
  {
    hide Write, Good, Output, Last;
    if es == [] {
      WriteEnd(d);
      assert [] + ['$' as int] == ['$' as int];
    } else {
      WriteSpelled(es[1..], d);
      WriteElement(es[0], Spelled(es[1..], d));
      assert Output(es[0]) + (Outputs(es[1..]) + ['$' as int]) == Output(es[0]) + Outputs(es[1..]) + ['$' as int];
    }
  }

  lemma {:induction false} Reading(p: Bytes) returns (es: seq<Element>, d: End)
    requires NoBracketByte(p)
    ensures Reads(p, es, d)
    decreases |p|
  {
    es, d := [], Whole;
    if p == [] {
    } else if p[0] == 0 {
      d := Null(p[1..]);
    } else if p[0] == BS && |p| == 1 {
      d := Dangling;
    } else if p[0] == BS && p[1] == 0 {
      d := DanglingNull(p[2..]);
    } else {
      var e := if p[0] == BS then Escaped(p[1]) else if p[0] == STAR then Star else if p[0] == MARK then Mark
          else Plain(p[0]);
      var rest := p[if p[0] == BS then 2 else 1..];
      var more, end := Reading(rest);
      assert p == Bytes1(e) + rest;
      assert Good(e);
      assert ([e] + more)[1..] == more;
      es, d := [e] + more, end;
    }
  }

  /**
   * The expression Regexp writes is "(?s)^", each element's own text in order, and "$"; a null byte ends the pattern,
   * and a backslash with nothing to escape is the one error.
   */
  lemma RegexpIff(p: Bytes, r: Option<Bytes>)
    requires NoBracketByte(p)
    ensures RegexpBytes(p) == r <==> exists es, d :: Reads(p, es, d) && Result(es, d) == r
  {
    hide Write, NoBracketByte, Outputs, Spelled;
    HeadIs();
    forall es, d | Reads(p, es, d) ensures RegexpBytes(p) == Result(es, d) {
      WriteSpelled(es, d);
      assert HEAD + (Outputs(es) + ['$' as int]) == HEAD + Outputs(es) + ['$' as int];
    }
    var es, d := Reading(p);
    assert Reads(p, es, d);
  }

  // ---------- HasMeta ----------

  /** How many backslashes stand right before i. */
  function Slashes(p: Bytes, i: nat): nat
    requires i <= |p|
  {
    if i == 0 || p[i - 1] != '\\' as int then 0 else 1 + Slashes(p, i - 1)
  }

  ghost predicate MetaAt(p: Bytes, i: nat) {
    i < |p| && p[i] as char in "*?[" && Slashes(p, i) % 2 == 0
  }

  /** Skipping characters that escape nothing beyond them changes no count but by an even number. */
  lemma {:induction false} SlashesAfter(p: Bytes, n: nat, i: nat)
    requires n == (if p != [] && p[0] == '\\' as int then 2 else 1) && n + i <= |p|
    ensures Slashes(p, n + i) % 2 == Slashes(p[n..], i) % 2
    decreases i
  {
    if i > 0 {
      assert p[n..][i - 1] == p[n + i - 1];
      SlashesAfter(p, n, i - 1);
    } else if n == 2 {
      assert Slashes(p, 1) == 1 + Slashes(p, 0) == 1;
      assert Slashes(p, 2) == if p[1] == '\\' as int then 2 else 0;
    }
  }

  /** A pattern has a metacharacter when one stands after an even number of backslashes. */
  lemma {:induction false} HasMetaWhere(p: Bytes)
    ensures HasMetaBytes(p) <==> exists i: nat :: MetaAt(p, i)
    decreases |p|
  {
    if p != [] {
      var n := if p[0] == BS then 2 else 1;
      MetaHere(p);
      if n <= |p| {
        HasMetaWhere(p[n..]);
        forall i: nat ensures MetaAt(p[n..], i) <==> MetaAt(p, n + i) {
          if n + i < |p| { SlashesAfter(p, n, i); }
        }
        if i: nat :| MetaAt(p[n..], i) { assert MetaAt(p, n + i); }
        if i: nat :| MetaAt(p, i) {
          if i >= n { assert MetaAt(p[n..], i - n); }
        }
      }
    }
  }

  lemma MetaHere(p: Bytes)
    requires p != []
    ensures MetaAt(p, 0) <==> p[0] == STAR || p[0] == MARK || p[0] == BRACKET
    ensures p[0] == BS ==> !MetaAt(p, 0) && !MetaAt(p, 1)
  {
    assert Slashes(p, 0) == 0;
    if |p| > 1 && p[0] == BS { assert Slashes(p, 1) == 1; }
  }

  // ---------- QuoteMeta ----------

  function Joined(ts: seq<string>): string {
    if ts == [] then "" else ts[0] + Joined(ts[1..])
  }

  /** A backslash before each of four characters. */
  function Slashed(t: string): string {
    Joined(seq(|t|, i requires 0 <= i < |t| => if t[i] in "*?[\\" then ['\\', t[i]] else [t[i]]))
  }

  lemma {:induction false} QuoteMetaIs(t: string)
    ensures QuoteMeta(t) == Slashed(t)
  {
    if t != "" {
      QuoteMetaIs(t[1..]);
      var ts := seq(|t|, i requires 0 <= i < |t| => if t[i] in "*?[\\" then ['\\', t[i]] else [t[i]]);
      var us := seq(|t[1..]|, i requires 0 <= i < |t[1..]| =>
        if t[1..][i] in "*?[\\" then ['\\', t[1..][i]] else [t[1..][i]]);
      assert ts[1..] == us;
    }
  }

  predicate AnySpecial(t: Bytes) {
    exists i :: 0 <= i < |t| && t[i] as char in "*?[\\"
  }

  predicate AnyChar(t: string) {
    exists i :: 0 <= i < |t| && Special(t[i])
  }

  lemma AnyFirst(c: char, rest: string)
    ensures AnyChar([c] + rest) <==> Special(c) || AnyChar(rest)
  {
    var t := [c] + rest;
    assert t[0] == c;
    if i :| 0 <= i < |rest| && Special(rest[i]) { assert t[i + 1] == rest[i]; }
    if i :| 0 <= i < |t| && Special(t[i]) {
      if i > 0 { assert rest[i - 1] == t[i]; }
    }
  }

  /** Special characters are ASCII, so a rune is one exactly when its byte is. */
  lemma {:induction false} SpecialBytes(t: Bytes)
    ensures AnySpecial(t) <==> AnyChar(Chars(t))
    decreases |t|
  {
    hide Decode, Chars, AnySpecial, Special;
    if t == [] {
      CharsNone();
      NoneSpecial();
    } else {
      var n := Decode(t).size;
      CharsCons(t);
      SpecialBytes(t[n..]);
      SpecialRune(t);
      SpecialParts(t, n);
      AnyFirst(Decode(t).r as char, Chars(t[n..]));
    }
  }

  lemma NoneSpecial()
    ensures !AnySpecial([])
  { }

  lemma SpecialParts(t: Bytes, n: nat)
    requires n <= |t|
    ensures AnySpecial(t) <==> AnySpecial(t[..n]) || AnySpecial(t[n..])
  {
    if i :| 0 <= i < |t| && t[i] as char in "*?[\\" {
      if i < n { assert t[..n][i] == t[i]; } else { assert t[n..][i - n] == t[i]; }
    }
    if i :| 0 <= i < |t[..n]| && t[..n][i] as char in "*?[\\" { assert t[i] == t[..n][i]; }
    if i :| 0 <= i < |t[n..]| && t[n..][i] as char in "*?[\\" { assert t[n + i] == t[n..][i]; }
  }

  lemma SpecialRune(t: Bytes)
    requires t != []
    ensures AnySpecial(t[..Decode(t).size]) <==> Special(Decode(t).r as char)
  {
    var x := t[..Decode(t).size];
    if Decode(t).r < RUNE_SELF {
      assert x == [t[0]] && x[0] == Decode(t).r;
    } else {
      forall i | 0 <= i < |x| ensures x[i] >= RUNE_SELF { HighRunes(t); }
    }
  }

  lemma HighRunes(t: Bytes)
    requires t != [] && Decode(t).r >= RUNE_SELF
    ensures forall i :: 0 <= i < Decode(t).size ==> t[i] >= RUNE_SELF
  { }

  /** A text without special characters is returned as it is; in another each one gets its backslash. */
  lemma QuoteMetaBytesIs(t: Bytes)
    ensures QuoteMetaBytes(t) == if AnySpecial(t) then Utf8Of(Slashed(Chars(t))) else t
  {
    hide Chars, Utf8Of, Slashed, QuoteMeta, AnySpecial, Special;
    SpecialBytes(t);
    QuoteMetaIs(Chars(t));
    var cs := Chars(t);
    if i :| 0 <= i < |cs| && Special(cs[i]) { assert AnyChar(cs); }
  }
}

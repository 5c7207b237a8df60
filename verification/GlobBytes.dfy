/** The pattern code byte by byte: when the expression it writes for UTF-8 text is the right one. */
module GlobBytes {
  import opened Basics
  import opened Utf8
  import opened Globbing

  const BS: Byte := 92
  const STAR: Byte := 42
  const MARK: Byte := 63
  const BRACKET: Byte := 91

  // ---------- texts and their bytes ----------

  function Utf8Of(t: string): Bytes {
    if t == "" then [] else Encode(t[0] as int) + Utf8Of(t[1..])
  }

  /** What ranging over a string's runes sees. */
  function Chars(s: Bytes): string
    decreases |s|
  {
    if s == [] then "" else [Decode(s).r as char] + Chars(s[Decode(s).size..])
  }

  lemma Parts(r: int)
    requires 0 <= r
    ensures r / 64 / 64 == r / 4096 && r / 4096 / 64 == r / 262144
    ensures r == r / 64 * 64 + r % 64 && r / 64 == r / 4096 * 64 + r / 64 % 64
              && r / 4096 == r / 262144 * 64 + r / 4096 % 64
  { }

  lemma Decode2(a: int, b: int, w: Bytes)
    requires 2 <= a < 32 && 0 <= b < 64
    ensures Decode([0xC0 + a, 0x80 + b] + w) == Rune(a * 64 + b, 2)
  { }

  lemma Decode3(a: int, b: int, c: int, w: Bytes)
    requires 0 <= a < 16 && 0 <= b < 64 && 0 <= c < 64 && (a == 0 ==> b >= 32) && (a == 13 ==> b < 32)
    ensures Decode([0xE0 + a, 0x80 + b, 0x80 + c] + w) == Rune(a * 4096 + b * 64 + c, 3)
  { }

  lemma Decode4(a: int, b: int, c: int, d: int, w: Bytes)
    requires 0 <= a < 5 && 0 <= b < 64 && 0 <= c < 64 && 0 <= d < 64 && (a == 0 ==> b >= 16) && (a == 4 ==> b < 16)
    ensures Decode([0xF0 + a, 0x80 + b, 0x80 + c, 0x80 + d] + w) == Rune(a * 262144 + b * 4096 + c * 64 + d, 4)
  { }

  lemma EncodeDecode(c: char, w: Bytes)
    ensures Decode(Encode(c as int) + w) == Rune(c as int, |Encode(c as int)|) && !Bad(Decode(Encode(c as int) + w))
  {
    hide Decode;
    var r := c as int;
    Parts(r);
    if r < 0x80 {
      assert ([r] + w)[0] == r;
      DecodeAscii([r] + w);
    } else if r < 0x800 {
      Decode2(r / 64, r % 64, w);
    } else if r < 0x10000 {
      Decode3(r / 4096, r / 64 % 64, r % 64, w);
    } else {
      Decode4(r / 262144, r / 4096 % 64, r / 64 % 64, r % 64, w);
    }
  }

  lemma DecodeAscii(s: Bytes)
    requires s != [] && s[0] < 0x80
    ensures Decode(s) == Rune(s[0], 1)
  { }

  lemma {:induction false} CharsOf(t: string)
    ensures Valid(Utf8Of(t)) && Chars(Utf8Of(t)) == t
  {
    hide Encode, Decode;
    if t != "" {
      EncodeDecode(t[0], Utf8Of(t[1..]));
      var s := Utf8Of(t);
      assert s[|Encode(t[0] as int)|..] == Utf8Of(t[1..]);
      CharsOf(t[1..]);
    }
  }

  lemma {:induction false} OfChars(s: Bytes)
    requires Valid(s)
    ensures Utf8Of(Chars(s)) == s
    decreases |s|
  {
    hide Encode, Decode;
    if s != [] {
      var n := Decode(s).size;
      DecodeEncode(s);
      OfChars(s[n..]);
      assert Chars(s)[1..] == Chars(s[n..]);
    }
  }

  lemma {:induction false} OfConcat(a: string, b: string)
    ensures Utf8Of(a + b) == Utf8Of(a) + Utf8Of(b)
  {
    hide Encode;
    if a == "" {
      assert a + b == b;
    } else {
      OfConcat(a[1..], b);
      assert (a + b)[1..] == a[1..] + b;
    }
  }

  /** One rune's bytes before others. */
  lemma RuneFirst(a: Bytes, w: Bytes)
    requires a != [] && !Bad(Decode(a)) && Decode(a).size == |a|
    ensures Decode(a + w) == Decode(a) && (a + w)[|a|..] == w
    ensures Valid(a + w) <==> Valid(w)
  {
    hide Decode;
    assert (a + w)[..|a|] == a[..|a|];
    DecodePrefix(a, a + w);
  }

  lemma {:induction false} AsciiFirst(a: Bytes, w: Bytes)
    requires Ascii(a)
    ensures Valid(a + w) <==> Valid(w)
  {
    if a == [] {
      assert a + w == w;
    } else {
      AsciiFirst(a[1..], w);
      assert (a + w)[1..] == a[1..] + w;
    }
  }

  // ---------- what regexpNext writes ----------

  function Prefixed(a: Bytes, r: Option<Bytes>): Option<Bytes> {
    if r.Some? then Some(a + r.value) else None
  }

  /** regexp.QuoteMeta(string(c)): a byte past ASCII is taken as the code point of its number. */
  function Meta(c: Byte): Bytes {
    Utf8Of(Quoted(c as char))
  }

  function Piece(c: Byte): Bytes {
    if c == STAR then Utf8Of(".*") else if c == MARK then Utf8Of(".") else if c > 0x80 then [c] else Meta(c)
  }

  /** The expression for the rest of a pattern, with the closing "$"; None for a dangling backslash. */
  function Write(p: Bytes): Option<Bytes>
    decreases |p|
  {
    if p == [] || p[0] == 0 then Some(Utf8Of("$"))
    else if p[0] == BS then (if |p| == 1 || p[1] == 0 then None else Prefixed(Meta(p[1]), Write(p[2..])))
    else Prefixed(Piece(p[0]), Write(p[1..]))
  }

  /** Regexp with the mode EntireString alone */
  function RegexpBytes(p: Bytes): Option<Bytes> {
    Prefixed(Utf8Of(OPEN), Write(p))
  }

  /** No bracket but after a backslash. */
  predicate NoBracketByte(p: Bytes)
    decreases |p|
  {
    if p == [] then true
    else if p[0] == BS then |p| == 1 || NoBracketByte(p[2..])
    else p[0] != BRACKET && NoBracketByte(p[1..])
  }

  /** No byte 0x80, and after a backslash only ASCII. */
  predicate Safe(p: Bytes)
    decreases |p|
  {
    if p == [] then true
    else if p[0] == BS then |p| == 1 || (p[1] < 0x80 && Safe(p[2..]))
    else p[0] != 0x80 && Safe(p[1..])
  }

  /** The expression is UTF-8, can be read, and matches exactly what the pattern does. */
  ghost predicate Right(e: Bytes, p: string) {
    && Valid(e) && ReadRegex(Chars(e)).Some?
    && forall s :: Matches(ReadRegex(Chars(e)).value, s) <==> Glob(p, s)
  }

  // ---------- bytes past ASCII ----------

  predicate High(a: Bytes) {
    forall i :: 0 <= i < |a| ==> a[i] >= 0x80
  }

  /** A run of bytes past ASCII as it is written: 0x80 as the two bytes of its code point. */
  function Spread(a: Bytes): Bytes {
    if a == [] then [] else Piece(a[0]) + Spread(a[1..])
  }

  lemma PieceHigh(c: Byte)
    requires c >= 0x80
    ensures Piece(c) == if c == 0x80 then [0xC2, 0x80] else [c]
    ensures Meta(c) == [0xC0 + c / 64, 0x80 + c % 64]
  {
    var t := [c as char];
    assert Quoted(c as char) == t;
    assert Utf8Of(t) == Encode(c) + Utf8Of(t[1..]) == Encode(c);
  }

  lemma {:induction false} WriteHigh(a: Bytes, rest: Bytes)
    requires High(a)
    ensures Write(a + rest) == Prefixed(Spread(a), Write(rest))
  {
    hide Piece;
    if a == [] {
      assert a + rest == rest;
      if Write(rest).Some? { assert [] + Write(rest).value == Write(rest).value; }
    } else {
      assert (a + rest)[1..] == a[1..] + rest;
      WriteHigh(a[1..], rest);
      if Write(rest).Some? {
        assert Piece(a[0]) + (Spread(a[1..]) + Write(rest).value) == Spread(a) + Write(rest).value;
      }
    }
  }

  lemma {:induction false} SafeHigh(a: Bytes, rest: Bytes)
    requires High(a)
    ensures Safe(a + rest) <==> 0x80 !in a && Safe(rest)
  {
    if a == [] {
      assert a + rest == rest;
    } else {
      assert (a + rest)[1..] == a[1..] + rest;
      SafeHigh(a[1..], rest);
      assert a == [a[0]] + a[1..];
    }
  }

  lemma {:induction false} SpreadSame(a: Bytes)
    requires High(a) && 0x80 !in a
    ensures Spread(a) == a
  {
    hide Piece;
    if a != [] {
      PieceHigh(a[0]);
      assert a[0] in a && a == [a[0]] + a[1..];
      SpreadSame(a[1..]);
    }
  }

  lemma {:induction false} SpreadConcat(a: Bytes, b: Bytes)
    ensures Spread(a + b) == Spread(a) + Spread(b)
  {
    hide Piece;
    if a == [] {
      assert a + b == b;
    } else {
      assert (a + b)[1..] == a[1..] + b;
      SpreadConcat(a[1..], b);
    }
  }

  /** Where the first 0x80 is. */
  lemma {:induction false} FirstPad(a: Bytes) returns (i: nat)
    requires 0x80 in a
    ensures i < |a| && a[i] == 0x80 && 0x80 !in a[..i]
  {
    i := 0;
    if a[0] != 0x80 {
      assert a == [a[0]] + a[1..];
      var j := FirstPad(a[1..]);
      i := j + 1;
      assert a[..i] == [a[0]] + a[1..][..j];
    }
  }

  lemma BrokenRune(a: Bytes, i: nat, w: Bytes)
    requires a != [] && !Bad(Decode(a)) && Decode(a).size == |a| && 0 < i < |a|
    ensures Bad(Decode(a[..i] + [0xC2] + w))
  {
    var s := a[..i] + [0xC2] + w;
    assert s[0] == a[0] && s[i] == 0xC2;
    if i > 1 { assert s[1] == a[1]; }
    if i > 2 { assert s[2] == a[2]; }
  }

  /** A rune with a byte 0x80 in it is written as something that is no UTF-8. */
  lemma SpreadBad(a: Bytes, w: Bytes)
    requires a != [] && !Bad(Decode(a)) && Decode(a).size == |a| && High(a) && 0x80 in a
    ensures !Valid(Spread(a) + w)
  {
    hide Piece, Valid, Decode, Spread;
    var i := FirstPad(a);
    LeadByte(a);
    assert a == a[..i] + ([0x80] + a[i + 1..]);
    SpreadConcat(a[..i], [0x80] + a[i + 1..]);
    SpreadConcat([0x80], a[i + 1..]);
    SpreadSame(a[..i]);
    SpreadPad();
    var more := [0x80] + Spread(a[i + 1..]) + w;
    BrokenRune(a, i, more);
    assert Spread(a) + w == a[..i] + [0xC2] + more;
    NotValid(a[..i] + [0xC2] + more);
  }

  lemma SpreadPad()
    ensures Spread([0x80]) == [0xC2, 0x80]
  {
    PieceHigh(0x80);
    var a: Bytes := [0x80];
    assert a[1..] == [];
  }

  lemma LeadByte(a: Bytes)
    requires a != [] && !Bad(Decode(a))
    ensures a[0] != 0x80
  { }

  lemma NotValid(s: Bytes)
    requires s != [] && Bad(Decode(s))
    ensures !Valid(s)
  { }

  predicate Conts(b: Bytes) {
    forall i :: 0 <= i < |b| ==> 0x80 <= b[i] < 0xC0
  }

  function Pads(n: nat): string {
    if n == 0 then "" else ['\U{80}'] + Pads(n - 1)
  }

  /**
   * What follows an escaped first byte is UTF-8 as written only if it is all 0x80, and then it is that many other
   * runes.
   */
  lemma {:induction false} SpreadConts(b: Bytes, w: Bytes)
    requires Conts(b)
    ensures Valid(Spread(b) + w) ==> Valid(w) && Spread(b) == Utf8Of(Pads(|b|))
  {
    hide Piece, Encode, Decode;
    if b == [] {
      assert Spread(b) + w == w;
    } else {
      PieceHigh(b[0]);
      var rest := Spread(b[1..]);
      assert Spread(b) + w == Piece(b[0]) + (rest + w);
      SpreadConts(b[1..], w);
      if b[0] == 0x80 {
        Pad();
        RuneFirst([0xC2, 0x80], rest + w);
        assert Pads(|b|)[1..] == Pads(|b| - 1);
      } else {
        Stray(b[0], rest + w);
      }
    }
  }

  lemma Pad()
    ensures Decode([0xC2, 0x80]) == Rune(0x80, 2) && Encode('\U{80}' as int) == [0xC2, 0x80]
  { }

  lemma Stray(c: Byte, w: Bytes)
    requires 0x80 <= c < 0xC0
    ensures !Valid([c] + w)
  { }

  // ---------- the pattern that is really written ----------

  /** How long a text has to be for the pattern. */
  function MinLen(p: string): nat
    decreases |p|
  {
    if p == "" then 0
    else if p[0] == '\\' then (if |p| == 1 then 0 else 1 + MinLen(p[2..]))
    else (if p[0] == '*' then 0 else 1) + MinLen(p[1..])
  }

  lemma {:induction false} GlobLength(p: string, s: string)
    requires Glob(p, s)
    ensures |s| >= MinLen(p)
    decreases |p|
  {
    if p != "" {
      if p[0] == '*' {
        var k :| 0 <= k <= |s| && Glob(p[1..], s[k..]);
        GlobLength(p[1..], s[k..]);
      } else {
        GlobLength(p[if p[0] == '\\' then 2 else 1..], s[1..]);
      }
    }
  }

  /** A shortest text the pattern matches. */
  function Shortest(p: string): (s: string)
    ensures |s| == MinLen(p)
    decreases |p|
  {
    if p == "" then ""
    else if p[0] == '\\' then (if |p| == 1 then "" else [p[1]] + Shortest(p[2..]))
    else if p[0] == '*' then Shortest(p[1..])
    else [if p[0] == '?' then 'a' else p[0]] + Shortest(p[1..])
  }

  lemma {:induction false} ShortestFits(p: string)
    requires Closed(p)
    ensures Glob(p, Shortest(p))
    decreases |p|
  {
    if p != "" {
      var n := if p[0] == '\\' then 2 else 1;
      ShortestFits(p[n..]);
      if p[0] == '*' {
        assert Shortest(p)[0..] == Shortest(p[1..]);
      } else {
        assert Shortest(p)[1..] == Shortest(p[n..]);
      }
    }
  }

  /** Adding literal runes in front. */
  lemma {:induction false} PadsFirst(n: nat, q: string)
    requires Closed(q) && Translate(q).Ok?
    ensures Closed(Pads(n) + q) && MinLen(Pads(n) + q) == n + MinLen(q)
    ensures Translate(Pads(n) + q) == Ok(Pads(n) + Translate(q).text)
  {
    hide Closed, MinLen, Translate;
    if n == 0 {
      assert Pads(0) + q == q;
    } else {
      assert Pads(n) + q == ['\U{80}'] + (Pads(n - 1) + q);
      PadsFirst(n - 1, q);
      HighFirst('\U{80}', Pads(n - 1) + q);
      assert ['\U{80}'] + (Pads(n - 1) + Translate(q).text) == Pads(n) + Translate(q).text;
    }
  }

  lemma HighFirst(c: char, q: string)
    requires c >= '\U{80}' && Translate(q).Ok?
    ensures (Closed([c] + q) <==> Closed(q)) && MinLen([c] + q) == 1 + MinLen(q)
    ensures Translate([c] + q) == Ok([c] + Translate(q).text)
  {
    var t := [c] + q;
    assert t[1..] == q;
  }

  /** The expression written for p, if it is UTF-8 at all, is the one for q; q needs a longer text unless p is safe. */
  predicate WrittenAs(p: Bytes, q: string) {
    && Closed(q) && Translate(q).Ok? && Write(p).Some?
    && (Valid(Write(p).value) ==> Write(p).value == Utf8Of(Translate(q).text))
    && (if Safe(p) then Valid(Write(p).value) && q == Chars(p)
        else Valid(Write(p).value) ==> MinLen(q) > MinLen(Chars(p)))
    && (Valid(Write(p).value) ==> MinLen(q) >= MinLen(Chars(p)))
  }

  lemma WrittenEnd()
    ensures WrittenAs([], "")
  {
    CharsOf("$");
  }

  /** One ASCII character that is no backslash. */
  lemma WrittenAscii(p: Bytes, q: string)
    requires p != [] && 0 < p[0] < 0x80 && p[0] != BS && WrittenAs(p[1..], q)
    ensures WrittenAs(p, [p[0] as char] + q)
  {
    hide Utf8Of, Encode, Valid, Closed;
    var c := p[0] as char;
    var t := [c] + q;
    assert t[0] == c && t[1..] == q;
    ReadTranslate(q);
    var w := Write(p[1..]).value;
    var piece := if c == '*' then ".*" else if c == '?' then "." else Quoted(c);
    assert Piece(p[0]) == Utf8Of(piece);
    AsciiText(piece);
    AsciiFirst(Utf8Of(piece), w);
    OfConcat(piece, Translate(q).text);
    ClosedStep(t);
    CharsStep(p);
  }

  lemma ClosedStep(t: string)
    requires t != "" && t[0] != '\\'
    ensures Closed(t) <==> Closed(t[1..])
  { }

  lemma {:induction false} AsciiText(t: string)
    requires forall i :: 0 <= i < |t| ==> t[i] < '\U{80}'
    ensures Ascii(Utf8Of(t))
  {
    if t != "" { AsciiText(t[1..]); }
  }

  lemma CharsCons(p: Bytes)
    requires p != []
    ensures Chars(p) == [Decode(p).r as char] + Chars(p[Decode(p).size..])
              && Chars(p)[1..] == Chars(p[Decode(p).size..])
  {
    hide Decode;
  }

  lemma CharsStep(p: Bytes)
    requires p != [] && p[0] < 0x80
    ensures Chars(p) == [p[0] as char] + Chars(p[1..]) && Chars(p)[1..] == Chars(p[1..])
  {
    hide Decode;
    DecodeAscii(p);
  }

  lemma CharsNone()
    ensures Chars([]) == ""
  { }

  /** A backslash and an ASCII character. */
  lemma WrittenEscape(p: Bytes, q: string)
    requires |p| > 1 && p[0] == BS && 0 < p[1] < 0x80 && WrittenAs(p[2..], q)
    ensures WrittenAs(p, ['\\', p[1] as char] + q)
  {
    hide Utf8Of, Encode, Valid;
    var c := p[1] as char;
    var t := ['\\', c] + q;
    assert t[0] == '\\' && t[1] == c && t[2..] == q;
    ReadTranslate(q);
    var w := Write(p[2..]).value;
    AsciiText(Quoted(c));
    AsciiFirst(Utf8Of(Quoted(c)), w);
    OfConcat(Quoted(c), Translate(q).text);
    CharsStep(p);
    assert p[1..][0] == p[1] && p[1..][1..] == p[2..];
    CharsStep(p[1..]);
    assert Chars(p)[2..] == Chars(p[2..]);
  }

  /** A rune past ASCII as it is. */
  lemma WrittenHigh(p: Bytes, a: Bytes, rest: Bytes, q: string)
    requires p == a + rest && a != [] && !Bad(Decode(a)) && Decode(a).size == |a| && High(a) && WrittenAs(rest, q)
    ensures WrittenAs(p, [Decode(a).r as char] + q)
  {
    hide Valid, Closed, Translate, MinLen, Decode, Write, Safe, Encode;
    var c := Decode(a).r as char;
    HighRune(a);
    HighFirst(c, q);
    WriteHigh(a, rest);
    SafeHigh(a, rest);
    var w := Write(rest).value;
    RuneFirst(a, rest);
    RuneFirst(a, w);
    HighFirstMin(c, Chars(rest));
    assert Chars(p) == [c] + Chars(rest);
    if 0x80 in a {
      SpreadBad(a, w);
    } else {
      SpreadSame(a);
      OfConcat([c], Translate(q).text);
      OneChar(a);
    }
  }

  lemma HighRune(a: Bytes)
    requires a != [] && !Bad(Decode(a)) && Decode(a).size == |a| && High(a)
    ensures Decode(a).r >= 0x80
  { }

  lemma OneChar(a: Bytes)
    requires a != [] && !Bad(Decode(a)) && Decode(a).size == |a|
    ensures Utf8Of([Decode(a).r as char]) == a
  {
    hide Encode, Decode;
    DecodeEncode(a);
    var t := [Decode(a).r as char];
    assert t[1..] == "" && a[..|a|] == a;
  }

  lemma HighFirstMin(c: char, q: string)
    requires c >= '\U{80}'
    ensures MinLen([c] + q) == 1 + MinLen(q)
  {
    assert ([c] + q)[1..] == q;
  }

  /** A backslash before a rune past ASCII: its first byte is escaped alone. */
  lemma WrittenSplit(p: Bytes, a: Bytes, rest: Bytes, q: string) returns (t: string)
    requires p == [BS] + a + rest && |a| > 1 && !Bad(Decode(a)) && Decode(a).size == |a| && High(a)
              && WrittenAs(rest, q)
    ensures WrittenAs(p, t)
  {
    hide Valid, Closed, Translate, MinLen, Decode, Write, Safe, Encode, Spread, Utf8Of, Chars, Meta, Pads, Piece;
    var b := a[1..];
    var c := a[0] as char;
    ContsOf(a);
    assert p == [BS] + (a + rest) && p[2..] == b + rest;
    EscapeRules(p);
    WriteHigh(b, rest);
    var w := Write(rest).value;
    SpreadConts(b, w);
    PieceHigh(a[0]);
    MetaRune(a[0]);
    RuneFirst(Meta(a[0]), Spread(b) + w);
    assert Meta(a[0]) + (Spread(b) + w) == Write(p).value;
    PadsFirst(|b|, q);
    var u := Pads(|b|) + q;
    t := ['\\', c] + u;
    EscapeFirst(c, u);
    SplitMin(p, a, rest);
    OfConcat(Pads(|b|), Translate(q).text);
    OfConcat([c], Pads(|b|) + Translate(q).text);
    assert Quoted(c) == [c];
  }

  lemma ContsOf(a: Bytes)
    requires |a| > 1 && !Bad(Decode(a)) && Decode(a).size == |a|
    ensures Conts(a[1..]) && High(a[1..]) && a[0] >= 0xC2
  { }

  lemma EscapeRules(p: Bytes)
    requires |p| > 1 && p[0] == BS && p[1] >= 0x80
    ensures Write(p) == Prefixed(Meta(p[1]), Write(p[2..])) && !Safe(p)
  { }

  lemma MetaRune(c: Byte)
    requires 0xC0 <= c
    ensures Meta(c) != [] && !Bad(Decode(Meta(c))) && Decode(Meta(c)).size == |Meta(c)|
    ensures Quoted(c as char) == [c as char] && Meta(c) == Utf8Of([c as char])
  {
    PieceHigh(c);
  }

  lemma EscapeFirst(c: char, q: string)
    requires Translate(q).Ok?
    ensures (Closed(['\\', c] + q) <==> Closed(q)) && MinLen(['\\', c] + q) == 1 + MinLen(q)
    ensures Translate(['\\', c] + q) == Ok(Quoted(c) + Translate(q).text)
  {
    var t := ['\\', c] + q;
    assert t[2..] == q;
  }

  lemma SplitMin(p: Bytes, a: Bytes, rest: Bytes)
    requires p == [BS] + a + rest && a != [] && !Bad(Decode(a)) && Decode(a).size == |a|
    ensures MinLen(Chars(p)) == 1 + MinLen(Chars(rest))
  {
    hide Decode;
    assert p == [BS] + (a + rest) && p[1..] == a + rest;
    CharsStep(p) by { assert p[0] == BS; }
    RuneFirst(a, rest);
    assert Chars(p)[2..] == Chars(rest);
  }

  /** Element by element. */
  lemma {:induction false} Written(p: Bytes) returns (q: string)
    requires Valid(p) && 0 !in p && Closed(Chars(p))
    ensures WrittenAs(p, q)
    decreases |p|
  {
    hide WrittenAs, Decode, Encode;
    if p == [] {
      q := "";
      WrittenEnd();
    } else if p[0] == BS {
      EscapeParts(p);
      RuneParts(p[1..]);
      var n := Decode(p[1..]).size;
      var a, rest := p[1..][..n], p[1..][n..];
      var r := Written(rest);
      if n == 1 {
        q := ['\\', p[1] as char] + r;
        WrittenEscape(p, r);
      } else {
        q := WrittenSplit(p, a, rest, r);
      }
    } else {
      FirstParts(p);
      RuneParts(p);
      var n := Decode(p).size;
      var r := Written(p[n..]);
      q := [Decode(p).r as char] + r;
      if n == 1 {
        WrittenAscii(p, r);
      } else {
        WrittenHigh(p, p[..n], p[n..], r);
      }
    }
  }

  lemma RuneParts(p: Bytes)
    requires Valid(p) && p != []
    ensures var n := Decode(p).size;
            && Valid(p[n..]) && p == p[..n] + p[n..] && !Bad(Decode(p)) && Decode(p[..n]) == Decode(p)
            && (n == 1 ==> p[0] < 0x80 && Decode(p).r == p[0]) && (n > 1 ==> High(p[..n]))
  {
    hide Decode;
    var n := Decode(p).size;
    DecodePrefix(p, p[..n]);
    OneByte(p);
    if n > 1 { HighBytes(p); }
  }

  lemma OneByte(p: Bytes)
    requires p != [] && !Bad(Decode(p))
    ensures Decode(p).size == 1 ==> p[0] < 0x80 && Decode(p).r == p[0]
    ensures Decode(p).size > 1 ==> Decode(p).r >= RUNE_SELF
  { }

  lemma FirstParts(p: Bytes)
    requires Valid(p) && p != [] && p[0] != BS && 0 !in p && Closed(Chars(p))
    ensures var n := Decode(p).size; 0 !in p[n..] && Closed(Chars(p[n..])) && (n == 1 ==> 0 < p[0])
    ensures Decode(p).r as char != '\\'
  {
    hide Decode, Valid;
    var n := Decode(p).size;
    NoSlash(p);
    assert Chars(p)[1..] == Chars(p[n..]);
    ClosedStep(Chars(p));
    assert p[0] in p;
  }

  lemma NoSlash(p: Bytes)
    requires p != [] && p[0] != BS
    ensures Decode(p).r != BS
  { }

  lemma EscapeParts(p: Bytes)
    requires Valid(p) && p != [] && p[0] == BS && 0 !in p && Closed(Chars(p))
    ensures |p| > 1 && Valid(p[1..]) && 0 < p[1]
    ensures var n := Decode(p[1..]).size;
            p == [BS] + p[1..][..n] + p[1..][n..] && 0 !in p[1..][n..] && Closed(Chars(p[1..][n..]))
  {
    hide Decode, Chars, Valid, Closed;
    CharsStep(p);
    SlashOne(p);
    ClosedEscape(Chars(p));
    CharsNone();
    assert |Chars(p)| == 1 + |Chars(p[1..])|;
    assert p[1..] != [];
    CharsCons(p[1..]);
    var n := Decode(p[1..]).size;
    SplitBytes(p, n);
    DropTwice(Chars(p));
  }

  lemma DropTwice(t: string)
    requires |t| > 1
    ensures t[1..][1..] == t[2..]
  { }

  lemma SplitBytes(p: Bytes, n: nat)
    requires |p| > 1 && p[0] == BS && n <= |p| - 1 && 0 !in p
    ensures p == [BS] + p[1..][..n] + p[1..][n..] && 0 !in p[1..][n..] && 0 < p[1]
  {
    assert p[1] in p;
  }

  lemma SlashOne(p: Bytes)
    requires Valid(p) && p != [] && p[0] == BS
    ensures Valid(p[1..])
  { }

  lemma ClosedEscape(t: string)
    requires t != "" && t[0] == '\\' && Closed(t)
    ensures |t| > 1 && Closed(t[2..])
  { }

  // ---------- when Regexp is right ----------

  /** What an expression for q, in UTF-8, matches. */
  lemma ExpressionMeans(q: string, e: Bytes)
    requires Closed(q) && Translate(q).Ok? && e == Utf8Of(OPEN) + Utf8Of(Translate(q).text)
    ensures Valid(e) && ReadRegex(Chars(e)).Some?
    ensures forall s :: Matches(ReadRegex(Chars(e)).value, s) <==> Glob(q, s)
  {
    hide Utf8Of, Chars, ReadRegex, Translate, Valid, Glob, Matches, Closed;
    var text := OPEN + Translate(q).text;
    OfConcat(OPEN, Translate(q).text);
    CharsOf(text);
    assert Regexp(q) == Ok(text);
    RegexpMeans(q, "");
    forall s ensures (Matches(ReadRegex(text).value, s) <==> Glob(q, s)) {
      RegexpMeans(q, s);
    }
  }

  /**
   * For UTF-8 text without null bytes or brackets, Regexp fails exactly for a dangling backslash, and else its
   * expression is UTF-8, readable and matches what the pattern does exactly when no byte of the pattern is 0x80 and no
   * backslash stands before a character past ASCII.
   */
  lemma RegexpRightIff(p: Bytes)
    requires Valid(p) && 0 !in p && NoBracket(Chars(p))
    ensures RegexpBytes(p).Some? <==> Closed(Chars(p))
    ensures Closed(Chars(p)) ==> (Right(RegexpBytes(p).value, Chars(p)) <==> Safe(p))
  {
    hide Utf8Of, Chars, Write, Translate, Valid, Glob, Matches, Closed, ReadRegex, Safe, MinLen;
    WriteClosed(p);
    if Closed(Chars(p)) {
      var q := Written(p);
      var e := RegexpBytes(p).value;
      var w := Write(p).value;
      AsciiText(OPEN);
      AsciiFirst(Utf8Of(OPEN), w);
      if Valid(w) { ExpressionMeans(q, e); }
      if !Safe(p) && Right(e, Chars(p)) {
        var s := Shortest(Chars(p));
        ShortestFits(Chars(p));
        assert Glob(q, s);
        GlobLength(q, s);
      }
    }
  }

  /** What follows a backslash: the rest of its character's bytes, and the rest of the text. */
  lemma EscapeSplit(p: Bytes) returns (tail: Bytes, rest: Bytes)
    requires Valid(p) && |p| > 1 && p[0] == BS
    ensures p[2..] == tail + rest && High(tail) && Valid(rest)
    ensures |Chars(p)| > 1 && Chars(p)[0] == '\\' && Chars(p)[2..] == Chars(rest)
  {
    hide Decode, Chars, Valid;
    SlashOne(p);
    CharsStep(p);
    CharsCons(p[1..]);
    RuneParts(p[1..]);
    var n := Decode(p[1..]).size;
    tail, rest := p[1..][1..n], p[1..][n..];
    assert Chars(p)[2..] == Chars(p)[1..][1..] == Chars(rest);
    if n > 1 { HighTail(p[1..][..n]); }
    assert p[2..] == tail + rest;
  }

  /** The first character's bytes, all past ASCII unless it is one byte. */
  lemma FirstSplit(p: Bytes) returns (a: Bytes, rest: Bytes)
    requires Valid(p) && p != [] && p[0] != BS
    ensures p == a + rest && (High(a) || (a == [p[0]] && p[0] < 0x80)) && a != [] && Valid(rest)
    ensures Chars(p) != "" && Chars(p)[0] != '\\' && Chars(p)[1..] == Chars(rest)
    ensures if a == [p[0]] && p[0] < 0x80 then Chars(p)[0] == p[0] as char else Chars(p)[0] >= '\U{80}'
  {
    hide Decode, Encode, Valid;
    RuneParts(p);
    OneByte(p);
    NoSlash(p);
    var n := Decode(p).size;
    a, rest := p[..n], p[n..];
    assert Chars(p)[1..] == Chars(rest);
  }

  lemma {:induction false} WriteClosed(p: Bytes)
    requires Valid(p) && 0 !in p
    ensures Write(p).Some? <==> Closed(Chars(p))
    decreases |p|
  {
    hide Chars, Valid, Meta, Piece, Spread;
    if p == [] {
      CharsNone();
    } else if p == [BS] {
      CharsStep(p);
      CharsNone();
      assert p[1..] == [];
    } else if p[0] == BS {
      var tail, rest := EscapeSplit(p);
      assert p[1] in p;
      assert 0 !in p[2..] && 0 !in rest by { assert forall x :: x in rest ==> x in tail + rest; }
      WriteClosed(rest);
      WriteHigh(tail, rest);
    } else {
      var a, rest := FirstSplit(p);
      assert p[0] in p;
      WriteClosed(rest);
      if High(a) { WriteHigh(a, rest); } else { assert p[1..] == rest; }
    }
  }

  lemma HighTail(a: Bytes)
    requires High(a) && a != []
    ensures High(a[1..])
  { }

  // ---------- QuoteMeta and HasMeta ----------

  /** QuoteMeta: a text without special characters is returned as it is, another is written rune by rune. */
  function QuoteMetaBytes(t: Bytes): Bytes {
    if forall i :: 0 <= i < |Chars(t)| ==> !Special(Chars(t)[i]) then t else Utf8Of(QuoteMeta(Chars(t)))
  }

  predicate HasMetaBytes(p: Bytes)
    decreases |p|
  {
    if p == [] then false
    else if p[0] == BS then |p| > 1 && HasMetaBytes(p[2..])
    else p[0] == STAR || p[0] == MARK || p[0] == BRACKET || HasMetaBytes(p[1..])
  }

  lemma {:induction false} QuoteNothing(t: string)
    requires forall i :: 0 <= i < |t| ==> !Special(t[i])
    ensures QuoteMeta(t) == t
  {
    if t != "" { QuoteNothing(t[1..]); }
  }

  lemma QuotedChars(t: Bytes)
    requires Valid(t)
    ensures QuoteMetaBytes(t) == Utf8Of(QuoteMeta(Chars(t))) && Valid(QuoteMetaBytes(t))
    ensures Chars(QuoteMetaBytes(t)) == QuoteMeta(Chars(t))
  {
    hide Utf8Of, Chars, QuoteMeta, Valid;
    CharsOf(QuoteMeta(Chars(t)));
    OfChars(t);
    if forall i :: 0 <= i < |Chars(t)| ==> !Special(Chars(t)[i]) { QuoteNothing(Chars(t)); }
  }

  lemma EncodeHigh(c: char)
    ensures if c < '\U{80}' then Encode(c as int) == [c as int] else High(Encode(c as int))
  { }

  lemma QuoteRune(c: char, rest: string)
    ensures Utf8Of(QuoteMeta([c] + rest))
            == (if Special(c) then [BS] else []) + Encode(c as int) + Utf8Of(QuoteMeta(rest))
  {
    hide Encode;
    var t := [c] + rest;
    assert t[1..] == rest;
    if Special(c) {
      assert QuoteMeta(t)[1..] == [c] + QuoteMeta(rest) && QuoteMeta(t)[1..][1..] == QuoteMeta(rest);
      Encode1(92);
    } else {
      assert QuoteMeta(t)[1..] == QuoteMeta(rest);
    }
  }

  lemma SafeAscii(c: Byte, rest: Bytes)
    requires c < 0x80
    ensures Safe([BS, c] + rest) <==> Safe(rest)
    ensures c != BS ==> (Safe([c] + rest) <==> Safe(rest))
  {
    assert ([BS, c] + rest)[2..] == rest && ([c] + rest)[1..] == rest;
  }

  /** Quoting adds only backslashes before ASCII. */
  lemma {:induction false} QuoteSafe(t: string)
    ensures Safe(Utf8Of(QuoteMeta(t))) <==> 0x80 !in Utf8Of(t)
    ensures 0 in Utf8Of(QuoteMeta(t)) <==> 0 in Utf8Of(t)
  {
    hide Encode, QuoteMeta, Safe;
    if t == "" {
      QuoteEnd();
      SafeEnd();
    } else {
      var c := t[0];
      var e := Encode(c as int);
      var rest := Utf8Of(QuoteMeta(t[1..]));
      assert t == [c] + t[1..];
      QuoteSafe(t[1..]);
      QuoteRune(c, t[1..]);
      EncodeHigh(c);
      if Special(c) {
        assert [BS] + e + rest == [BS, c as int] + rest;
        SafeAscii(c as int, rest);
      } else {
        assert [] + e + rest == e + rest;
        if c < '\U{80}' { SafeAscii(c as int, rest); } else { SafeHigh(e, rest); }
      }
    }
  }

  lemma QuoteEnd()
    ensures Utf8Of(QuoteMeta("")) == [] && Utf8Of("") == []
  { }

  lemma SafeEnd()
    ensures Safe([])
  { }

  /** The expression is UTF-8, can be read, and matches the text and nothing else. */
  ghost predicate MatchesOnly(e: Bytes, t: string) {
    && Valid(e) && ReadRegex(Chars(e)).Some?
    && forall s :: Matches(ReadRegex(Chars(e)).value, s) <==> s == t
  }

  lemma RightOnly(e: Bytes, p: string, t: string)
    requires forall s :: Glob(p, s) <==> s == t
    ensures Right(e, p) <==> MatchesOnly(e, t)
  {
    hide Valid, Glob, Matches, ReadRegex, Chars;
  }

  /** The expression for a quoted text matches the text and nothing else exactly when no byte of the text is 0x80. */
  lemma QuoteMetaRightIff(t: Bytes)
    requires Valid(t) && 0 !in t
    ensures RegexpBytes(QuoteMetaBytes(t)).Some?
    ensures MatchesOnly(RegexpBytes(QuoteMetaBytes(t)).value, Chars(t)) <==> 0x80 !in t
  {
    hide Utf8Of, Chars, Valid, Glob, Safe, QuoteMeta, QuoteMetaBytes, RegexpBytes, Right, MatchesOnly;
    var q := QuoteMetaBytes(t);
    QuotedChars(t);
    OfChars(t);
    QuoteSafe(Chars(t));
    QuoteMetaPlain(Chars(t));
    NoMetaExact(QuoteMeta(Chars(t)), "");
    RegexpRightIff(q);
    forall s ensures Glob(Chars(q), s) <==> s == Chars(t) { QuoteMetaMatchesItself(Chars(t), s); }
    RightOnly(RegexpBytes(q).value, Chars(q), Chars(t));
  }

  /** The failing input: the letter with bytes C3 80, whose expression is no UTF-8. */
  lemma CapitalAGrave()
    ensures var t: Bytes := [0xC3, 0x80];
            && Valid(t) && RegexpBytes(QuoteMetaBytes(t)).Some? && !Valid(RegexpBytes(QuoteMetaBytes(t)).value)
  {
    hide Encode;
    var t: Bytes := [0xC3, 0x80];
    assert t[2..] == [];
    assert Chars(t) == ['\U{C0}'] + Chars([]);
    assert QuoteMetaBytes(t) == t;
    assert t + [] == t;
    WriteHigh(t, []);
    SpreadBad(t, Write([]).value);
    AsciiText(OPEN);
    AsciiFirst(Utf8Of(OPEN), Write(t).value);
  }

  /** A slash escapes a byte, HasMeta's loop skips a byte, and for UTF-8 that is as if it skipped the character. */
  lemma {:induction false} HasMetaChars(p: Bytes)
    requires Valid(p)
    ensures HasMetaBytes(p) <==> HasMeta(Chars(p))
    decreases |p|
  {
    hide Chars, Valid;
    if p == [] {
      CharsNone();
    } else if p == [BS] {
      CharsStep(p);
      CharsNone();
      assert p[1..] == [];
    } else if p[0] == BS {
      var tail, rest := EscapeSplit(p);
      HasMetaChars(rest);
      MetaHigh(tail, rest);
    } else {
      var a, rest := FirstSplit(p);
      HasMetaChars(rest);
      if High(a) { MetaHigh(a, rest); } else { assert p[1..] == rest; }
    }
  }

  lemma {:induction false} MetaHigh(a: Bytes, rest: Bytes)
    requires High(a)
    ensures HasMetaBytes(a + rest) == HasMetaBytes(rest)
  {
    if a == [] {
      assert a + rest == rest;
    } else {
      assert (a + rest)[1..] == a[1..] + rest;
      MetaHigh(a[1..], rest);
    }
  }
}

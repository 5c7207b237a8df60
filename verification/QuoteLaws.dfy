/** Exactly what Quote returns for every string, rune by rune, and what each escape sequence writes. */
module QuoteLaws {
  import opened Basics
  import opened Utf8
  import opened Quoting
  import opened QuoteRoundTrip

  // ---------- a string as its runes ----------

  /** The pieces a string decodes in: a code point's bytes, or one byte that starts none. */
  function Runes(s: Bytes): (rs: seq<Bytes>)
    ensures forall i :: 0 <= i < |rs| ==> rs[i] != []
    decreases |s|
  {
    if s == [] then [] else [s[..Decode(s).size]] + Runes(s[Decode(s).size..])
  }

  function Flat(ps: seq<Bytes>): Bytes {
    if ps == [] then [] else ps[0] + Flat(ps[1..])
  }

  /** The pieces are the string, and each decodes as it does in its place. */
  lemma {:induction false} RunesAre(s: Bytes)
    ensures Flat(Runes(s)) == s
    ensures s != [] ==> Runes(s) != [] && Runes(s)[1..] == Runes(s[Decode(s).size..])
    ensures s != [] ==> Decode(Runes(s)[0]) == Decode(s) && |Runes(s)[0]| == Decode(s).size
    decreases |s|
  {
    hide Decode;
    if s != [] {
      var n := Decode(s).size;
      RunesAre(s[n..]);
      DecodePiece(s);
      assert s == s[..n] + s[n..];
    }
  }

  lemma DecodePiece(s: Bytes)
    requires s != []
    ensures Decode(s[..Decode(s).size]) == Decode(s)
  { }

  predicate Prints(pr: Print, x: Bytes)
    requires x != []
  {
    pr(Decode(x).r) && Decode(x).r != 0xFFFD
  }

  // ---------- escapes ----------

  const SIXTEEN := "0123456789abcdef"

  /** k hexadecimal digits, the last one counting least. */
  function Sixteens(n: nat, k: nat): (ds: Bytes)
    ensures |ds| == k
  {
    if k == 0 then [] else Sixteens(n / 16, k - 1) + [SIXTEEN[n % 16] as int]
  }

  lemma {:induction false} HexIs(n: nat, k: nat)
    ensures Hex(n, k) == Sixteens(n, k)
    decreases k
  {
    if k > 0 {
      HexIs(n / 16, k - 1);
      DigitIs(n % 16);
    }
  }

  lemma DigitIs(d: nat)
    requires d < 16
    ensures HexDigit(d) == SIXTEEN[d] as int
  { }

  /** The letters for the codes from 7 to 13. */
  const LETTERS := "abtnvfr"

  /** Not printable, and written as two hexadecimal digits: a control character or a byte of no code point. */
  predicate TwoDigits(pr: Print, x: Bytes)
    requires x != []
  {
    |x| == 1 && !Prints(pr, x) && !(7 <= x[0] <= 13) && x[0] != SQ && x[0] != BS
  }

  /** What a rune becomes between $' and '. */
  function Piece(pr: Print, x: Bytes): Bytes
    requires x != []
  {
    var r := Decode(x).r;
    if x == [SQ] || x == [BS] then [BS] + x
    else if Prints(pr, x) then x
    else if 7 <= r <= 13 then [BS, LETTERS[r - 7] as int]
    else if |x| == 1 then [BS, 'x' as int] + Sixteens(x[0], 2)
    else if r < 0x10000 then [BS, 'u' as int] + Sixteens(r, 4)
    else [BS, 'U' as int] + Sixteens(r, 8)
  }

  lemma PieceIs(s: Bytes, pr: Print)
    requires s != []
    ensures var x := s[..Decode(s).size];
            Escape(s, pr) == Piece(pr, x) && (ByByte(s, pr) <==> TwoDigits(pr, x))
  {
    hide Hex, Sixteens;
    var x := s[..Decode(s).size];
    DecodePiece(s);
    HexIs(s[0], 2);
    HexIs(Decode(s).r, 4);
    HexIs(Decode(s).r, 8);
    OneByte(s);
    if !Bad(Decode(s)) { RuneBytes(s); }
  }

  lemma OneByte(s: Bytes)
    requires s != []
    ensures Decode(s).size == 1 <==> Decode(s).r < RUNE_SELF || Bad(Decode(s))
    ensures s[..Decode(s).size][0] == s[0]
  { }

  /** Rune i is a hexadecimal digit right after an escape of two digits, which mksh would read on. */
  predicate ReadsOn(lang: Lang, pr: Print, rs: seq<Bytes>, i: nat)
    requires i < |rs| && forall j :: 0 <= j < |rs| ==> rs[j] != []
  {
    lang == Mksh && i > 0 && TwoDigits(pr, rs[i - 1]) && HexRune(pr, rs[i])
  }

  predicate HexRune(pr: Print, x: Bytes)
    requires x != []
  {
    |x| == 1 && Prints(pr, x) && IsHex(x[0])
  }

  /** The runes' pieces, quotes reopened before those mksh would read on into. */
  function Pieces(lang: Lang, pr: Print, rs: seq<Bytes>): seq<Bytes>
    requires forall j :: 0 <= j < |rs| ==> rs[j] != []
  {
    seq(|rs|, i requires 0 <= i < |rs| => (if ReadsOn(lang, pr, rs, i) then REOPEN else []) + Piece(pr, rs[i]))
  }

  /** The same after an escape of two digits, if there was one. */
  function PiecesAfter(lang: Lang, pr: Print, rs: seq<Bytes>, last: bool): seq<Bytes>
    requires forall j :: 0 <= j < |rs| ==> rs[j] != []
  {
    if rs == [] then []
    else
      [(if last && HexRune(pr, rs[0]) then REOPEN else []) + Piece(pr, rs[0])]
      + PiecesAfter(lang, pr, rs[1..], lang == Mksh && TwoDigits(pr, rs[0]))
  }

  lemma {:induction false} PiecesAre(lang: Lang, pr: Print, rs: seq<Bytes>, last: bool)
    requires forall j :: 0 <= j < |rs| ==> rs[j] != []
    ensures |PiecesAfter(lang, pr, rs, last)| == |rs|
    ensures rs != [] ==>
              PiecesAfter(lang, pr, rs, last)[0]
              == (if last && HexRune(pr, rs[0]) then REOPEN else []) + Piece(pr, rs[0])
    ensures forall i :: 0 < i < |rs| ==> PiecesAfter(lang, pr, rs, last)[i] == Pieces(lang, pr, rs)[i]
    decreases |rs|
  {
    hide Piece, TwoDigits, HexRune;
    if rs != [] {
      var rest := PiecesAfter(lang, pr, rs[1..], lang == Mksh && TwoDigits(pr, rs[0]));
      PiecesAre(lang, pr, rs[1..], lang == Mksh && TwoDigits(pr, rs[0]));
      forall i | 0 < i < |rs| ensures PiecesAfter(lang, pr, rs, last)[i] == Pieces(lang, pr, rs)[i] {
        assert PiecesAfter(lang, pr, rs, last)[i] == rest[i - 1];
        if i > 1 { assert rest[i - 1] == Pieces(lang, pr, rs[1..])[i - 1]; }
      }
    }
  }

  lemma {:induction false} AnsiAfter(s: Bytes, lang: Lang, pr: Print, last: bool)
    requires last ==> lang == Mksh
    ensures Ansi(s, lang, pr, last) == Flat(PiecesAfter(lang, pr, Runes(s), last))
    decreases |s|
  {
    hide Decode, Piece, TwoDigits, Escape, ByByte, HexRune;
    if s == [] {
      AnsiNone(lang, pr, last);
    } else {
      RunesAre(s);
      PieceIs(s, pr);
      HexIsRune(s, pr);
      AnsiAfter(s[Decode(s).size..], lang, pr, lang == Mksh && ByByte(s, pr));
      FlatFirst(PiecesAfter(lang, pr, Runes(s), last));
      PiecesAre(lang, pr, Runes(s), last);
      assert PiecesAfter(lang, pr, Runes(s), last)[1..]
          == PiecesAfter(lang, pr, Runes(s)[1..], lang == Mksh && TwoDigits(pr, Runes(s)[0]));
    }
  }

  lemma AnsiNone(lang: Lang, pr: Print, last: bool)
    ensures Ansi([], lang, pr, last) == Flat(PiecesAfter(lang, pr, Runes([]), last))
  { }

  lemma FlatFirst(ps: seq<Bytes>)
    requires ps != []
    ensures Flat(ps) == ps[0] + Flat(ps[1..])
  { }

  lemma HexIsRune(s: Bytes, pr: Print)
    requires s != []
    ensures Plain(pr, Decode(s).r) && IsHex(Decode(s).r) <==> HexRune(pr, s[..Decode(s).size])
  {
    DecodePiece(s);
    OneByte(s);
  }

  /** The text between $' and the closing quote is the runes' pieces, one after the other. */
  lemma AnsiIs(s: Bytes, lang: Lang, pr: Print)
    ensures Ansi(s, lang, pr, false) == Flat(Pieces(lang, pr, Runes(s)))
  {
    hide Piece, TwoDigits, HexRune, Decode;
    AnsiAfter(s, lang, pr, false);
    PiecesAre(lang, pr, Runes(s), false);
    assert PiecesAfter(lang, pr, Runes(s), false) == Pieces(lang, pr, Runes(s));
  }

  // ---------- which form, and when none ----------

  /** The characters that keep a word from being bare. */
  const SPECIAL := ";\"'()$|&><` \t\r\n\\#{~*?[="

  predicate Special(s: Bytes) {
    exists i :: 0 <= i < |s| && s[i] as char in SPECIAL
  }

  /** In double quotes four characters get a backslash. */
  function Doubled(s: Bytes): Bytes {
    Flat(seq(|s|, i requires 0 <= i < |s| => if s[i] as char in "\"\\`$" then [BS, s[i]] else [s[i]]))
  }

  predicate AllPrint(pr: Print, rs: seq<Bytes>)
    requires forall j :: 0 <= j < |rs| ==> rs[j] != []
  {
    forall i :: 0 <= i < |rs| ==> Prints(pr, rs[i])
  }

  lemma {:induction false} DoubledIs(s: Bytes)
    ensures DblBytes(s) == Doubled(s)
  {
    if s != [] {
      DoubledIs(s[1..]);
      var ps := seq(|s|, i requires 0 <= i < |s| => if s[i] as char in "\"\\`$" then [BS, s[i]] else [s[i]]);
      var qs := seq(|s[1..]|, i requires 0 <= i < |s[1..]| =>
        if s[1..][i] as char in "\"\\`$" then [BS, s[1..][i]] else [s[1..][i]]);
      assert ps[1..] == qs;
      FlatFirst(ps);
    }
  }

  lemma SpecialIs(c: Byte)
    ensures c as char in SPECIAL <==> ShellChar(c)
  { }

  /** What the first loop reports once it stops nowhere. */
  lemma {:induction false} LookIs(s: Bytes, lang: Lang, pr: Print, offs: nat)
    requires Look(s, lang, pr, offs).Seen?
    ensures Look(s, lang, pr, offs).shell <==> Special(s)
    ensures Look(s, lang, pr, offs).odd <==> !AllPrint(pr, Runes(s))
    decreases |s|
  {
    hide Decode, ShellChar;
    if s != [] {
      var n := Decode(s).size;
      LookIs(s[n..], lang, pr, offs + n);
      RunesAre(s);
      SpecialFirst(s);
      assert Runes(s) == [Runes(s)[0]] + Runes(s[n..]);
    }
  }

  lemma SpecialSplit(a: Bytes, b: Bytes)
    ensures Special(a + b) <==> Special(a) || Special(b)
  {
    if i :| 0 <= i < |a| && a[i] as char in SPECIAL { assert (a + b)[i] == a[i]; }
    if i :| 0 <= i < |b| && b[i] as char in SPECIAL { assert (a + b)[|a| + i] == b[i]; }
  }

  /** A rune past ASCII and its bytes are not special; an ASCII rune is its byte. */
  lemma SpecialRune(s: Bytes)
    requires s != []
    ensures Special(s[..Decode(s).size]) <==> ShellChar(Decode(s).r)
  {
    hide Decode, ShellChar;
    var x := s[..Decode(s).size];
    FirstBytes(s);
    SpecialIs(s[0]);
    if Decode(s).r < RUNE_SELF {
      assert x == [s[0]];
    } else {
      HighRune(Decode(s).r);
      forall i | 0 <= i < |x| ensures x[i] as char !in SPECIAL {
        SpecialIs(x[i]);
        HighRune(x[i]);
      }
    }
  }

  lemma SpecialFirst(s: Bytes)
    requires s != []
    ensures Special(s) <==> ShellChar(Decode(s).r) || Special(s[Decode(s).size..])
  {
    hide Decode, ShellChar, Special;
    var n := Decode(s).size;
    SpecialSplit(s[..n], s[n..]);
    SpecialRune(s);
    assert s == s[..n] + s[n..];
  }

  lemma HighRune(r: int)
    ensures r >= RUNE_SELF ==> !ShellChar(r)
  { }

  /**
   * Which form Quote chooses. Escapes only for what does not print; no quotes only for what has no special character
   * and is no keyword; single quotes unless there is one inside.
   */
  lemma QuoteIs(s: Bytes, lang: Lang, pr: Print)
    requires Quote(s, lang, pr).Done?
    ensures Quote(s, lang, pr).q ==
            if s == [] then [SQ, SQ]
            else if !AllPrint(pr, Runes(s)) then [DOLLAR, SQ] + Flat(Pieces(lang, pr, Runes(s))) + [SQ]
            else if !Special(s) && Text(s) !in KEYWORDS then s
            else if SQ !in s then [SQ] + s + [SQ]
            else [DQ] + Doubled(s) + [DQ]
  {
    hide Look, Ansi, Dbl, Special, AllPrint, Doubled, Pieces;
    if s != [] {
      LookIs(s, lang, pr, 0);
      LookSeen(s, lang, pr, 0);
      AnsiIs(s, lang, pr);
      if !Look(s, lang, pr, 0).odd {
        DblIsBytes(s);
        DoubledIs(s);
      }
    }
  }

  /** What is wrong with a rune wherever it stands: a null byte, or in POSIX what does not print. */
  function Fault(lang: Lang, pr: Print, x: Bytes): Option<Problem>
    requires x != []
  {
    if Decode(x).r == 0 then Some(NullByte) else if lang == Posix && !Prints(pr, x) then Some(NoEscapes) else None
  }

  /** What mksh has no escape for. */
  predicate TooBig(lang: Lang, pr: Print, x: Bytes)
    requires x != []
  {
    lang == Mksh && !Prints(pr, x) && Decode(x).r > 0xFFFD
  }

  /** Rune i is the first with a fault. */
  ghost predicate FirstFault(lang: Lang, pr: Print, rs: seq<Bytes>, i: nat)
    requires i <= |rs| && forall j :: 0 <= j < |rs| ==> rs[j] != []
  {
    && (forall j :: 0 <= j < i ==> Fault(lang, pr, rs[j]).None?)
    && (i < |rs| ==> Fault(lang, pr, rs[i]).Some?)
  }

  ghost predicate FirstBig(lang: Lang, pr: Print, rs: seq<Bytes>, i: nat)
    requires i <= |rs| && forall j :: 0 <= j < |rs| ==> rs[j] != []
  {
    && (forall j :: 0 <= j < i ==> !TooBig(lang, pr, rs[j]))
    && (i < |rs| ==> TooBig(lang, pr, rs[i]))
  }

  lemma FlatNext(rs: seq<Bytes>, k: nat)
    requires k < |rs|
    ensures |Flat(rs[..k + 1])| == |rs[0]| + |Flat(rs[1..][..k])| && |Flat(rs[..0])| == 0
  {
    FlatFirst(rs[..k + 1]);
    assert rs[..k + 1][1..] == rs[1..][..k];
  }

  lemma FaultNext(lang: Lang, pr: Print, rs: seq<Bytes>, k: nat)
    requires rs != [] && (forall j :: 0 <= j < |rs| ==> rs[j] != []) && k < |rs|
    requires Fault(lang, pr, rs[0]).None? && FirstFault(lang, pr, rs[1..], k)
    ensures FirstFault(lang, pr, rs, k + 1)
  {
    hide Fault;
    forall j | 0 <= j < k + 1 ensures Fault(lang, pr, rs[j]).None? {
      if j > 0 { assert rs[j] == rs[1..][j - 1]; }
    }
  }

  lemma {:induction false} LookAt(s: Bytes, lang: Lang, pr: Print, offs: nat) returns (i: nat)
    ensures i <= |Runes(s)| && FirstFault(lang, pr, Runes(s), i)
    ensures if i < |Runes(s)| then
              Look(s, lang, pr, offs)
              == Stop(offs + |Flat(Runes(s)[..i])|, Fault(lang, pr, Runes(s)[i]).value)
            else Look(s, lang, pr, offs).Seen?
    decreases |s|
  {
    hide Decode, ShellChar, Flat;
    i := 0;
    if s != [] {
      var n := Decode(s).size;
      RunesAre(s);
      var rs := Runes(s);
      if Fault(lang, pr, rs[0]).Some? {
        FlatNext(rs, 0);
      } else {
        var k := LookAt(s[n..], lang, pr, offs + n);
        i := k + 1;
        FlatNext(rs, k);
        FaultNext(lang, pr, rs, k);
      }
    }
  }

  lemma BigNext(pr: Print, rs: seq<Bytes>, k: nat)
    requires rs != [] && (forall j :: 0 <= j < |rs| ==> rs[j] != []) && k < |rs|
    requires !TooBig(Mksh, pr, rs[0]) && FirstBig(Mksh, pr, rs[1..], k)
    ensures FirstBig(Mksh, pr, rs, k + 1)
  {
    hide TooBig;
    forall j | 0 <= j < k + 1 ensures !TooBig(Mksh, pr, rs[j]) {
      if j > 0 { assert rs[j] == rs[1..][j - 1]; }
    }
  }

  lemma {:induction false} WideAt(s: Bytes, pr: Print, offs: nat) returns (i: nat)
    ensures i <= |Runes(s)| && FirstBig(Mksh, pr, Runes(s), i)
    ensures Wide(s, pr, offs) == if i < |Runes(s)| then Some(offs + |Flat(Runes(s)[..i])|) else None
    decreases |s|
  {
    hide Decode, Flat;
    i := 0;
    if s != [] {
      var n := Decode(s).size;
      RunesAre(s);
      var rs := Runes(s);
      if TooBig(Mksh, pr, rs[0]) {
        FlatNext(rs, 0);
      } else {
        var k := WideAt(s[n..], pr, offs + n);
        i := k + 1;
        FlatNext(rs, k);
        BigNext(pr, rs, k);
      }
    }
  }

  lemma BigIsOdd(pr: Print, rs: seq<Bytes>, i: nat)
    requires i < |rs| && (forall j :: 0 <= j < |rs| ==> rs[j] != []) && TooBig(Mksh, pr, rs[i])
    ensures !AllPrint(pr, rs)
  {
    assert !Prints(pr, rs[i]);
  }

  /**
   * When Quote refuses: the first rune with a fault, at the offset where it starts; without one, in mksh, the first
   * too big to escape. Anything else is quoted.
   */
  lemma RefusedIs(s: Bytes, lang: Lang, pr: Print) returns (i: nat, k: nat)
    ensures var rs := Runes(s);
            && i <= |rs| && FirstFault(lang, pr, rs, i) && k <= |rs| && FirstBig(lang, pr, rs, k)
            && (i < |rs| ==> Quote(s, lang, pr) == Refused(|Flat(rs[..i])|, Fault(lang, pr, rs[i]).value))
            && (i == |rs| && k < |rs| ==> Quote(s, lang, pr) == Refused(|Flat(rs[..k])|, TooWide))
            && (i == |rs| && k == |rs| ==> Quote(s, lang, pr).Done?)
  {
    hide Look, Ansi, Dbl, Wide, Decode, AllPrint, Fault, Special;
    i := LookAt(s, lang, pr, 0);
    if lang == Mksh {
      k := WideAt(s, pr, 0);
      if i == |Runes(s)| { LookIs(s, lang, pr, 0); }
      if k < |Runes(s)| { BigIsOdd(pr, Runes(s), k); }
    } else {
      k := |Runes(s)|;
    }
  }

  // ---------- mksh reads hexadecimal digits on ----------

  /** No escape \x in the text has a third hexadecimal digit after it; a backslash hides the character it precedes. */
  predicate EndsAtTwo(b: Bytes)
    decreases |b|
  {
    if b == [] then true
    else if b[0] != BS then EndsAtTwo(b[1..])
    else if |b| == 1 then true
    else (b[1] == 'x' as int && |b| > 4 ==> !IsHex(b[4])) && EndsAtTwo(b[2..])
  }

  lemma {:induction false} EndsLiteral(p: Bytes, t: Bytes)
    requires (forall i :: 0 <= i < |p| ==> p[i] != BS) && EndsAtTwo(t)
    ensures EndsAtTwo(p + t)
  {
    if p == [] {
      assert p + t == t;
    } else {
      assert (p + t)[0] == p[0] && (p + t)[1..] == p[1..] + t;
      EndsLiteral(p[1..], t);
    }
  }

  lemma EndsPair(c: Byte, u: Bytes)
    requires EndsAtTwo(u) && (c == 'x' as int && |u| > 2 ==> !IsHex(u[2]))
    ensures EndsAtTwo([BS, c] + u)
  {
    var b := [BS, c] + u;
    assert b[2..] == u && (|b| > 4 ==> b[4] == u[2]);
  }

  lemma EndsHex(c: Byte, ds: Bytes, t: Bytes)
    requires (forall i :: 0 <= i < |ds| ==> ds[i] != BS) && EndsAtTwo(t)
    requires c == 'x' as int ==> |ds| == 2 && (t != [] ==> !IsHex(t[0]))
    ensures EndsAtTwo([BS, c] + ds + t)
  {
    hide EndsAtTwo, IsHex;
    EndsLiteral(ds, t);
    var u := ds + t;
    assert c == 'x' as int && |u| > 2 ==> u[2] == t[0];
    EndsPair(c, u);
    assert [BS, c] + ds + t == [BS, c] + u;
  }

  lemma {:induction false} SixteensPlain(n: nat, k: nat)
    ensures forall i :: 0 <= i < k ==> IsHex(Hex(n, k)[i]) && Hex(n, k)[i] != BS
    decreases k
  {
    if k > 0 { SixteensPlain(n / 16, k - 1); }
  }

  /** An escape followed by text that does not go on with a digit where it must not. */
  lemma EscapeEnds(s: Bytes, pr: Print, t: Bytes)
    requires s != [] && EndsAtTwo(t) && (ByByte(s, pr) && t != [] ==> !IsHex(t[0]))
    ensures EndsAtTwo(Escape(s, pr) + t)
  {
    hide Hex, Encode, EndsAtTwo, IsHex;
    var d := Decode(s);
    SixteensPlain(s[0], 2);
    SixteensPlain(d.r, 4);
    SixteensPlain(d.r, 8);
    if d.r == SQ || d.r == BS {
      Encode1(d.r);
      assert [BS] + [d.r] == [BS, d.r];
      EndsPair(d.r, t);
    } else if Plain(pr, d.r) {
      RuneBytes(s);
      EndsLiteral(Encode(d.r), t);
    } else if Letter(d.r).Some? {
      EndsPair(Letter(d.r).value, t);
    } else if ByByte(s, pr) {
      EndsHex('x' as int, Hex(s[0], 2), t);
    } else if d.r < 0x10000 {
      EndsHex('u' as int, Hex(d.r, 4), t);
    } else {
      EndsHex('U' as int, Hex(d.r, 8), t);
    }
  }

  lemma EscapeFirst(s: Bytes, pr: Print)
    requires s != []
    ensures Escape(s, pr) != []
    ensures IsHex(Escape(s, pr)[0]) ==> Plain(pr, Decode(s).r) && IsHex(Decode(s).r)
  {
    hide Hex;
    if Plain(pr, Decode(s).r) { RuneBytes(s); }
  }

  /** So that mksh, which would read \x on, reads it as the two digits meant. */
  lemma {:induction false} MkshEnds(s: Bytes, pr: Print, last: bool)
    ensures var b := Ansi(s, Mksh, pr, last) + [SQ]; EndsAtTwo(b) && (last ==> !IsHex(b[0]))
    decreases |s|
  {
    hide Escape, Decode, ByByte, EndsAtTwo, IsHex, Plain;
    if s == [] {
      QuoteEnds();
      assert Ansi(s, Mksh, pr, last) + [SQ] == [SQ];
    } else {
      var n := Decode(s).size;
      var t := Ansi(s[n..], Mksh, pr, ByByte(s, pr)) + [SQ];
      MkshEnds(s[n..], pr, ByByte(s, pr));
      EscapeEnds(s, pr, t);
      EscapeFirst(s, pr);
      QuoteEnds();
      if Reopens(s, pr, last) {
        EndsLiteral(REOPEN, Escape(s, pr) + t);
        assert Ansi(s, Mksh, pr, last) + [SQ] == REOPEN + (Escape(s, pr) + t);
      } else {
        assert Ansi(s, Mksh, pr, last) + [SQ] == Escape(s, pr) + t;
      }
    }
  }

  lemma QuoteEnds()
    ensures EndsAtTwo([SQ]) && !IsHex(SQ)
  {
    assert [SQ][1..] == [];
  }

  // ---------- escape sequences ----------

  /** Digits to base eight, the last one counting least. */
  function Eights(ds: Bytes): int {
    if ds == [] then 0 else Eights(ds[..|ds| - 1]) * 8 + (ds[|ds| - 1] as int - '0' as int)
  }

  predicate Decimals(ds: Bytes) {
    forall i :: 0 <= i < |ds| ==> DigitFor(ds[i], false)
  }

  predicate Octals(ds: Bytes) {
    forall i :: 0 <= i < |ds| ==> OctalDigit(ds[i])
  }

  /** An octal escape's digits: their value, but 0 from a digit past 7 on and 255 from a value past a byte on. */
  ghost predicate OctalMeans(ds: Bytes, b: Byte) {
    || (Octals(ds) && Eights(ds) == b)
    || exists k :: 0 <= k < |ds| && Octals(ds[..k]) && Eights(ds[..k]) < 256
         && if OctalDigit(ds[k]) then Eights(ds[..k + 1]) > 255 && b == 255 else b == 0
  }

  lemma EightsNext(p: Bytes, c: Byte)
    ensures Eights(p + [c]) == Eights(p) * 8 + (c as int - '0' as int)
  {
    assert (p + [c])[..|p|] == p;
  }

  lemma OctalStops(p: Bytes, q: Bytes, b: Byte)
    requires Octals(p) && Eights(p) < 256 && q != []
    requires if OctalDigit(q[0]) then Eights(p + [q[0]]) > 255 && b == 255 else b == 0
    ensures OctalMeans(p + q, b)
  {
    hide Eights;
    var ds, k := p + q, |p|;
    assert ds[..k] == p && ds[k] == q[0] && ds[..k + 1] == p + [q[0]];
  }

  lemma OctalRule(q: Bytes, n: int)
    requires q != [] && Decimals(q) && 0 <= n < 256
    ensures var m := n * 8 + (q[0] as int - '0' as int);
            if !OctalDigit(q[0]) then Octal(q, n) == 0
            else if m > 255 then Octal(q, n) == 255
            else 0 <= m && Decimals(q[1..]) && Octal(q, n) == Octal(q[1..], m)
  {
    assert DigitFor(q[0], false);
  }

  lemma {:induction false} OctalIs(p: Bytes, q: Bytes)
    requires Octals(p) && Decimals(q) && 0 <= Eights(p) < 256
    ensures OctalMeans(p + q, Octal(q, Eights(p)))
    decreases |q|
  {
    hide Octal, OctalMeans, Eights, OctalDigit, DigitFor;
    if q == [] {
      OctalWhole(p);
      assert p + q == p;
    } else {
      OctalRule(q, Eights(p));
      EightsNext(p, q[0]);
      if OctalDigit(q[0]) && Eights(p + [q[0]]) < 256 {
        OctalIs(p + [q[0]], q[1..]);
        assert p + [q[0]] + q[1..] == p + q;
      } else {
        OctalStops(p, q, Octal(q, Eights(p)));
      }
    }
  }

  lemma OctalWhole(p: Bytes)
    requires Octals(p) && 0 <= Eights(p) < 256
    ensures OctalMeans(p, Octal([], Eights(p)))
  { }

  // One-letter escapes and what they write.
  const NAMES := "abeEfnrtv\\'\"?"
  const CODES: Bytes := [7, 8, 27, 27, 12, 10, 13, 9, 11, 92, 39, 34, 63]

  /** The longest run of digits, up to a limit. */
  lemma {:induction false} ReadRun(ds: Bytes, f: Bytes, max: nat, hex: bool)
    requires |ds| <= max && (forall i :: 0 <= i < |ds| ==> DigitFor(ds[i], hex))
    requires |ds| == max || f == [] || !DigitFor(f[0], hex)
    ensures ReadDigits(ds + f, max, hex) == ds
    decreases |ds|
  {
    if ds == [] {
      assert ds + f == f;
    } else {
      assert DigitFor(ds[0], hex);
      assert (ds + f)[0] == ds[0] && (ds + f)[1..] == ds[1..] + f;
      ReadRun(ds[1..], f, max - 1, hex);
    }
  }

  lemma Parts(h: Bytes, ds: Bytes, f: Bytes)
    ensures var g := h + ds + f;
            && g[|h|..] == ds + f && g[|h| + |ds|..] == f && (forall i :: 0 <= i < |h| ==> g[i] == h[i])
            && (ds != [] ==> g[|h|] == ds[0])
            && (ds == [] ==> g == h + f)
  { }

  /** What does not start an escape stands for itself, and so does a backslash at the end. */
  lemma NoEscape(c: Byte, f: Bytes)
    ensures c != BS ==> Fmt([c] + f) == [c] + Fmt(f)
    ensures Fmt([BS]) == [BS] && Fmt([]) == []
  {
    assert ([c] + f)[1..] == f;
  }

  lemma LetterEscape(i: nat, f: Bytes)
    requires i < |NAMES|
    ensures Fmt([BS, NAMES[i] as int] + f) == [CODES[i]] + Fmt(f)
  {
    NamesAre(i);
    FmtSimple(NAMES[i] as int, f);
  }

  lemma NamesAre(i: nat)
    requires i < |NAMES|
    ensures |CODES| == |NAMES| && Simple(NAMES[i] as int) == Some(CODES[i])
  { }

  /** Up to three decimal digits after a backslash, the first of them octal. */
  lemma OctalEscape(ds: Bytes, f: Bytes)
    requires 0 < |ds| <= 3 && Decimals(ds) && OctalDigit(ds[0])
    requires |ds| == 3 || f == [] || !DigitFor(f[0], false)
    ensures exists b :: OctalMeans(ds, b) && Fmt([BS] + ds + f) == [b] + Fmt(f)
  {
    hide OctalMeans, ReadDigits, Octal, OctalDigit, DigitFor, Fmt;
    var g := [BS] + ds + f;
    Parts([BS], ds, f);
    ReadRun(ds, f, 3, false);
    FmtOctal(g);
    OctalFirst(ds);
  }

  lemma OctalFirst(ds: Bytes)
    requires Decimals(ds)
    ensures OctalMeans(ds, Octal(ds, 0))
  {
    hide Octal, OctalMeans;
    OctalIs([], ds);
    assert [] + ds == ds;
  }

  lemma FmtOctal(g: Bytes)
    requires |g| >= 2 && g[0] == BS && OctalDigit(g[1])
    ensures var ds := ReadDigits(g[1..], 3, false); Fmt(g) == [Octal(ds, 0)] + Fmt(g[1 + |ds|..])
  {
    hide Octal, ReadDigits;
    NoLetter(g[1]);
  }

  lemma NoLetter(c: Byte)
    requires OctalDigit(c)
    ensures Simple(c).None?
  { }

  /** Up to two, four or eight hexadecimal digits after x, u or U: a byte, or a code point's bytes. */
  lemma HexEscape(c: Byte, ds: Bytes, f: Bytes)
    requires c == 'x' as int || c == 'u' as int || c == 'U' as int
    requires var max := if c == 'x' as int then 2 else if c == 'u' as int then 4 else 8;
             && |ds| <= max && (forall i :: 0 <= i < |ds| ==> IsHex(ds[i]))
             && (|ds| == max || f == [] || !IsHex(f[0]))
    ensures Fmt([BS, c] + ds + f)
         == if ds == [] then [BS, c] + Fmt(f)
            else (if c == 'x' as int then [ParseHex(ds) % 256] else Encode(ParseHex(ds))) + Fmt(f)
  {
    hide ParseHex, Encode, IsHex, DigitFor, ReadDigits, Fmt;
    var max := if c == 'x' as int then 2 else if c == 'u' as int then 4 else 8;
    var g := [BS, c] + ds + f;
    Parts([BS, c], ds, f);
    HexDigits();
    ReadRun(ds, f, max, true);
    FmtLetter(c, g);
  }

  lemma HexDigits()
    ensures forall c: Byte :: DigitFor(c, true) <==> IsHex(c)
  { }

  lemma FmtLetter(c: Byte, g: Bytes)
    requires |g| >= 2 && g[0] == BS && g[1] == c && (c == 'x' as int || c == 'u' as int || c == 'U' as int)
    ensures var ds := ReadDigits(g[2..], if c == 'x' as int then 2 else if c == 'u' as int then 4 else 8, true);
            Fmt(g) == if ds == [] then [BS, c] + Fmt(g[2..])
                else (if c == 'x' as int then [ParseHex(ds) % 256] else Encode(ParseHex(ds))) + Fmt(g[2 + |ds|..])
  {
    hide ParseHex, Encode, ReadDigits;
  }

  /** Any other character keeps its backslash. */
  lemma OtherEscape(c: Byte, f: Bytes)
    requires c as char !in NAMES && !('0' as int <= c <= '7' as int)
    requires c != 'x' as int && c != 'u' as int && c != 'U' as int
    ensures Fmt([BS, c] + f) == [BS, c] + Fmt(f)
  {
    OtherLetter(c);
    assert ([BS, c] + f)[2..] == f;
  }

  lemma OtherLetter(c: Byte)
    requires c as char !in NAMES
    ensures Simple(c).None?
  { }

  /** Hexadecimal digits of either case. */
  lemma HexValues(d: nat)
    requires d < 16
    ensures HexValue(SIXTEEN[d] as int) == d && HexValue("0123456789ABCDEF"[d] as int) == d
    ensures forall c :: IsHex(c) <==> 0 <= c < 256 && (c as char in SIXTEEN || c as char in "ABCDEF")
  { }

  // ---------- reading double quotes ----------

  /** A literal inside double quotes: a backslash goes before one of four characters, and stays anywhere else. */
  lemma UndoubleIs(c: Byte, t: Bytes)
    ensures c != BS ==> Undouble([c] + t) == [c] + Undouble(t)
    ensures Undouble([BS, c] + t)
         == if c as char in "\"\\`$" then [c] + Undouble(t) else [BS] + Undouble([c] + t)
    ensures Undouble([BS]) == [BS] && Undouble([]) == []
  {
    assert ([c] + t)[1..] == t && ([BS, c] + t)[1..] == [c] + t && ([BS, c] + t)[2..] == t;
    assert [BS][1..] == [];
  }
}

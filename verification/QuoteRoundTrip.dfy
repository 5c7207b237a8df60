/** Whatever Quote returns reads back as the string it was given. */
module QuoteRoundTrip {
  import opened Basics
  import opened Utf8
  import opened Quoting

  // ---------- single quotes ----------

  lemma {:induction false} SingleBody(s: Bytes, t: Bytes)
    requires SQ !in s
    ensures TakeSingle(s + [SQ] + t) == Some(Taken(s, t))
  {
    var q := s + [SQ] + t;
    if s == [] {
      assert q[1..] == t;
    } else {
      assert q[0] == s[0] && q[1..] == s[1..] + [SQ] + t;
      SingleBody(s[1..], t);
      assert [s[0]] + s[1..] == s;
    }
  }

  // ---------- double quotes ----------

  /** Dbl byte by byte: escaping before encoding, as valid text allows. */
  function DblBytes(s: Bytes): Bytes {
    if s == [] then [] else (if InDouble(s[0]) then [BS, s[0]] else [s[0]]) + DblBytes(s[1..])
  }

  lemma {:induction false} DblPlain(p: Bytes, t: Bytes)
    requires forall i :: 0 <= i < |p| ==> p[i] >= RUNE_SELF
    ensures DblBytes(p + t) == p + DblBytes(t)
  {
    if p == [] {
      assert p + t == t;
    } else {
      assert (p + t)[0] == p[0] && (p + t)[1..] == p[1..] + t;
      DblPlain(p[1..], t);
      assert p == [p[0]] + p[1..];
    }
  }

  /** A good rune is its own encoding: one ASCII byte, or bytes past ASCII. */
  lemma RuneBytes(s: Bytes)
    requires s != [] && !Bad(Decode(s))
    ensures Encode(Decode(s).r) == s[..Decode(s).size]
    ensures Decode(s).r < RUNE_SELF ==> s[..Decode(s).size] == [s[0]] && Decode(s).r == s[0]
    ensures Decode(s).r >= RUNE_SELF ==> forall i :: 0 <= i < Decode(s).size ==> s[i] >= RUNE_SELF
  {
    DecodeEncode(s);
    if Decode(s).r >= RUNE_SELF { HighBytes(s); }
  }

  lemma {:induction false} DblIsBytes(s: Bytes)
    requires Valid(s)
    ensures Dbl(s) == DblBytes(s)
    decreases |s|
  {
    hide Decode, Encode, DblBytes, Dbl, Valid;
    if s == [] {
      DblOne([], []);
      DblUnfold(s);
    } else {
      var n := Decode(s).size;
      DblUnfold(s);
      DblIsBytes(s[n..]);
      RuneBytes(s);
      DblOne(s[..n], s[n..]);
      assert s == s[..n] + s[n..];
      if Decode(s).r >= RUNE_SELF { DblPlain(s[..n], s[n..]); }
    }
  }

  lemma DblUnfold(s: Bytes)
    requires Valid(s)
    ensures s == [] ==> Dbl(s) == []
    ensures s != [] ==> !Bad(Decode(s)) && Valid(s[Decode(s).size..])
    ensures s != [] ==>
              Dbl(s) == (if InDouble(Decode(s).r) then [BS] else []) + Encode(Decode(s).r) + Dbl(s[Decode(s).size..])
  {
    hide Decode, Encode;
  }

  lemma DblOne(p: Bytes, t: Bytes)
    ensures DblBytes([]) == []
    ensures |p| == 1 ==> DblBytes(p + t) == (if InDouble(p[0]) then [BS, p[0]] else p) + DblBytes(t)
  {
    if |p| == 1 { assert (p + t)[1..] == t; }
  }

  lemma {:induction false} DoubleBody(s: Bytes, t: Bytes)
    ensures TakeDouble(DblBytes(s) + [DQ] + t) == Some(Taken(DblBytes(s), t)) && Undouble(DblBytes(s)) == s
  {
    hide TakeDouble, Undouble;
    var b := DblBytes(s);
    if s == [] {
      DoubleEnd(t);
      assert b + [DQ] + t == [DQ] + t;
    } else {
      var r := DblBytes(s[1..]);
      DoubleBody(s[1..], t);
      TakeDoubleStep(s[0], r, t);
      UndoubleStep(s[0], r);
      assert s == [s[0]] + s[1..];
    }
  }

  lemma DoubleEnd(t: Bytes)
    ensures TakeDouble([DQ] + t) == Some(Taken([], t)) && Undouble([]) == []
  {
    assert ([DQ] + t)[1..] == t;
  }

  lemma TakeEscaped(c: Byte, u: Bytes)
    ensures TakeDouble([BS, c] + u) == Prepend([BS, c], TakeDouble(u))
  {
    assert ([BS, c] + u)[2..] == u;
  }

  lemma TakeOne(c: Byte, u: Bytes)
    requires !InDouble(c)
    ensures TakeDouble([c] + u) == Prepend([c], TakeDouble(u))
  {
    assert ([c] + u)[1..] == u;
  }

  lemma TakeDoubleStep(c: Byte, r: Bytes, t: Bytes)
    requires TakeDouble(r + [DQ] + t) == Some(Taken(r, t))
    ensures var b := (if InDouble(c) then [BS, c] else [c]) + r; TakeDouble(b + [DQ] + t) == Some(Taken(b, t))
  {
    hide TakeDouble;
    var u := r + [DQ] + t;
    if InDouble(c) {
      TakeEscaped(c, u);
      assert [BS, c] + r + [DQ] + t == [BS, c] + u;
    } else {
      TakeOne(c, u);
      assert [c] + r + [DQ] + t == [c] + u;
    }
  }

  lemma UndoubleStep(c: Byte, r: Bytes)
    ensures Undouble((if InDouble(c) then [BS, c] else [c]) + r) == [c] + Undouble(r)
  {
    var b := (if InDouble(c) then [BS, c] else [c]) + r;
    if InDouble(c) { assert b[2..] == r; } else { assert b[1..] == r; }
  }

  // ---------- $'...' ----------

  /** Bytes that stand for themselves inside $'...'. */
  predicate Literal(p: Bytes) {
    forall i :: 0 <= i < |p| ==> p[i] != SQ && p[i] != BS
  }

  lemma {:induction false} TakeLiteral(p: Bytes, t: Bytes)
    requires Literal(p)
    ensures TakeDollar(p + t) == Prepend(p, TakeDollar(t))
  {
    if p == [] {
      assert p + t == t;
      if TakeDollar(t).Some? { assert [] + TakeDollar(t).value.body == TakeDollar(t).value.body; }
    } else {
      assert (p + t)[0] == p[0] && (p + t)[1..] == p[1..] + t;
      TakeLiteral(p[1..], t);
      if TakeDollar(t).Some? { assert [p[0]] + (p[1..] + TakeDollar(t).value.body) == p + TakeDollar(t).value.body; }
    }
  }

  lemma {:induction false} FmtLiteral(p: Bytes, f: Bytes)
    requires Literal(p)
    ensures Fmt(p + f) == p + Fmt(f)
  {
    if p == [] {
      assert p + f == f;
    } else {
      assert (p + f)[0] == p[0] && (p + f)[1..] == p[1..] + f;
      FmtLiteral(p[1..], f);
      assert [p[0]] + (p[1..] + Fmt(f)) == p + Fmt(f);
    }
  }

  lemma TakePair(c: Byte, t: Bytes)
    ensures TakeDollar([BS, c] + t) == Prepend([BS, c], TakeDollar(t))
  {
    assert ([BS, c] + t)[2..] == t;
  }

  lemma FmtSimple(c: Byte, f: Bytes)
    requires Simple(c).Some?
    ensures Fmt([BS, c] + f) == [Simple(c).value] + Fmt(f)
  {
    assert ([BS, c] + f)[2..] == f;
  }

  lemma {:induction false} ReadAll(ds: Bytes, f: Bytes)
    requires forall i :: 0 <= i < |ds| ==> IsHex(ds[i])
    ensures ReadDigits(ds + f, |ds|, true) == ds
  {
    if ds != [] {
      assert (ds + f)[0] == ds[0] && (ds + f)[1..] == ds[1..] + f;
      assert IsHex(ds[0]);
      ReadAll(ds[1..], f);
    }
  }

  lemma FmtHex(c: Byte, ds: Bytes, f: Bytes)
    requires HexLetter(c) && |ds| == HexMax(c) && forall i :: 0 <= i < |ds| ==> IsHex(ds[i])
    ensures Fmt([BS, c] + ds + f) == HexWrites(c, ParseHex(ds)) + Fmt(f)
  {
    var g := [BS, c] + ds + f;
    assert g[2..] == ds + f && g[2 + |ds|..] == f;
    ReadAll(ds, f);
  }

  function Pow16(k: nat): nat {
    if k == 0 then 1 else 16 * Pow16(k - 1)
  }

  lemma {:induction false} HexBack(n: nat, k: nat)
    requires n < Pow16(k)
    ensures (forall i :: 0 <= i < k ==> IsHex(Hex(n, k)[i])) && ParseHex(Hex(n, k)) == n
    decreases k
  {
    if k > 0 {
      HexBack(n / 16, k - 1);
      var h := Hex(n / 16, k - 1);
      assert Hex(n, k)[..k - 1] == h;
      assert HexValue(HexDigit(n % 16)) == n % 16;
    }
  }

  lemma HexLimits()
    ensures Pow16(2) == 256 && Pow16(4) == 0x10000 && Pow16(8) == 0x1_0000_0000
  {
    assert Pow16(1) == 16;
    assert Pow16(3) == 4096;
    assert Pow16(5) == 16 * Pow16(4);
    assert Pow16(6) == 16 * Pow16(5);
    assert Pow16(7) == 16 * Pow16(6);
  }

  /** A piece of $'...' text is read whole and stands for x. */
  ghost predicate Means(e: Bytes, x: Bytes, t: Bytes, f: Bytes) {
    TakeDollar(e + t) == Prepend(e, TakeDollar(t)) && Fmt(e + f) == x + Fmt(f)
  }

  lemma MeansLiteral(p: Bytes, t: Bytes, f: Bytes)
    requires Literal(p)
    ensures Means(p, p, t, f)
  {
    TakeLiteral(p, t);
    FmtLiteral(p, f);
  }

  lemma MeansSimple(c: Byte, t: Bytes, f: Bytes)
    requires Simple(c).Some?
    ensures Means([BS, c], [Simple(c).value], t, f)
  {
    TakePair(c, t);
    FmtSimple(c, f);
  }

  lemma HexLiteral(ds: Bytes)
    requires forall i :: 0 <= i < |ds| ==> IsHex(ds[i])
    ensures Literal(ds)
  { }

  lemma MeansHex(c: Byte, n: nat, k: nat, t: Bytes, f: Bytes)
    requires HexLetter(c) && k == HexMax(c) && n < Pow16(k)
    ensures Means([BS, c] + Hex(n, k), HexWrites(c, n), t, f)
  {
    hide Fmt, TakeDollar, Hex, ParseHex, HexWrites, IsHex, Pow16;
    var ds := Hex(n, k);
    HexBack(n, k);
    FmtHex(c, ds, f);
    HexLiteral(ds);
    TakeLiteral(ds, t);
    assert [BS, c] + ds + t == [BS, c] + (ds + t);
    TakePair(c, ds + t);
    if TakeDollar(t).Some? {
      assert [BS, c] + (ds + TakeDollar(t).value.body) == [BS, c] + ds + TakeDollar(t).value.body;
    }
  }

  /** The escape of a rune stands for exactly the rune's bytes. */
  lemma EscapeMeans(s: Bytes, pr: Print, t: Bytes, f: Bytes)
    requires s != []
    ensures Means(Escape(s, pr), s[..Decode(s).size], t, f)
  {
    hide Means, Fmt, TakeDollar, Hex, Pow16;
    var d := Decode(s);
    var x := s[..d.size];
    HexLimits();
    if !Bad(d) { DecodeEncode(s); }
    if d.r < RUNE_SELF {
      assert x == [s[0]];
      if d.r == SQ || d.r == BS {
        Encode1(d.r);
        assert [BS] + [s[0]] == [BS, s[0]];
        MeansSimple(s[0], t, f);
      } else if Plain(pr, d.r) {
        MeansLiteral(x, t, f);
      } else if Letter(d.r).Some? {
        MeansSimple(Letter(d.r).value, t, f);
      } else {
        MeansHex('x' as int, s[0], 2, t, f);
      }
    } else if Plain(pr, d.r) {
      HighBytes(s);
      assert Literal(x);
      MeansLiteral(x, t, f);
    } else if Bad(d) {
      assert x == [s[0]];
      MeansHex('x' as int, s[0], 2, t, f);
    } else if d.r < 0x10000 {
      MeansHex('u' as int, d.r, 4, t, f);
    } else {
      MeansHex('U' as int, d.r, 8, t, f);
    }
  }

  /** Reading on inside $'...'. */
  function Inside(t: Bytes): Option<Bytes> {
    var k := TakeDollar(t);
    if k.None? then None else Cat(Cut(Fmt(k.value.body)), Word(k.value.rest))
  }

  lemma {:induction false} CutAppend(x: Bytes, f: Bytes)
    requires 0 !in x
    ensures Cut(x + f) == x + Cut(f)
  {
    if x == [] {
      assert x + f == f;
    } else {
      assert (x + f)[0] == x[0] && (x + f)[1..] == x[1..] + f;
      CutAppend(x[1..], f);
      assert [x[0]] + (x[1..] + Cut(f)) == x + Cut(f);
    }
  }

  lemma InsideTakes(t: Bytes)
    requires Inside(t).Some?
    ensures TakeDollar(t).Some?
  { }

  lemma InsidePiece(e: Bytes, x: Bytes, t: Bytes, v: Bytes)
    requires TakeDollar(t).Some? && Means(e, x, t, TakeDollar(t).value.body) && 0 !in x && Inside(t) == Some(v)
    ensures Inside(e + t) == Some(x + v)
  {
    hide Fmt, Word, TakeDollar, Cut;
    var k := TakeDollar(t).value;
    CutAppend(x, Fmt(k.body));
    var w := Word(k.rest).value;
    assert x + Cut(Fmt(k.body)) + w == x + (Cut(Fmt(k.body)) + w);
  }

  lemma InsideReopen(t: Bytes)
    requires Inside(t).Some?
    ensures Inside(REOPEN + t) == Inside(t)
  {
    var q := [DOLLAR, SQ] + t;
    assert REOPEN + t == [SQ] + q;
    assert (REOPEN + t)[1..] == q && q[2..] == t;
    assert TakeDollar(REOPEN + t) == Some(Taken([], q));
    assert Word(q) == Inside(t);
    assert [] + Inside(t).value == Inside(t).value;
  }

  /** For every byte string without nulls, the text between $' and the closing quote reads back as the string. */
  lemma {:induction false} AnsiInside(s: Bytes, lang: Lang, pr: Print, last: bool)
    requires 0 !in s
    ensures Inside(Ansi(s, lang, pr, last) + [SQ]) == Some(s)
    decreases |s|
  {
    hide Escape, Means, Fmt, Word, Cut, TakeDollar, Inside, Decode, ByByte, Reopens;
    if s == [] {
      InsideEnd();
      assert Ansi(s, lang, pr, last) + [SQ] == [SQ];
    } else {
      var n := Decode(s).size;
      var rest := Ansi(s[n..], lang, pr, lang == Mksh && ByByte(s, pr));
      var t := rest + [SQ];
      var e := Escape(s, pr);
      AnsiInside(s[n..], lang, pr, lang == Mksh && ByByte(s, pr));
      InsideTakes(t);
      EscapeMeans(s, pr, t, TakeDollar(t).value.body);
      InsidePiece(e, s[..n], t, s[n..]);
      assert s[..n] + s[n..] == s;
      if Reopens(s, pr, last) {
        InsideReopen(e + t);
        assert REOPEN + e + rest + [SQ] == REOPEN + (e + t);
      } else {
        assert [] + e + rest + [SQ] == e + t;
      }
    }
  }

  lemma InsideEnd()
    ensures Inside([SQ]) == Some([])
  {
    assert [SQ][1..] == [];
    assert TakeDollar([SQ]) == Some(Taken([], []));
    assert [] + Word([]).value == [];
  }

  // ---------- bare words ----------

  predicate BareText(s: Bytes) {
    forall i :: 0 <= i < |s| ==> !ShellChar(s[i])
  }

  lemma {:induction false} BareWhole(s: Bytes)
    requires BareText(s)
    ensures TakeBare(s) == Taken(s, [])
  {
    if s != [] {
      BareWhole(s[1..]);
      assert [s[0]] + s[1..] == s;
    }
  }

  lemma {:induction false} BareWord(s: Bytes)
    requires s != [] && BareText(s)
    ensures Word(s) == Some(s)
  {
    BareWhole(s);
    assert !ShellChar(s[0]);
    assert s + [] == s;
  }

  // ---------- what the first loop finds out ----------

  /**
   * A survey that stops nowhere has seen every rune: no null, and what it reports about shell and odd characters is
   * so.
   */
  lemma {:induction false} LookSeen(s: Bytes, lang: Lang, pr: Print, offs: nat)
    requires Look(s, lang, pr, offs).Seen?
    ensures 0 !in s
    ensures !Look(s, lang, pr, offs).shell ==> BareText(s)
    ensures !Look(s, lang, pr, offs).odd ==> Valid(s)
    ensures lang == Posix ==> !Look(s, lang, pr, offs).odd
    decreases |s|
  {
    hide Decode;
    if s != [] {
      var n := Decode(s).size;
      LookSeen(s[n..], lang, pr, offs + n);
      FirstBytes(s);
      forall i | n <= i < |s| ensures s[i] == s[n..][i - n] { }
    }
  }

  /** The bytes of a rune past ASCII are no shell characters and not null. */
  lemma FirstBytes(s: Bytes)
    requires s != []
    ensures Decode(s).r < RUNE_SELF ==> Decode(s).size == 1 && s[0] == Decode(s).r
    ensures Decode(s).r >= RUNE_SELF ==> forall i :: 0 <= i < Decode(s).size ==> s[i] >= RUNE_SELF
  { }

  /** What stops the survey is the first null byte. */
  lemma {:induction false} LookStops(s: Bytes, lang: Lang, pr: Print, offs: nat)
    requires Look(s, lang, pr, offs).Stop? && lang != Posix
    ensures var o := Look(s, lang, pr, offs).offset;
            Look(s, lang, pr, offs).why == NullByte && offs <= o < offs + |s| && s[o - offs] == 0 && 0 !in s[..o - offs]
    decreases |s|
  {
    hide Decode;
    var d := Decode(s);
    var n := d.size;
    FirstBytes(s);
    if d.r != 0 {
      LookStops(s[n..], lang, pr, offs + n);
      var o := Look(s, lang, pr, offs).offset;
      assert s[..o - offs] == s[..n] + s[n..][..o - offs - n];
    }
  }

  // ---------- the output is text the lexer takes as it is ----------

  /** unicode.IsPrint on ASCII: no control characters. */
  ghost predicate AsciiPrint(pr: Print) {
    forall r :: 0 <= r < RUNE_SELF && pr(r) ==> 32 <= r < 127
  }

  predicate Clean(q: Bytes) {
    NoControls(q) && Valid(q)
  }

  lemma CleanAscii(q: Bytes)
    requires NoControls(q) && Ascii(q)
    ensures Clean(q)
  {
    AsciiValid(q);
  }

  lemma CleanConcat(p: Bytes, q: Bytes)
    requires Clean(p) && Clean(q)
    ensures Clean(p + q)
  {
    ValidConcat(p, q);
  }

  lemma {:induction false} HexClean(n: nat, k: nat)
    ensures NoControls(Hex(n, k)) && Ascii(Hex(n, k))
    decreases k
  {
    if k > 0 { HexClean(n / 16, k - 1); }
  }

  lemma EscapeClean(s: Bytes, pr: Print)
    requires s != [] && AsciiPrint(pr)
    ensures Clean(Escape(s, pr))
  {
    hide Hex, Clean;
    var d := Decode(s);
    var e := Escape(s, pr);
    HexClean(s[0], 2);
    HexClean(d.r, 4);
    HexClean(d.r, 8);
    if d.r < RUNE_SELF {
      Encode1(d.r);
      CleanAscii(e);
    } else if Plain(pr, d.r) {
      RuneBytes(s);
      RuneValid(s);
      HighClean(s[..d.size]);
    } else {
      CleanAscii(e);
    }
  }

  lemma HighClean(p: Bytes)
    requires Valid(p) && forall i :: 0 <= i < |p| ==> p[i] >= RUNE_SELF
    ensures Clean(p)
  { }

  lemma {:induction false} AnsiClean(s: Bytes, lang: Lang, pr: Print, last: bool)
    requires AsciiPrint(pr)
    ensures Clean(Ansi(s, lang, pr, last))
    decreases |s|
  {
    hide Escape, Clean, Decode, ByByte, Reopens;
    if s == [] {
      CleanAscii([]);
    } else {
      var n := Decode(s).size;
      AnsiClean(s[n..], lang, pr, lang == Mksh && ByByte(s, pr));
      EscapeClean(s, pr);
      CleanAscii(REOPEN);
      CleanAscii([]);
      var open := if Reopens(s, pr, last) then REOPEN else [];
      CleanConcat(open, Escape(s, pr));
      CleanConcat(open + Escape(s, pr), Ansi(s[n..], lang, pr, lang == Mksh && ByByte(s, pr)));
    }
  }

  /** A text of plain characters has no control characters in it. */
  lemma {:induction false} LookClean(s: Bytes, lang: Lang, pr: Print, offs: nat)
    requires AsciiPrint(pr) && Look(s, lang, pr, offs).Seen? && !Look(s, lang, pr, offs).odd
    ensures NoControls(s)
    decreases |s|
  {
    hide Decode;
    if s != [] {
      var n := Decode(s).size;
      LookClean(s[n..], lang, pr, offs + n);
      FirstBytes(s);
      forall i | n <= i < |s| ensures s[i] == s[n..][i - n] { }
    }
  }

  lemma {:induction false} DblBytesControls(s: Bytes)
    requires NoControls(s)
    ensures NoControls(DblBytes(s))
  {
    if s != [] { DblBytesControls(s[1..]); }
  }

  lemma {:induction false} DblValid(s: Bytes)
    requires Valid(s)
    ensures Valid(Dbl(s))
    decreases |s|
  {
    hide Decode, Encode, Valid, Dbl;
    DblUnfold(s);
    if s == [] {
      AsciiValid([]);
    } else {
      var n := Decode(s).size;
      DblValid(s[n..]);
      RuneBytes(s);
      RuneValid(s);
      var slash: Bytes := if InDouble(Decode(s).r) then [BS] else [];
      AsciiValid(slash);
      ValidConcat(slash, s[..n]);
      ValidConcat(slash + s[..n], Dbl(s[n..]));
    }
  }

  /** What IsKeyword lacks of the reserved words, one by one. */
  lemma UnlistedAre(lang: Lang)
    ensures Unlisted(lang) == Reserved(lang) - KEYWORDS
  {
    hide Unlisted, Reserved;
    UnlistedReserved(lang);
    UnlistedNew(lang);
  }

  lemma UnlistedReserved(lang: Lang)
    ensures Unlisted(lang) <= Reserved(lang) <= KEYWORDS + Unlisted(lang)
  { }

  lemma UnlistedNew(lang: Lang)
    ensures Unlisted(lang) !! KEYWORDS
  {
    assert "elif" !in KEYWORDS && "let" !in KEYWORDS && "local" !in KEYWORDS && "export" !in KEYWORDS;
    assert "readonly" !in KEYWORDS && "typeset" !in KEYWORDS && "nameref" !in KEYWORDS && "declare" !in KEYWORDS;
  }

  lemma UnlistedLetters(lang: Lang, w: string)
    requires w in Unlisted(lang)
    ensures w != "" && forall i :: 0 <= i < |w| ==> 'a' <= w[i] <= 'z'
  { }

  /** What starts with a quote is no reserved word. */
  lemma QuotedIsFree(lang: Lang, q: Bytes)
    requires q != [] && (q[0] == SQ || q[0] == DQ || q[0] == DOLLAR)
    ensures !IsReserved(lang, q) && !IsKeyword(q)
  {
    hide Unlisted, Reserved;
    var c := Text(q)[0];
    assert c == '\'' || c == '"' || c == '$';
    assert forall k :: k in KEYWORDS ==> k != "" && k[0] != '\'' && k[0] != '"' && k[0] != '$';
    UnlistedReserved(lang);
    if Text(q) in Unlisted(lang) { UnlistedLetters(lang, Text(q)); }
  }

  // ---------- the theorems ----------

  /** Quoting then expanding: every string Quote accepts comes back exactly, whichever form was chosen. */
  lemma QuoteExpands(s: Bytes, lang: Lang, pr: Print)
    requires AsciiPrint(pr) && Quote(s, lang, pr).Done?
    ensures Expand(Quote(s, lang, pr).q) == Some(s) && !IsKeyword(Quote(s, lang, pr).q)
  {
    hide Look, Ansi, Dbl, Word, Valid, NoControls, IsKeyword;
    var q := Quote(s, lang, pr).q;
    QuoteStarts(s, lang, pr);
    if s == [] {
      EmptyQuoted();
    } else {
      LookSeen(s, lang, pr, 0);
      var look := Look(s, lang, pr, 0);
      if look.odd {
        AnsiQuoted(s, lang, pr);
      } else {
        LookClean(s, lang, pr, 0);
        if !look.shell && !IsKeyword(s) {
          BareWord(s);
        } else if SQ !in s {
          SingleQuoted(s);
        } else {
          DoubleQuoted(s);
        }
      }
    }
  }

  /** Quote leaves its input as it is, if that is no keyword by its own list, or starts with a quote. */
  lemma QuoteStarts(s: Bytes, lang: Lang, pr: Print)
    requires Quote(s, lang, pr).Done?
    ensures var q := Quote(s, lang, pr).q;
            || (q == s && s != [] && !IsKeyword(s) && !Look(s, lang, pr, 0).shell)
            || (!IsReserved(lang, q) && !IsKeyword(q))
  {
    hide Look, Ansi, Dbl, IsKeyword, IsReserved;
    var q := Quote(s, lang, pr).q;
    if s == [] || Look(s, lang, pr, 0).odd || Look(s, lang, pr, 0).shell || IsKeyword(s) {
      QuotedIsFree(lang, q);
    }
  }

  lemma EmptyQuoted()
    ensures Expand([SQ, SQ]) == Some([])
  {
    CleanAscii([SQ, SQ]);
    assert [SQ, SQ] == [SQ] + [] + [SQ];
    SingleQuoted([]) by { AsciiValid([]); }
  }

  lemma SingleQuoted(s: Bytes)
    requires SQ !in s && NoControls(s) && Valid(s)
    ensures Expand([SQ] + s + [SQ]) == Some(s)
  {
    hide TakeSingle, Valid, IsKeyword;
    var q := [SQ] + s + [SQ];
    CleanAscii([SQ]);
    CleanConcat([SQ], s);
    CleanConcat([SQ] + s, [SQ]);
    SingleBody(s, []);
    assert q[1..] == s + [SQ] + [];
    WordEnd();
    assert s + [] == s;
  }

  lemma WordEnd()
    ensures Word([]) == Some([])
  { }

  lemma DoubleQuoted(s: Bytes)
    requires NoControls(s) && Valid(s)
    ensures Expand([DQ] + Dbl(s) + [DQ]) == Some(s)
  {
    hide TakeDouble, Undouble, Valid, Dbl, DblBytes, IsKeyword;
    var b := Dbl(s);
    var q := [DQ] + b + [DQ];
    DblIsBytes(s);
    DblBytesControls(s);
    DblValid(s);
    CleanAscii([DQ]);
    CleanConcat([DQ], b);
    CleanConcat([DQ] + b, [DQ]);
    DoubleBody(s, []);
    assert q[1..] == b + [DQ] + [];
    WordEnd();
    assert s + [] == s;
  }

  lemma AnsiQuoted(s: Bytes, lang: Lang, pr: Print)
    requires 0 !in s && AsciiPrint(pr)
    ensures Expand([DOLLAR, SQ] + Ansi(s, lang, pr, false) + [SQ]) == Some(s)
  {
    hide Ansi, Valid, TakeDollar, Fmt, Cut, IsKeyword;
    var b := Ansi(s, lang, pr, false);
    var q := [DOLLAR, SQ] + b + [SQ];
    AnsiClean(s, lang, pr, false);
    CleanAscii([DOLLAR, SQ]);
    CleanAscii([SQ]);
    CleanConcat([DOLLAR, SQ], b);
    CleanConcat([DOLLAR, SQ] + b, [SQ]);
    AnsiInside(s, lang, pr, false);
    assert q[2..] == b + [SQ];
    assert Word(q) == Inside(b + [SQ]);
  }

  // ---------- the start of a command ----------

  /** unicode.IsPrint on ASCII. */
  ghost predicate AsciiExact(pr: Print) {
    forall r :: 0 <= r < RUNE_SELF ==> (pr(r) <==> 32 <= r < 127)
  }

  lemma {:induction false} LookPlain(s: Bytes, lang: Lang, pr: Print, offs: nat)
    requires AsciiExact(pr) && forall i :: 0 <= i < |s| ==> 32 <= s[i] < 127 && !ShellChar(s[i])
    ensures Look(s, lang, pr, offs) == Seen(false, false)
  {
    if s != [] { LookPlain(s[1..], lang, pr, offs + 1); }
  }

  lemma LetterBytes(s: Bytes, w: string)
    requires Text(s) == w && forall i :: 0 <= i < |w| ==> 'a' <= w[i] <= 'z'
    ensures forall i :: 0 <= i < |s| ==> 97 <= s[i] <= 122 && !ShellChar(s[i])
  {
    forall i | 0 <= i < |s| ensures 97 <= s[i] <= 122 { assert w[i] == s[i] as char; }
  }

  lemma UnlistedIsBare(s: Bytes, lang: Lang, pr: Print)
    requires AsciiExact(pr) && Text(s) in Unlisted(lang)
    ensures Quote(s, lang, pr) == Done(s) && IsReserved(lang, s)
  {
    hide Look, Unlisted, Reserved;
    UnlistedAre(lang);
    UnlistedLetters(lang, Text(s));
    LetterBytes(s, Text(s));
    LookPlain(s, lang, pr, 0);
  }

  /**
   * At the start of a command what Quote returns is a reserved word, and so does not read back, exactly for "elif", in
   * bash and mksh also for "let" and the words that declare variables, and in bash for "declare".
   */
  lemma QuoteFirstIff(s: Bytes, lang: Lang, pr: Print)
    requires AsciiExact(pr) && Quote(s, lang, pr).Done?
    ensures IsReserved(lang, Quote(s, lang, pr).q) <==> Text(s) in Unlisted(lang)
    ensures ExpandFirst(lang, Quote(s, lang, pr).q) == (if Text(s) in Unlisted(lang) then None else Some(s))
  {
    hide Look, Quote, Expand, Unlisted, Reserved;
    UnlistedAre(lang);
    QuoteExpands(s, lang, pr);
    QuoteStarts(s, lang, pr);
    if Text(s) in Unlisted(lang) { UnlistedIsBare(s, lang, pr); }
  }

  /** The failing inputs: "elif" comes back bare in every language, where no command starts with it as a plain word. */
  lemma QuoteElif(lang: Lang, pr: Print)
    requires AsciiExact(pr)
    ensures var s := [101, 108, 105, 102];
            && Text(s) == "elif" && Quote(s, lang, pr) == Done(s)
            && Expand(s) == Some(s) && ExpandFirst(lang, s) == None
  {
    hide Look, Quote, Expand, Reserved;
    var s: Bytes := [101, 108, 105, 102];
    assert Text(s) == "elif";
    UnlistedIsBare(s, lang, pr);
    QuoteExpands(s, lang, pr);
  }

  /** And "let" does in bash and mksh, where it starts a clause; in POSIX it is a plain word. */
  lemma QuoteLet(lang: Lang, pr: Print)
    requires AsciiExact(pr)
    ensures var s := [108, 101, 116];
            && Text(s) == "let" && Quote(s, lang, pr) == Done(s)
            && ExpandFirst(lang, s) == if lang == Posix then Some(s) else None
  {
    hide Look, Quote, Expand;
    var s: Bytes := [108, 101, 116];
    assert Text(s) == "let";
    LetterBytes(s, "let");
    LookPlain(s, lang, pr, 0);
    PlainIsBare(s, lang, pr);
    QuoteFirstIff(s, lang, pr);
  }

  lemma PlainIsBare(s: Bytes, lang: Lang, pr: Print)
    requires s != [] && Look(s, lang, pr, 0) == Seen(false, false) && !IsKeyword(s)
    ensures Quote(s, lang, pr) == Done(s)
  { }

  /** Outside mksh nothing between $' and the last quote closes the quotes. */
  lemma {:induction false} AnsiBody(s: Bytes, lang: Lang, pr: Print)
    requires lang != Mksh
    ensures TakeDollar(Ansi(s, lang, pr, false) + [SQ]) == Some(Taken(Ansi(s, lang, pr, false), []))
    decreases |s|
  {
    hide Escape, Fmt, Decode, ByByte, TakeDollar;
    if s == [] {
      assert [] + [SQ] == [SQ];
      DollarEnd();
    } else {
      var n := Decode(s).size;
      var b := Ansi(s[n..], lang, pr, false);
      var t := b + [SQ];
      AnsiBody(s[n..], lang, pr);
      EscapeMeans(s, pr, t, []);
      assert [] + Escape(s, pr) + b + [SQ] == Escape(s, pr) + t;
      assert [] + Escape(s, pr) + b == Escape(s, pr) + b;
    }
  }

  lemma DollarEnd()
    ensures TakeDollar([SQ]) == Some(Taken([], []))
  {
    assert [SQ][1..] == [];
  }

  /** The four forms: bare with no special character, or a body that nothing inside it closes before the final quote. */
  lemma QuoteForms(s: Bytes, lang: Lang, pr: Print)
    requires lang != Mksh && Quote(s, lang, pr).Done?
    ensures var q := Quote(s, lang, pr).q;
            || (q == s && s != [] && BareText(s))
            || (q == [SQ] + s + [SQ] && TakeSingle(q[1..]) == Some(Taken(s, [])))
            || (exists b :: q == [DQ] + b + [DQ] && TakeDouble(q[1..]) == Some(Taken(b, [])))
            || (exists b :: q == [DOLLAR, SQ] + b + [SQ] && TakeDollar(q[2..]) == Some(Taken(b, [])))
  {
    hide Look, Ansi, Dbl, TakeSingle, TakeDouble, TakeDollar, IsKeyword, Valid;
    var q := Quote(s, lang, pr).q;
    if s == [] {
      SingleBody(s, []);
      assert q == [SQ] + s + [SQ] && q[1..] == s + [SQ] + [];
    } else {
      LookSeen(s, lang, pr, 0);
      var look := Look(s, lang, pr, 0);
      if look.odd {
        var b := Ansi(s, lang, pr, false);
        AnsiBody(s, lang, pr);
        assert q[2..] == b + [SQ];
      } else if !look.shell && !IsKeyword(s) {
      } else if SQ !in s {
        SingleBody(s, []);
        assert q[1..] == s + [SQ] + [];
      } else {
        DblIsBytes(s);
        DoubleBody(s, []);
        assert q[1..] == Dbl(s) + [DQ] + [];
      }
    }
  }

  /** Some rune of s is such. */
  ghost predicate SomeRune(s: Bytes, p: int -> bool)
    decreases |s|
  {
    s != [] && (p(Decode(s).r) || SomeRune(s[Decode(s).size..], p))
  }

  lemma {:induction false} LookRefuses(s: Bytes, lang: Lang, pr: Print, offs: nat)
    ensures Look(s, lang, pr, offs).Stop? <==> SomeRune(s, r => r == 0 || (lang == Posix && !Plain(pr, r)))
    decreases |s|
  {
    hide Decode;
    if s != [] { LookRefuses(s[Decode(s).size..], lang, pr, offs + Decode(s).size); }
  }

  lemma {:induction false} WideRefuses(s: Bytes, pr: Print, offs: nat)
    ensures Wide(s, pr, offs).Some? <==> SomeRune(s, r => !Plain(pr, r) && r > 0xFFFD)
    decreases |s|
  {
    hide Decode;
    if s != [] { WideRefuses(s[Decode(s).size..], pr, offs + Decode(s).size); }
  }

  lemma {:induction false} NullRune(s: Bytes)
    ensures SomeRune(s, r => r == 0) <==> 0 in s
    decreases |s|
  {
    hide Decode;
    if s != [] {
      var n := Decode(s).size;
      FirstBytes(s);
      NullRune(s[n..]);
      assert s == s[..n] + s[n..];
    }
  }

  lemma {:induction false} SomeRuneSame(s: Bytes, p: int -> bool, q: int -> bool)
    requires forall r :: p(r) <==> q(r)
    ensures SomeRune(s, p) <==> SomeRune(s, q)
    decreases |s|
  {
    hide Decode;
    if s != [] { SomeRuneSame(s[Decode(s).size..], p, q); }
  }

  lemma {:induction false} WideIsOdd(s: Bytes, lang: Lang, pr: Print, offs: nat)
    requires Look(s, lang, pr, offs).Seen? && SomeRune(s, r => !Plain(pr, r) && r > 0xFFFD)
    ensures Look(s, lang, pr, offs).odd
    decreases |s|
  {
    hide Decode;
    var d := Decode(s);
    if Plain(pr, d.r) || d.r <= 0xFFFD { WideIsOdd(s[d.size..], lang, pr, offs + d.size); }
  }

  /** In Bash every string without a null byte can be quoted, and a refusal names the first null byte. */
  lemma BashRefuses(s: Bytes, pr: Print)
    ensures Quote(s, Bash, pr).Refused? <==> 0 in s
    ensures 0 in s ==> var o := Quote(s, Bash, pr).offset; o < |s| && s[o] == 0 && 0 !in s[..o]
  {
    hide Look, Ansi, Dbl, IsKeyword;
    LookRefuses(s, Bash, pr, 0);
    SomeRuneSame(s, r => r == 0 || (Bash == Posix && !Plain(pr, r)), r => r == 0);
    NullRune(s);
    if 0 in s { LookStops(s, Bash, pr, 0); }
  }

  /** POSIX also refuses what it has no escapes for, and mksh what is past its sixteen bits. */
  lemma OthersRefuse(s: Bytes, pr: Print)
    ensures Quote(s, Posix, pr).Refused? <==> SomeRune(s, r => r == 0 || !Plain(pr, r))
    ensures Quote(s, Mksh, pr).Refused? <==> 0 in s || SomeRune(s, r => !Plain(pr, r) && r > 0xFFFD)
  {
    hide Look, Ansi, Dbl, IsKeyword, Wide;
    LookRefuses(s, Posix, pr, 0);
    SomeRuneSame(s, r => r == 0 || (Posix == Posix && !Plain(pr, r)), r => r == 0 || !Plain(pr, r));
    if Look(s, Posix, pr, 0).Seen? { LookSeen(s, Posix, pr, 0); }
    LookRefuses(s, Mksh, pr, 0);
    SomeRuneSame(s, r => r == 0 || (Mksh == Posix && !Plain(pr, r)), r => r == 0);
    NullRune(s);
    WideRefuses(s, pr, 0);
    if Look(s, Mksh, pr, 0).Seen? && SomeRune(s, r => !Plain(pr, r) && r > 0xFFFD) { WideIsOdd(s, Mksh, pr, 0); }
  }
}

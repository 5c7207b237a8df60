/** Quote's loops, and the loops that read its output back. */
module QuoteMethods {
  import opened Basics
  import opened Utf8
  import opened Quoting

  /** What has been seen so far, together with what the rest shows. */
  function Join(shell: bool, odd: bool, rest: Survey): Survey {
    match rest
    case Seen(a, b) => Seen(shell || a, odd || b)
    case Stop(_, _) => rest
  }

  method QuoteString(s: Bytes, lang: Lang, pr: Print) returns (r: Quoted)
    ensures r == Quote(s, lang, pr)
  {
    hide Look, Ansi, Dbl, Decode, IsKeyword;
    if s == [] {
      return Done([SQ, SQ]);
    }
    var look := Survey(s, lang, pr);
    if look.Stop? {
      return Refused(look.offset, look.why);
    }
    if !look.shell && !look.odd && !IsKeyword(s) {
      return Done(s);
    }
    if look.odd {
      r := AnsiQuote(s, lang, pr);
      return;
    }
    if SQ !in s {
      return Done([SQ] + s + [SQ]);
    }
    var b := DoubleQuote(s);
    r := Done(b);
  }

  method Survey(s: Bytes, lang: Lang, pr: Print) returns (look: Survey)
    ensures look == Look(s, lang, pr, 0)
  {
    hide Decode, ShellChar;
    var shellChars, nonPrintable := false, false;
    var offs: nat := 0;
    var rem := s;
    while |rem| > 0
      invariant Look(s, lang, pr, 0) == Join(shellChars, nonPrintable, Look(rem, lang, pr, offs))
      decreases |rem|
    {
      var d := Decode(rem);
      NotNull(d.r);
      if ShellChar(d.r) {
        shellChars := true;
      } else if d.r == 0 {
        return Stop(offs, NullByte);
      }
      if !Plain(pr, d.r) {
        if lang == Posix {
          return Stop(offs, NoEscapes);
        }
        nonPrintable := true;
      }
      rem := rem[d.size..];
      offs := offs + d.size;
    }
    look := Seen(shellChars, nonPrintable);
  }

  lemma NotNull(r: int)
    ensures ShellChar(r) ==> r != 0
  { }

  method AnsiQuote(s: Bytes, lang: Lang, pr: Print) returns (r: Quoted)
    ensures r == if lang == Mksh && Wide(s, pr, 0).Some? then Refused(Wide(s, pr, 0).value, TooWide)
                 else Done([DOLLAR, SQ] + Ansi(s, lang, pr, false) + [SQ])
  {
    hide Decode, Escape, IsHex;
    var b: Bytes := [DOLLAR, SQ];
    var lastRequoteIfHex := false;
    var offs: nat := 0;
    var rem := s;
    while |rem| > 0
      invariant b + Ansi(rem, lang, pr, lastRequoteIfHex) == [DOLLAR, SQ] + Ansi(s, lang, pr, false)
      invariant lang == Mksh ==> Wide(s, pr, 0) == Wide(rem, pr, offs)
      decreases |rem|
    {
      var d := Decode(rem);
      if lang == Mksh && !Plain(pr, d.r) && d.r > 0xFFFD {
        return Refused(offs, TooWide);
      }
      ghost var next := Ansi(rem[d.size..], lang, pr, lang == Mksh && ByByte(rem, pr));
      ghost var before := b;
      var e := EscapeRune(rem, pr, lastRequoteIfHex);
      b := b + e;
      assert b + next == before + (e + next);
      lastRequoteIfHex := lang == Mksh && ByByte(rem, pr);
      rem := rem[d.size..];
      offs := offs + d.size;
    }
    assert b + [] == b;
    r := Done(b + [SQ]);
  }

  /** One turn of the switch in the second loop. */
  method EscapeRune(rem: Bytes, pr: Print, last: bool) returns (b: Bytes)
    requires rem != []
    ensures b == (if Reopens(rem, pr, last) then REOPEN else []) + Escape(rem, pr)
  {
    hide Hex, Encode, Decode;
    var d := Decode(rem);
    if d.r == SQ || d.r == BS {
      NoReopen(rem, pr, last);
      return [BS] + Encode(d.r);
    }
    if pr(d.r) && d.r != RUNE_ERROR {
      b := [];
      if last && IsHex(d.r) {
        b := REOPEN;
      }
      b := b + Encode(d.r);
      return;
    }
    if d.r == 7 {
      b := [BS, 'a' as int];
    } else if d.r == 8 {
      b := [BS, 'b' as int];
    } else if d.r == 12 {
      b := [BS, 'f' as int];
    } else if d.r == 10 {
      b := [BS, 'n' as int];
    } else if d.r == 13 {
      b := [BS, 'r' as int];
    } else if d.r == 9 {
      b := [BS, 't' as int];
    } else if d.r == 11 {
      b := [BS, 'v' as int];
    } else if d.r < RUNE_SELF || d == INVALID {
      b := [BS, 'x' as int] + Hex(rem[0], 2);
    } else if d.r < 0x10000 {
      b := [BS, 'u' as int] + Hex(d.r, 4);
    } else {
      b := [BS, 'U' as int] + Hex(d.r, 8);
    }
  }

  lemma NoReopen(rem: Bytes, pr: Print, last: bool)
    requires rem != [] && (Decode(rem).r == SQ || Decode(rem).r == BS)
    ensures !Reopens(rem, pr, last)
  { }

  method DoubleQuote(s: Bytes) returns (b: Bytes)
    ensures b == [DQ] + Dbl(s) + [DQ]
  {
    hide Decode, Encode;
    b := [DQ];
    var rem := s;
    while |rem| > 0
      invariant b + Dbl(rem) == [DQ] + Dbl(s)
      decreases |rem|
    {
      var d := Decode(rem);
      ghost var before, next := b, Dbl(rem[d.size..]);
      var slash: Bytes := [];
      if d.r == DQ || d.r == BS || d.r == BQ || d.r == DOLLAR {
        slash := [BS];
      }
      b := b + slash + Encode(d.r);
      assert b + next == before + (slash + Encode(d.r) + next);
      rem := rem[d.size..];
    }
    assert b + [] == b;
    b := b + [DQ];
  }

  /** formatInto with no arguments to format: an index that escapes move on by their own length. */
  method FormatInto(format: Bytes) returns (sb: Bytes)
    ensures sb == Fmt(format)
  {
    sb := [];
    var i := 0;
    while i < |format|
      invariant 0 <= i <= |format|
      invariant sb + Fmt(format[i..]) == Fmt(format)
      decreases |format| - i
    {
      ghost var before, f := sb, format[i..];
      assert f[0] == format[i] && f[1..] == format[i + 1..];
      if format[i] != BS {
        sb := sb + [format[i]];
        i := i + 1;
        assert sb + Fmt(format[i..]) == before + ([f[0]] + Fmt(f[1..]));
      } else {
        var x, j := FormatEscape(format, i);
        sb := sb + x;
        assert sb + Fmt(format[j..]) == before + (x + Fmt(format[j..]));
        i := j;
      }
    }
    assert format[i..] == [];
    assert sb + [] == sb;
  }

  lemma Drop(s: Bytes, i: nat, k: nat)
    requires i + k <= |s|
    ensures s[i..][k..] == s[i + k..]
  { }

  lemma FmtRule(f: Bytes)
    requires f != [] && f[0] == BS
    ensures |f| == 1 ==> Fmt(f) == [BS] + Fmt([])
    ensures |f| > 1 && Simple(f[1]).Some? ==> Fmt(f) == [Simple(f[1]).value] + Fmt(f[2..])
    ensures |f| > 1 && Simple(f[1]).None? && OctalDigit(f[1]) ==>
              var ds := ReadDigits(f[1..], 3, false); Fmt(f) == [Octal(ds, 0)] + Fmt(f[1 + |ds|..])
    ensures |f| > 1 && Simple(f[1]).None? && !OctalDigit(f[1]) ==>
              var ds := if HexLetter(f[1]) then ReadDigits(f[2..], HexMax(f[1]), true) else [];
              Fmt(f) == if ds != [] then HexWrites(f[1], ParseHex(ds)) + Fmt(f[2 + |ds|..])
                  else [BS, f[1]] + Fmt(f[2..])
  {
    hide Octal, ParseHex, HexWrites, ReadDigits;
    assert [BS] + [] == [BS];
  }

  /** One escape sequence: what it writes and where it ends. */
  method FormatEscape(format: Bytes, i: nat) returns (x: Bytes, j: nat)
    requires i < |format| && format[i] == BS
    ensures i < j <= |format| && Fmt(format[i..]) == x + Fmt(format[j..])
  {
    hide Octal, ParseHex, HexWrites, Simple, ReadDigits, Fmt, HexLetter, OctalDigit;
    ghost var f := format[i..];
    assert f[0] == BS;
    FmtRule(f);
    if i + 1 >= |format| {
      Drop(format, i, 1);
      return [BS], i + 1;
    }
    var c := format[i + 1];
    assert f[1] == c;
    Drop(format, i, 1);
    Drop(format, i, 2);
    if Simple(c) != None {
      return [Simple(c).value], i + 2;
    }
    if OctalDigit(c) {
      var ds := DigitsAt(format, i + 1, 3, false);
      Drop(format, i, 1 + |ds|);
      FirstDigit(f[1..], 3);
      return [Octal(ds, 0)], i + 1 + |ds|;
    }
    if HexLetter(c) {
      var max := 2;
      if c == 'u' as int {
        max := 4;
      } else if c == 'U' as int {
        max := 8;
      }
      var ds := DigitsAt(format, i + 2, max, true);
      if |ds| > 0 {
        Drop(format, i, 2 + |ds|);
        return HexWrites(c, ParseHex(ds)), i + 2 + |ds|;
      }
    }
    return [BS, c], i + 2;
  }

  lemma FirstDigit(f: Bytes, max: nat)
    requires f != [] && OctalDigit(f[0]) && max > 0
    ensures |ReadDigits(f, max, false)| > 0
  { }

  lemma DigitsMore(f: Bytes, max: nat, hex: bool)
    requires f != [] && max > 0 && DigitFor(f[0], hex)
    ensures ReadDigits(f, max, hex) == [f[0]] + ReadDigits(f[1..], max - 1, hex)
  { }

  lemma DigitsTurn(f: Bytes, max: nat, hex: bool, ds: Bytes)
    requires f != [] && max > 0 && DigitFor(f[0], hex)
    ensures ds + ReadDigits(f, max, hex) == (ds + [f[0]]) + ReadDigits(f[1..], max - 1, hex)
  {
    hide ReadDigits;
    DigitsMore(f, max, hex);
    Regroup(ds, f[0], ReadDigits(f[1..], max - 1, hex));
  }

  lemma Regroup(a: Bytes, x: Byte, r: Bytes)
    ensures a + ([x] + r) == (a + [x]) + r
  { }

  lemma Tail(s: Bytes, i: nat)
    requires i < |s|
    ensures s[i..][0] == s[i] && s[i..][1..] == s[i + 1..]
  { }

  lemma DigitsEnd(f: Bytes, max: nat, hex: bool)
    requires f == [] || max == 0 || !DigitFor(f[0], hex)
    ensures ReadDigits(f, max, hex) == []
  { }

  /** The digits read so far, and those still to come. */
  ghost predicate Reading(format: Bytes, i: nat, max: nat, hex: bool, ds: Bytes)
    requires i + |ds| <= |format| && |ds| <= max
  {
    ReadDigits(format[i..], max, hex) == ds + ReadDigits(format[i + |ds|..], max - |ds|, hex)
  }

  lemma ReadingStart(format: Bytes, i: nat, max: nat, hex: bool)
    requires i <= |format|
    ensures Reading(format, i, max, hex, [])
  {
    assert [] + ReadDigits(format[i..], max, hex) == ReadDigits(format[i..], max, hex);
  }

  lemma ReadingTurn(format: Bytes, i: nat, max: nat, hex: bool, ds: Bytes)
    requires i + |ds| < |format| && |ds| < max && Reading(format, i, max, hex, ds) && DigitFor(format[i + |ds|], hex)
    ensures Reading(format, i, max, hex, ds + [format[i + |ds|]])
  {
    hide ReadDigits;
    Tail(format, i + |ds|);
    DigitsTurn(format[i + |ds|..], max - |ds|, hex, ds);
  }

  lemma ReadingEnd(format: Bytes, i: nat, max: nat, hex: bool, ds: Bytes)
    requires i + |ds| <= |format| && |ds| <= max && Reading(format, i, max, hex, ds)
    requires i + |ds| == |format| || |ds| == max || !DigitFor(format[i + |ds|], hex)
    ensures ds == ReadDigits(format[i..], max, hex)
  {
    hide ReadDigits;
    DigitsEnd(format[i + |ds|..], max - |ds|, hex);
    assert ds + [] == ds;
  }

  /** readDigits' loop */
  method DigitsAt(format: Bytes, i: nat, max: nat, hex: bool) returns (ds: Bytes)
    requires i <= |format|
    ensures ds == ReadDigits(format[i..], max, hex) && i + |ds| <= |format|
  {
    hide Reading, DigitFor;
    var j := 0;
    ds := [];
    ReadingStart(format, i, max, hex);
    while j < max && i + j < |format|
      invariant 0 <= j <= max && i + j <= |format| && |ds| == j
      invariant Reading(format, i, max, hex, ds)
    {
      if !DigitFor(format[i + j], hex) {
        break;
      }
      ReadingTurn(format, i, max, hex, ds);
      ds := ds + [format[i + j]];
      j := j + 1;
    }
    ReadingEnd(format, i, max, hex, ds);
  }

  lemma UndoubleEmpty()
    ensures Undouble([]) == []
  { }

  lemma UndoubleRule(f: Bytes)
    requires f != []
    ensures Undouble(f) ==
            if f[0] == BS && |f| > 1 && (f[1] == DQ || f[1] == BS || f[1] == DOLLAR || f[1] == BQ)
            then [f[1]] + Undouble(f[2..])
            else [f[0]] + Undouble(f[1..])
  { }

  lemma UndoubleTurn(f: Bytes, sb: Bytes)
    requires f != []
    ensures sb + Undouble(f) ==
            if f[0] == BS && |f| > 1 && (f[1] == DQ || f[1] == BS || f[1] == DOLLAR || f[1] == BQ)
            then (sb + [f[1]]) + Undouble(f[2..])
            else (sb + [f[0]]) + Undouble(f[1..])
  {
    hide Undouble;
    UndoubleRule(f);
    Regroup(sb, f[0], Undouble(f[1..]));
    if |f| > 1 { Regroup(sb, f[1], Undouble(f[2..])); }
  }

  /** wordField's loop over a literal inside double quotes. */
  method LiteralInDouble(s: Bytes) returns (sb: Bytes)
    ensures sb == Undouble(s)
  {
    hide Undouble;
    UndoubleEmpty();
    assert [] + Undouble(s) == Undouble(s) && s[0..] == s;
    sb := [];
    var i := 0;
    while i < |s|
      invariant 0 <= i <= |s|
      invariant sb + Undouble(s[i..]) == Undouble(s)
    {
      ghost var before, f, i0 := sb, s[i..], i;
      var b := s[i];
      if b == BS && i + 1 < |s| {
        if s[i + 1] == DQ || s[i + 1] == BS || s[i + 1] == DOLLAR || s[i + 1] == BQ {
          i := i + 1;
          b := s[i];
        }
      }
      sb := sb + [b];
      i := i + 1;
      UndoubleTurn(f, before);
      assert f[0] == s[i0] && f[1..] == s[i0 + 1..] && (|f| > 1 ==> f[1] == s[i0 + 1] && f[2..] == s[i0 + 2..]);
    }
    assert s[i..] == [];
    assert sb + [] == sb;
  }
}

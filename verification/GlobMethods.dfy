/** The pattern methods, which loop over bytes and runes. */
module GlobMethods {
  import opened Basics
  import opened Utf8
  import opened Globbing
  import opened GlobBytes

  /** stringLexer: a cursor over the pattern's bytes, 0 standing for its end. */
  class StringLexer {
    const s: Bytes
    var i: nat

    constructor (s: Bytes)
      ensures this.s == s && i == 0
    {
      this.s, i := s, 0;
    }

    method Next() returns (c: Byte)
      requires i <= |s|
      modifies this`i
      ensures i <= |s| && if old(i) == |s| then c == 0 && i == old(i) else c == s[old(i)] && i == old(i) + 1
    {
      if i >= |s| {
        return 0;
      }
      c := s[i];
      i := i + 1;
    }
  }

  datatype Outcome = More | Eof | Dangling

  /** regexpNext in a mode without file names or extended operators: one step of the pattern. */
  method RegexpNext(sl: StringLexer) returns (text: Bytes, o: Outcome)
    requires sl.i <= |sl.s| && NoBracketByte(sl.s[sl.i..])
    modifies sl
    ensures sl.i <= |sl.s|
    ensures o.Eof? <==> old(sl.i) == |sl.s| || sl.s[old(sl.i)] == 0
    ensures o.Eof? ==> text == []
    ensures o.Dangling? ==> Write(sl.s[old(sl.i)..]) == None
    ensures o.More? ==>
              && old(sl.i) < sl.i && NoBracketByte(sl.s[sl.i..])
              && Write(sl.s[old(sl.i)..]) == Prefixed(text, Write(sl.s[sl.i..]))
  {
    hide Meta, Utf8Of;
    ghost var p := sl.s[sl.i..];
    text, o := [], More;
    var c := sl.Next();
    if c == 0 {
      return text, Eof;
    }
    assert p[0] == c && p[1..] == sl.s[sl.i..];
    if c == STAR {
      text := Utf8Of(".*");
    } else if c == MARK {
      text := Utf8Of(".");
    } else if c == BS {
      c := sl.Next();
      if c == 0 {
        return text, Dangling;
      }
      assert p[1] == c && p[2..] == sl.s[sl.i..];
      text := Meta(c);
    } else if c > 0x80 {
      text := [c];
    } else {
      text := Meta(c);
    }
  }

  lemma PrefixedTwice(a: Bytes, b: Bytes, r: Option<Bytes>)
    ensures Prefixed(a, Prefixed(b, r)) == Prefixed(a + b, r)
  {
    if r.Some? { assert a + (b + r.value) == a + b + r.value; }
  }

  lemma WriteStops(p: Bytes)
    requires p == [] || p[0] == 0
    ensures Write(p) == Some(Utf8Of("$"))
  { }

  /** Regexp with EntireString: the loop over regexpNext between the anchors. */
  method RegexpOf(pat: Bytes) returns (r: Option<Bytes>)
    requires NoBracketByte(pat)
    ensures r == RegexpBytes(pat)
  {
    hide Write, NoBracketByte, Utf8Of;
    var sb := Utf8Of("(?s)");
    OfConcat("(?s)", "^");
    sb := sb + Utf8Of("^");
    var sl := new StringLexer(pat);
    assert pat[0..] == pat && "(?s)" + "^" == OPEN;
    while true
      invariant sl.s == pat && sl.i <= |pat| && NoBracketByte(pat[sl.i..])
      invariant RegexpBytes(pat) == Prefixed(sb, Write(pat[sl.i..]))
      decreases |pat| - sl.i
    {
      ghost var before, i := sb, sl.i;
      var text, o := RegexpNext(sl);
      if o == Dangling {
        return None;
      }
      if o == Eof {
        WriteStops(pat[i..]);
        break;
      }
      sb := sb + text;
      PrefixedTwice(before, text, Write(pat[sl.i..]));
    }
    r := Some(sb + Utf8Of("$"));
  }

  method HasMetaOf(pat: Bytes) returns (b: bool)
    ensures b == HasMetaBytes(pat)
  {
    var i := 0;
    while i < |pat|
      invariant 0 <= i
      invariant HasMetaBytes(pat) == (i < |pat| && HasMetaBytes(pat[i..]))
    {
      ghost var p := pat[i..];
      assert p[0] == pat[i] && p[1..] == pat[i + 1..];
      if pat[i] == BS {
        if |p| > 1 { assert p[2..] == pat[i + 2..]; }
        i := i + 1;
      } else if pat[i] == STAR || pat[i] == MARK || pat[i] == BRACKET {
        return true;
      }
      i := i + 1;
    }
    b := false;
  }

  lemma CharsFrom(t: Bytes, i: nat)
    requires i < |t|
    ensures var d := Decode(t[i..]);
            i + d.size <= |t| && Chars(t[i..]) == [d.r as char] + Chars(t[i + d.size..])
  {
    hide Decode;
    assert t[i..][Decode(t[i..]).size..] == t[i + Decode(t[i..]).size..];
  }

  /** QuoteMeta's two loops over runes; what is no UTF-8 comes out of the second as U+FFFD. */
  method QuoteMetaOf(pat: Bytes) returns (r: Bytes)
    ensures r == QuoteMetaBytes(pat)
  {
    hide Chars, QuoteMeta, Utf8Of, Decode, Encode;
    var needsEscaping := false;
    var i := 0;
    assert pat[0..] == pat;
    ghost var seen := "";
    while i < |pat|
      invariant 0 <= i <= |pat|
      invariant Chars(pat) == seen + Chars(pat[i..]) && forall j :: 0 <= j < |seen| ==> !Special(seen[j])
    {
      var d := Decode(pat[i..]);
      CharsFrom(pat, i);
      ghost var before := seen;
      seen := seen + [d.r as char];
      assert before + ([d.r as char] + Chars(pat[i + d.size..])) == seen + Chars(pat[i + d.size..]);
      if Special(d.r as char) {
        needsEscaping := true;
        assert Chars(pat)[|before|] == d.r as char;
        break;
      }
      i := i + d.size;
    }
    CharsNone();
    if !needsEscaping {
      assert pat[i..] == [] && Chars(pat) == seen;
      return pat;
    }
    i := 0;
    var sb: Bytes := [];
    assert [] + Utf8Of(QuoteMeta(Chars(pat))) == Utf8Of(QuoteMeta(Chars(pat)));
    while i < |pat|
      invariant 0 <= i <= |pat|
      invariant sb + Utf8Of(QuoteMeta(Chars(pat[i..]))) == Utf8Of(QuoteMeta(Chars(pat)))
    {
      var d := Decode(pat[i..]);
      CharsFrom(pat, i);
      ghost var before := sb;
      ghost var rest := Chars(pat[i + d.size..]);
      QuoteRune(d.r as char, rest);
      if Special(d.r as char) {
        sb := sb + [BS];
      }
      sb := sb + Encode(d.r);
      assert before + ((if Special(d.r as char) then [BS] else []) + Encode(d.r) + Utf8Of(QuoteMeta(rest)))
             == sb + Utf8Of(QuoteMeta(rest));
      i := i + d.size;
    }
    assert pat[i..] == [];
    CharsNone();
    QuoteEnd();
    assert sb + [] == sb;
    r := sb;
  }
}

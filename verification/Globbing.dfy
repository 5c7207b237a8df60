/** Shell patterns as regular expressions: the translation against what a pattern is meant to match. */
module Globbing {
  import opened Basics

  // ---------- shell patterns, section 2.13.1 of the POSIX.1-2017 Shell Command Language ----------

  /** What a pattern without brackets matches. */
  ghost predicate Glob(p: string, s: string)
    decreases |p|
  {
    if p == "" then s == ""
    else if p[0] == '\\' then |p| > 1 && s != "" && s[0] == p[1] && Glob(p[2..], s[1..])
    else if p[0] == '?' then s != "" && Glob(p[1..], s[1..])
    else if p[0] == '*' then exists k :: 0 <= k <= |s| && Glob(p[1..], s[k..])
    else s != "" && s[0] == p[0] && Glob(p[1..], s[1..])
  }

  /** No bracket but after a backslash. */
  predicate NoBracket(p: string)
    decreases |p|
  {
    if p == "" then true
    else if p[0] == '\\' then |p| == 1 || NoBracket(p[2..])
    else p[0] != '[' && NoBracket(p[1..])
  }

  /** No backslash at the end with nothing to escape. */
  predicate Closed(p: string)
    decreases |p|
  {
    if p == "" then true
    else if p[0] == '\\' then |p| > 1 && Closed(p[2..])
    else Closed(p[1..])
  }

  // ---------- the fragment of regular expression syntax that is written ----------

  predicate RegMeta(c: char) {
    c in "\\.+*?()|[]{}^$"
  }

  datatype One = Lit(c: char) | Any
  datatype Atom = Atom(one: One, star: bool)

  /** Flags and anchors: `s` lets "." match a newline, "^" and "$" stand for the ends of the text. */
  const OPEN := "(?s)^"

  function One1(t: string): Option<(One, string)> {
    if t == "" then None
    else if t[0] == '\\' then (if |t| > 1 && RegMeta(t[1]) then Some((Lit(t[1]), t[2..])) else None)
    else if t[0] == '.' then Some((Any, t[1..]))
    else if RegMeta(t[0]) then None
    else Some((Lit(t[0]), t[1..]))
  }

  /** Read atoms up to the final "$"; None for syntax outside the fragment. */
  function ReadAtoms(t: string): Option<seq<Atom>>
    decreases |t|
  {
    if t == "$" then Some([])
    else match One1(t)
      case None => None
      case Some((one, rest)) =>
        if rest != "" && rest[0] in "+?{" then None
        else
          var star := rest != "" && rest[0] == '*';
          match ReadAtoms(if star then rest[1..] else rest)
          case None => None
          case Some(more) => Some([Atom(one, star)] + more)
  }

  function ReadRegex(t: string): Option<seq<Atom>> {
    if |t| < |OPEN| || t[..|OPEN|] != OPEN then None else ReadAtoms(t[|OPEN|..])
  }

  predicate Accepts(one: One, c: char) {
    one.Any? || one.c == c
  }

  /** Anchored matching. */
  predicate Matches(atoms: seq<Atom>, s: string)
    decreases |atoms|, |s|
  {
    if atoms == [] then s == ""
    else if !atoms[0].star then s != "" && Accepts(atoms[0].one, s[0]) && Matches(atoms[1..], s[1..])
    else Matches(atoms[1..], s) || (s != "" && Accepts(atoms[0].one, s[0]) && Matches(atoms, s[1..]))
  }

  // ---------- the translation ----------

  /** regexp.QuoteMeta of one character */
  function Quoted(c: char): string {
    if RegMeta(c) then ['\\', c] else [c]
  }

  datatype Result = Ok(text: string) | SyntaxError

  function After(text: string, r: Result): Result {
    if r.Ok? then Ok(text + r.text) else r
  }

  /** What regexpNext writes, pattern character by pattern character, with the closing "$". */
  function Translate(p: string): Result
    decreases |p|
  {
    if p == "" then Ok("$")
    else if p[0] == '\\' then (if |p| == 1 then SyntaxError else After(Quoted(p[1]), Translate(p[2..])))
    else After(if p[0] == '*' then ".*" else if p[0] == '?' then "." else Quoted(p[0]), Translate(p[1..]))
  }

  /** Regexp with the mode EntireString alone */
  function Regexp(p: string): Result {
    After(OPEN, Translate(p))
  }

  // ---------- the translation means what the pattern means ----------

  /** The pattern's atoms, read directly. */
  function AtomsOf(p: string): seq<Atom>
    requires Closed(p)
    decreases |p|
  {
    if p == "" then []
    else if p[0] == '\\' then [Atom(Lit(p[1]), false)] + AtomsOf(p[2..])
    else
      var one := if p[0] == '*' || p[0] == '?' then Any else Lit(p[0]);
      [Atom(one, p[0] == '*')] + AtomsOf(p[1..])
  }

  /** A piece of output never starts with a repetition sign. */
  predicate Starts(t: string) {
    t != "" && t[0] !in "+?{*"
  }

  lemma ReadQuoted(c: char, t: string)
    requires Starts(t) && ReadAtoms(t).Some?
    ensures Starts(Quoted(c) + t) && ReadAtoms(Quoted(c) + t) == Some([Atom(Lit(c), false)] + ReadAtoms(t).value)
  {
    var q := Quoted(c) + t;
    if RegMeta(c) {
      assert q[0] == '\\' && q[1] == c && q[2..] == t;
    } else {
      assert q[0] == c && q[1..] == t;
    }
    assert One1(q) == Some((Lit(c), t));
  }

  lemma ReadAny(t: string)
    requires Starts(t) && ReadAtoms(t).Some?
    ensures Starts("." + t) && ReadAtoms("." + t) == Some([Atom(Any, false)] + ReadAtoms(t).value)
    ensures Starts(".*" + t) && ReadAtoms(".*" + t) == Some([Atom(Any, true)] + ReadAtoms(t).value)
  {
    assert ("." + t)[0] == '.' && ("." + t)[1..] == t;
    assert One1("." + t) == Some((Any, t));
    assert (".*" + t)[0] == '.' && (".*" + t)[1..] == "*" + t && ("*" + t)[1..] == t;
    assert One1(".*" + t) == Some((Any, "*" + t));
  }

  lemma {:induction false} ReadTranslate(p: string)
    ensures Translate(p).Ok? <==> Closed(p)
    ensures Closed(p) ==> Starts(Translate(p).text) && ReadAtoms(Translate(p).text) == Some(AtomsOf(p))
    decreases |p|
  {
    hide ReadAtoms, Starts, Quoted;
    if p == "" {
      ReadEnd();
    } else if p[0] == '\\' {
      if |p| > 1 {
        ReadTranslate(p[2..]);
        if Closed(p) { ReadQuoted(p[1], Translate(p[2..]).text); }
      }
    } else {
      ReadTranslate(p[1..]);
      if Closed(p) {
        var t := Translate(p[1..]).text;
        ReadAny(t);
        ReadQuoted(p[0], t);
      }
    }
  }

  lemma ReadEnd()
    ensures ReadAtoms("$") == Some([]) && Starts("$")
  { }

  lemma {:induction false} StarAny(atoms: seq<Atom>, s: string)
    requires atoms != [] && atoms[0] == Atom(Any, true)
    ensures Matches(atoms, s) <==> exists k :: 0 <= k <= |s| && Matches(atoms[1..], s[k..])
    decreases |s|
  {
    if Matches(atoms[1..], s) {
      assert s[0..] == s;
    } else if s != "" {
      StarAny(atoms, s[1..]);
      if Matches(atoms, s[1..]) {
        var k :| 0 <= k <= |s[1..]| && Matches(atoms[1..], s[1..][k..]);
        assert s[1..][k..] == s[k + 1..];
      }
      forall k | 0 < k <= |s| && Matches(atoms[1..], s[k..]) ensures Matches(atoms, s[1..]) {
        assert s[1..][k - 1..] == s[k..];
      }
    }
    if exists k :: 0 <= k <= |s| && Matches(atoms[1..], s[k..]) {
      var k :| 0 <= k <= |s| && Matches(atoms[1..], s[k..]);
      if k == 0 { assert s[0..] == s; }
    }
  }

  lemma {:induction false} AtomsGlob(p: string, s: string)
    requires Closed(p)
    ensures Matches(AtomsOf(p), s) <==> Glob(p, s)
    decreases |p|
  {
    var atoms := AtomsOf(p);
    if p == "" {
    } else if p[0] == '*' {
      StarAny(atoms, s);
      assert atoms[1..] == AtomsOf(p[1..]);
      forall k | 0 <= k <= |s| ensures Matches(atoms[1..], s[k..]) <==> Glob(p[1..], s[k..]) {
        AtomsGlob(p[1..], s[k..]);
      }
    } else {
      var n := if p[0] == '\\' then 2 else 1;
      assert atoms[1..] == AtomsOf(p[n..]);
      if s != "" { AtomsGlob(p[n..], s[1..]); }
    }
  }

  lemma RegexpMeans(p: string, s: string)
    requires Closed(p)
    ensures Regexp(p).Ok? && ReadRegex(Regexp(p).text).Some?
              && (Matches(ReadRegex(Regexp(p).text).value, s) <==> Glob(p, s))
  {
    hide ReadAtoms, Glob, Matches, Translate;
    ReadTranslate(p);
    assert (OPEN + Translate(p).text)[..|OPEN|] == OPEN && (OPEN + Translate(p).text)[|OPEN|..] == Translate(p).text;
    AtomsGlob(p, s);
  }

  /**
   * The translated expression is a syntax error exactly for a dangling backslash, and else matches what the pattern
   * does.
   */
  lemma RegexpIsGlob(p: string, s: string)
    requires NoBracket(p)
    ensures Regexp(p).Ok? <==> Closed(p)
    ensures Closed(p) ==>
              && ReadRegex(Regexp(p).text).Some?
              && (Matches(ReadRegex(Regexp(p).text).value, s) <==> Glob(p, s))
  {
    hide ReadRegex, Glob, Matches, Translate;
    ReadTranslate(p);
    if Closed(p) { RegexpMeans(p, s); }
  }

  // ---------- QuoteMeta and HasMeta ----------

  predicate Special(c: char) {
    c == '*' || c == '?' || c == '[' || c == '\\'
  }

  function QuoteMeta(t: string): string {
    if t == "" then "" else (if Special(t[0]) then ['\\', t[0]] else [t[0]]) + QuoteMeta(t[1..])
  }

  predicate HasMeta(p: string)
    decreases |p|
  {
    if p == "" then false
    else if p[0] == '\\' then |p| > 1 && HasMeta(p[2..])
    else p[0] == '*' || p[0] == '?' || p[0] == '[' || HasMeta(p[1..])
  }

  /** The pattern with its backslashes taken away. */
  function Unescape(p: string): string
    decreases |p|
  {
    if p == "" then ""
    else if p[0] == '\\' then (if |p| == 1 then "" else [p[1]] + Unescape(p[2..]))
    else [p[0]] + Unescape(p[1..])
  }

  /** A pattern without metacharacters matches its own text, backslashes aside, and nothing else. */
  lemma {:induction false} NoMetaExact(p: string, s: string)
    requires !HasMeta(p)
    ensures NoBracket(p)
    ensures Glob(p, s) <==> Closed(p) && s == Unescape(p)
    decreases |p|
  {
    if p != "" {
      var n := if p[0] == '\\' then 2 else 1;
      if n <= |p| {
        NoMetaExact(p[n..], if s == "" then "" else s[1..]);
        if s != "" { assert s == [s[0]] + s[1..]; }
      }
    }
  }

  /** A string that fits every metacharacter with c. */
  function Sample(p: string, c: char): string
    decreases |p|
  {
    if p == "" then ""
    else if p[0] == '\\' then (if |p| == 1 then "" else [p[1]] + Sample(p[2..], c))
    else [if p[0] == '*' || p[0] == '?' then c else p[0]] + Sample(p[1..], c)
  }

  lemma {:induction false} SampleFits(p: string, c: char)
    requires NoBracket(p) && Closed(p)
    ensures Glob(p, Sample(p, c))
    decreases |p|
  {
    if p != "" {
      var n := if p[0] == '\\' then 2 else 1;
      SampleFits(p[n..], c);
      assert Sample(p, c)[1..] == Sample(p[n..], c);
    }
  }

  lemma {:induction false} SamplesDiffer(p: string, c: char, d: char)
    requires NoBracket(p) && Closed(p) && HasMeta(p) && c != d
    ensures Sample(p, c) != Sample(p, d)
    decreases |p|
  {
    var n := if p[0] == '\\' then 2 else 1;
    assert Sample(p, c)[1..] == Sample(p[n..], c) && Sample(p, d)[1..] == Sample(p[n..], d);
    if HasMeta(p[n..]) {
      SamplesDiffer(p[n..], c, d);
    } else {
      assert Sample(p, c)[0] == c && Sample(p, d)[0] == d;
    }
  }

  ghost predicate AtMostOne(p: string) {
    forall s, t :: Glob(p, s) && Glob(p, t) ==> s == t
  }

  lemma TwoMatches(p: string, s: string, t: string)
    requires Glob(p, s) && Glob(p, t) && s != t
    ensures !AtMostOne(p)
  { }

  /**
   * Without metacharacters a pattern, bracketed or not, matches at most one string; with `*` or `?` it matches more.
   */
  lemma HasMetaIff(p: string)
    ensures !HasMeta(p) ==> AtMostOne(p)
    ensures NoBracket(p) ==> (AtMostOne(p) <==> !HasMeta(p) || !Closed(p))
  {
    if !HasMeta(p) {
      forall s, t | Glob(p, s) && Glob(p, t) ensures s == t {
        NoMetaExact(p, s);
        NoMetaExact(p, t);
      }
    } else if NoBracket(p) {
      if Closed(p) {
        SampleFits(p, 'a');
        SampleFits(p, 'b');
        SamplesDiffer(p, 'a', 'b');
        TwoMatches(p, Sample(p, 'a'), Sample(p, 'b'));
      } else {
        forall s ensures !Glob(p, s) { OpenFits(p, s); }
      }
    }
  }

  /** A dangling backslash matches nothing. */
  lemma {:induction false} OpenFits(p: string, s: string)
    requires !Closed(p)
    ensures !Glob(p, s)
    decreases |p|
  {
    var n := if p[0] == '\\' then 2 else 1;
    if n <= |p| {
      if p[0] == '*' {
        forall k | 0 <= k <= |s| ensures !Glob(p[1..], s[k..]) { OpenFits(p[1..], s[k..]); }
      } else if s != "" {
        OpenFits(p[n..], s[1..]);
      }
    }
  }

  lemma {:induction false} QuoteMetaPlain(t: string)
    ensures !HasMeta(QuoteMeta(t)) && Closed(QuoteMeta(t)) && Unescape(QuoteMeta(t)) == t
  {
    if t != "" {
      var q := QuoteMeta(t);
      QuoteMetaPlain(t[1..]);
      if Special(t[0]) { assert q[2..] == QuoteMeta(t[1..]); } else { assert q[1..] == QuoteMeta(t[1..]); }
      assert [t[0]] + t[1..] == t;
    }
  }

  /** A quoted text matches itself alone. */
  lemma QuoteMetaMatchesItself(t: string, s: string)
    ensures Glob(QuoteMeta(t), s) <==> s == t
  {
    QuoteMetaPlain(t);
    NoMetaExact(QuoteMeta(t), s);
  }
}

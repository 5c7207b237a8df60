/** How an argument list reads: the spellings of options and operands one after the other, and what it ends with. */
module PosixReading {
  import opened Basics
  import opened PosixArgs

  /** One option with its value, some one-letter options, or an operand, as it can be written. */
  datatype Piece =
    | Long(name: string)
    | LongWith(name: string, value: string)
    | LongThen(name: string, value: string)
    | Letters(c: char, ls: string)
    | LettersWith(c: char, ls: string, l: char, value: string)
    | LettersThen(c: char, ls: string, l: char, value: string)
    | Plain(operand: string)

  /** What ends a list: nothing more, the marker, the first operand when that stops it, or one of the errors. */
  datatype Tail =
    | Done
    | Marker(operands: seq<string>)
    | Stopped(first: string, rest: seq<string>)
    | NoSuchLong(name: string, attached: Option<string>, rest: seq<string>)
    | Unwanted(name: string, value: string, rest: seq<string>)
    | Lacking(name: string)
    | NoSuchLetter(c: char, ls: string, l: char, more: string, rest: seq<string>)
    | LackingLetter(c: char, ls: string, l: char)

  function Words(p: Piece): seq<string> {
    match p
    case Long(n) => [n]
    case LongWith(n, v) => [n + "=" + v]
    case LongThen(n, v) => [n, v]
    case Letters(c, ls) => [[c] + ls]
    case LettersWith(c, ls, l, v) => [[c] + ls + ([l] + v)]
    case LettersThen(c, ls, l, v) => [[c] + ls + [l], v]
    case Plain(a) => [a]
  }

  function LastWords(t: Tail): seq<string> {
    match t
    case Done => []
    case Marker(operands) => ["--"] + operands
    case Stopped(first, rest) => [first] + rest
    case NoSuchLong(n, v, rest) => [if v.Some? then n + "=" + v.value else n] + rest
    case Unwanted(n, v, rest) => [n + "=" + v] + rest
    case Lacking(n) => [n]
    case NoSuchLetter(c, ls, l, more, rest) => [[c] + ls + ([l] + more)] + rest
    case LackingLetter(c, ls, l) => [[c] + ls + [l]]
  }

  predicate Takes(specs: Specs, name: string, mode: Mode) {
    name in specs && specs[name].mode == mode
  }

  /** One-letter options without a value. */
  predicate Flags(specs: Specs, c: char, ls: string) {
    forall i :: 0 <= i < |ls| ==> Takes(specs, [c, ls[i]], NoValue)
  }

  predicate LongName(n: string) {
    IsLong(n) && '=' !in n
  }

  /** A word of one-letter options: it starts with - or + and not with --. */
  predicate Cluster(w: string) {
    |w| >= 2 && (w[0] == '-' || w[0] == '+') && !(w[0] == '-' && w[1] == '-')
  }

  predicate IsPlain(w: string) {
    |w| < 2 || (w[0] != '-' && w[0] != '+')
  }

  /** The piece is well spelled for the specs. */
  predicate Good(specs: Specs, stop: bool, p: Piece) {
    match p
    case Long(n) => LongName(n) && n != "--" && Takes(specs, n, NoValue)
    case LongWith(n, v) => LongName(n) && Takes(specs, n, Required)
    case LongThen(n, v) => LongName(n) && n != "--" && Takes(specs, n, Required)
    case Letters(c, ls) => Cluster([c] + ls) && Flags(specs, c, ls)
    case LettersWith(c, ls, l, v) =>
      Cluster([c] + ls + ([l] + v)) && Flags(specs, c, ls) && Takes(specs, [c, l], Required) && v != ""
    case LettersThen(c, ls, l, v) => Cluster([c] + ls + [l]) && Flags(specs, c, ls) && Takes(specs, [c, l], Required)
    case Plain(a) => !stop && IsPlain(a)
  }

  predicate GoodTail(specs: Specs, stop: bool, t: Tail) {
    match t
    case Done => true
    case Marker(_) => true
    case Stopped(first, _) => stop && IsPlain(first)
    case NoSuchLong(n, v, _) => LongName(n) && n !in specs && (v.None? ==> n != "--")
    case Unwanted(n, _, _) => LongName(n) && Takes(specs, n, NoValue)
    case Lacking(n) => LongName(n) && n != "--" && Takes(specs, n, Required)
    case NoSuchLetter(c, ls, l, more, _) => Cluster([c] + ls + ([l] + more)) && Flags(specs, c, ls) && [c, l] !in specs
    case LackingLetter(c, ls, l) => Cluster([c] + ls + [l]) && Flags(specs, c, ls) && Takes(specs, [c, l], Required)
  }

  function One(specs: Specs, name: string, value: string): Opt
    requires name in specs
  {
    Opt(specs[name].canonical, name, value)
  }

  function FlagOpts(specs: Specs, c: char, ls: string): (os: seq<Opt>)
    requires Flags(specs, c, ls)
    ensures |os| == |ls| && forall i :: 0 <= i < |ls| ==> os[i] == One(specs, [c, ls[i]], "")
  {
    seq(|ls|, i requires 0 <= i < |ls| => One(specs, [c, ls[i]], ""))
  }

  /** The options a piece stands for, in order. */
  function Options(specs: Specs, stop: bool, p: Piece): seq<Opt>
    requires Good(specs, stop, p)
  {
    match p
    case Long(n) => [One(specs, n, "")]
    case LongWith(n, v) => [One(specs, n, v)]
    case LongThen(n, v) => [One(specs, n, v)]
    case Letters(c, ls) => FlagOpts(specs, c, ls)
    case LettersWith(c, ls, l, v) => FlagOpts(specs, c, ls) + [One(specs, [c, l], v)]
    case LettersThen(c, ls, l, v) => FlagOpts(specs, c, ls) + [One(specs, [c, l], v)]
    case Plain(_) => []
  }

  /** What a list ending so comes to. */
  function Ending(t: Tail): Result {
    match t
    case Done => Ok([], [])
    case Marker(operands) => Ok([], operands)
    case Stopped(first, rest) => Ok([], [first] + rest)
    case NoSuchLong(n, _, _) => Unknown(n)
    case Unwanted(n, _, _) => Unknown(n)
    case Lacking(n) => Missing(n)
    case NoSuchLetter(c, _, l, _, _) => Unknown([c, l])
    case LackingLetter(c, _, l) => Missing([c, l])
  }

  function Spelled(ps: seq<Piece>, t: Tail): seq<string> {
    if ps == [] then LastWords(t) else Words(ps[0]) + Spelled(ps[1..], t)
  }

  predicate AllGood(specs: Specs, stop: bool, ps: seq<Piece>) {
    forall i :: 0 <= i < |ps| ==> Good(specs, stop, ps[i])
  }

  /** The options and operands of the pieces before those of the end; an error at the end is all there is. */
  function Meaning(specs: Specs, stop: bool, ps: seq<Piece>, t: Tail): Result
    requires AllGood(specs, stop, ps)
  {
    if ps == [] then Ending(t)
    else
      var r := Meaning(specs, stop, ps[1..], t);
      if !r.Ok? then r
      else Ok(Options(specs, stop, ps[0]) + r.opts, (if ps[0].Plain? then [ps[0].operand] else []) + r.operands)
  }

  // ---------- a list read so parses so ----------

  function Prepend(os: seq<Opt>, r: Result): Result {
    if r.Ok? then Ok(os + r.opts, r.operands) else r
  }

  lemma PrependPush(o: Opt, os: seq<Opt>, r: Result)
    ensures Push(o, Prepend(os, r)) == Prepend([o] + os, r)
  {
    if r.Ok? { assert [o] + (os + r.opts) == [o] + os + r.opts; }
  }

  /** The letters of a cluster up to the m-th take no value. */
  lemma {:induction false} ParseFlags(specs: Specs, stop: bool, args: seq<string>, j: nat, ls: string)
    requires args != [] && 1 <= j && j + |ls| <= |args[0]| && args[0][j..j + |ls|] == ls
    requires Flags(specs, args[0][0], ls)
    ensures ParseShort(specs, stop, args, j)
         == Prepend(FlagOpts(specs, args[0][0], ls), ParseShort(specs, stop, args, j + |ls|))
    decreases |ls|
  {
    hide ParseShort;
    var c := args[0][0];
    if ls == "" {
      PrependNone(ParseShort(specs, stop, args, j));
      assert FlagOpts(specs, c, ls) == [];
    } else {
      assert args[0][j] == args[0][j..j + |ls|][0] == ls[0];
      assert args[0][j + 1..j + 1 + |ls[1..]|] == args[0][j..j + |ls|][1..] == ls[1..];
      assert Takes(specs, [c, ls[0]], NoValue);
      ShortRules(specs, stop, args, j);
      ParseFlags(specs, stop, args, j + 1, ls[1..]);
      PrependPush(One(specs, [c, ls[0]], ""), FlagOpts(specs, c, ls[1..]), ParseShort(specs, stop, args, j + |ls|));
      assert [One(specs, [c, ls[0]], "")] + FlagOpts(specs, c, ls[1..]) == FlagOpts(specs, c, ls);
    }
  }

  lemma PrependNone(r: Result)
    ensures Prepend([], r) == r
  {
    if r.Ok? { assert [] + r.opts == r.opts; }
  }

  lemma PrependOne(os: seq<Opt>, o: Opt, r: Result)
    ensures Prepend(os, Push(o, r)) == Prepend(os + [o], r)
  {
    if r.Ok? { assert os + ([o] + r.opts) == os + [o] + r.opts; }
  }

  /** A word of one-letter options is parsed from its second character on. */
  lemma ClusterStarts(specs: Specs, stop: bool, args: seq<string>)
    requires args != [] && Cluster(args[0])
    ensures Parse(specs, stop, args) == ParseShort(specs, stop, args, 1)
  {
    hide ParseShort;
    assert args[0][..2] == [args[0][0], args[0][1]];
    assert args[0] != "--";
    ParseStarts(specs, stop, args);
  }

  lemma LongStarts(specs: Specs, stop: bool, args: seq<string>, n: string)
    requires args != [] && LongName(n)
    requires (args[0] == n && n != "--") || exists v: string :: args[0] == n + "=" + v
    ensures Parse(specs, stop, args) == ParseLong(specs, stop, args) && CutName(args[0]) == n
  {
    hide ParseLong, CutName;
    assert n[..2] == "--" && n[0] == n[..2][0] && n[1] == n[..2][1];
    if args[0] == n {
      NoCut(n);
    } else {
      var v :| args[0] == n + "=" + v;
      CutAt(n, v);
      assert args[0][..2] == n[..2];
    }
    ParseStarts(specs, stop, args);
  }

  lemma Head(w: string, rest: seq<string>)
    ensures ([w] + rest)[0] == w && ([w] + rest)[1..] == rest
  { }

  lemma Head2(w: string, v: string, rest: seq<string>)
    ensures var a := [w, v] + rest; a[0] == w && a[1] == v && a[2..] == rest && a[1..] == [v] + rest
  { }

  lemma ClusterWord(c: char, ls: string, l: char, v: string)
    ensures var w := [c] + ls + ([l] + v);
            w[0] == c && w[1..1 + |ls|] == ls && w[1 + |ls|] == l && w[1 + |ls| + 1..] == v && |w| == |ls| + 2 + |v|
    ensures v == "" ==> [c] + ls + ([l] + v) == [c] + ls + [l]
  {
    var w := [c] + ls + ([l] + v);
    assert w[1..1 + |ls|] == ls;
    if v == "" { assert [l] + v == [l]; }
  }

  lemma ParsePiece(specs: Specs, stop: bool, p: Piece, rest: seq<string>)
    requires Good(specs, stop, p) && !p.Plain?
    ensures Parse(specs, stop, Words(p) + rest) == Prepend(Options(specs, stop, p), Parse(specs, stop, rest))
  {
    hide Parse, ParseLong, ParseShort, LongName, Cluster, Flags;
    var args := Words(p) + rest;
    match p
    case Long(n) =>
      Head(n, rest);
      LongStarts(specs, stop, args, n);
      LongRules(specs, stop, args);
    case LongWith(n, v) =>
      Head(n + "=" + v, rest);
      LongStarts(specs, stop, args, n);
      LongRules(specs, stop, args);
      assert (n + "=" + v)[|n| + 1..] == v;
    case LongThen(n, v) =>
      Head2(n, v, rest);
      LongStarts(specs, stop, args, n);
      LongRules(specs, stop, args);
    case Letters(c, ls) =>
      Head([c] + ls, rest);
      assert args[0][1..1 + |ls|] == ls;
      ClusterStarts(specs, stop, args);
      ParseFlags(specs, stop, args, 1, ls);
      ShortEnd(specs, stop, args);
    case LettersWith(c, ls, l, v) =>
      Head([c] + ls + ([l] + v), rest);
      ParseLetters(specs, stop, args, c, ls, l, v);
      PrependOne(FlagOpts(specs, c, ls), One(specs, [c, l], v), Parse(specs, stop, rest));
    case LettersThen(c, ls, l, v) =>
      Head2([c] + ls + [l], v, rest);
      ClusterWord(c, ls, l, "");
      ParseLetters(specs, stop, args, c, ls, l, "");
      PrependOne(FlagOpts(specs, c, ls), One(specs, [c, l], v), Parse(specs, stop, rest));
  }

  /** The letters without a value, and then the rule for the next one. */
  lemma ParseLetters(specs: Specs, stop: bool, args: seq<string>, c: char, ls: string, l: char, v: string)
    requires args != [] && args[0] == [c] + ls + ([l] + v) && Cluster(args[0]) && Flags(specs, c, ls)
    ensures Parse(specs, stop, args) == Prepend(FlagOpts(specs, c, ls),
              if [c, l] !in specs then Unknown([c, l])
              else if specs[[c, l]].mode == NoValue then
                Push(One(specs, [c, l], ""), ParseShort(specs, stop, args, |ls| + 2))
              else if v != "" then Push(One(specs, [c, l], v), Parse(specs, stop, args[1..]))
              else if |args| == 1 then Missing([c, l])
              else Push(One(specs, [c, l], args[1]), Parse(specs, stop, args[2..])))
  {
    hide Parse, ParseShort, Cluster, Flags;
    ClusterWord(c, ls, l, v);
    ClusterStarts(specs, stop, args);
    ParseFlags(specs, stop, args, 1, ls);
    ShortRules(specs, stop, args, 1 + |ls|);
  }

  lemma LongRules(specs: Specs, stop: bool, args: seq<string>)
    requires args != []
    ensures var n := CutName(args[0]);
            ParseLong(specs, stop, args) ==
            if n !in specs then Unknown(n)
            else if specs[n].mode == NoValue then
              if |n| < |args[0]| then Unknown(n) else Push(One(specs, n, ""), Parse(specs, stop, args[1..]))
            else if |n| < |args[0]| then Push(One(specs, n, args[0][|n| + 1..]), Parse(specs, stop, args[1..]))
            else if |args| == 1 then Missing(n)
            else Push(One(specs, n, args[1]), Parse(specs, stop, args[2..]))
  {
    hide Parse, CutName;
  }

  lemma ParseTail(specs: Specs, stop: bool, t: Tail)
    requires GoodTail(specs, stop, t)
    ensures Parse(specs, stop, LastWords(t)) == Ending(t)
  {
    hide Parse, ParseLong, ParseShort, LongName, Cluster, Flags;
    var args := LastWords(t);
    ParseRules(specs, stop, args);
    match t
    case Done =>
    case Marker(operands) => Head("--", operands);
    case Stopped(first, rest) => Head(first, rest);
    case NoSuchLong(n, v, rest) =>
      Head(if v.Some? then n + "=" + v.value else n, rest);
      LongStarts(specs, stop, args, n);
      LongRules(specs, stop, args);
    case Unwanted(n, v, rest) =>
      Head(n + "=" + v, rest);
      LongStarts(specs, stop, args, n);
      LongRules(specs, stop, args);
    case Lacking(n) =>
      LongStarts(specs, stop, args, n);
      LongRules(specs, stop, args);
    case NoSuchLetter(c, ls, l, more, rest) =>
      Head([c] + ls + ([l] + more), rest);
      ParseLetters(specs, stop, args, c, ls, l, more);
    case LackingLetter(c, ls, l) =>
      ClusterWord(c, ls, l, "");
      ParseLetters(specs, stop, args, c, ls, l, "");
  }

  lemma {:induction false} ParseSpelled(specs: Specs, stop: bool, ps: seq<Piece>, t: Tail)
    requires AllGood(specs, stop, ps) && GoodTail(specs, stop, t)
    ensures Parse(specs, stop, Spelled(ps, t)) == Meaning(specs, stop, ps, t)
    decreases |ps|
  {
    hide Parse, Good, GoodTail, Words, LastWords, Options;
    if ps == [] {
      ParseTail(specs, stop, t);
    } else {
      var rest := Spelled(ps[1..], t);
      ParseSpelled(specs, stop, ps[1..], t);
      if ps[0].Plain? {
        PlainPiece(specs, stop, ps[0], rest);
      } else {
        ParsePiece(specs, stop, ps[0], rest);
        var r := Parse(specs, stop, rest);
        if r.Ok? { assert [] + r.operands == r.operands; }
      }
    }
  }

  lemma PlainPiece(specs: Specs, stop: bool, p: Piece, rest: seq<string>)
    requires Good(specs, stop, p) && p.Plain?
    ensures Options(specs, stop, p) == []
    ensures var r := Parse(specs, stop, rest);
            Parse(specs, stop, Words(p) + rest) == if r.Ok? then Ok([] + r.opts, [p.operand] + r.operands) else r
  {
    hide Parse;
    Head(p.operand, rest);
    ParseRules(specs, stop, [p.operand] + rest);
    var r := Parse(specs, stop, rest);
    if r.Ok? { assert [] + r.opts == r.opts; }
  }

  // ---------- every list reads in some way ----------

  lemma {:induction false} Reading(specs: Specs, stop: bool, args: seq<string>) returns (ps: seq<Piece>, t: Tail)
    ensures AllGood(specs, stop, ps) && GoodTail(specs, stop, t) && Spelled(ps, t) == args
    decreases |args|
  {
    hide Good, GoodTail, Words, LastWords;
    ps, t := [], Done;
    if args == [] {
      TailNone(specs, stop);
    } else {
      var p, found, rest := FirstPiece(specs, stop, args);
      if found.Some? {
        ps, t := Reading(specs, stop, rest);
        assert ([found.value] + ps)[1..] == ps;
        ps := [found.value] + ps;
      } else {
        t := p;
      }
    }
  }

  lemma TailNone(specs: Specs, stop: bool)
    ensures GoodTail(specs, stop, Done) && LastWords(Done) == []
  { }

  /** The first piece, or the end if there is none. */
  lemma FirstPiece(specs: Specs, stop: bool, args: seq<string>)
    returns (t: Tail, found: Option<Piece>, rest: seq<string>)
    requires args != []
    ensures found.Some? ==>
              Good(specs, stop, found.value) && args == Words(found.value) + rest && |rest| < |args|
    ensures found.None? ==> GoodTail(specs, stop, t) && LastWords(t) == args
  {
    hide Flags;
    var w := args[0];
    t, found, rest := Done, None, args[1..];
    assert args == [w] + args[1..];
    if w == "--" {
      t := Marker(args[1..]);
    } else if IsPlain(w) {
      if stop { t := Stopped(w, args[1..]); } else { found := Some(Plain(w)); }
    } else if w[0] == '-' && w[1] == '-' {
      t, found, rest := FirstLong(specs, stop, args);
    } else {
      t, found, rest := FirstCluster(specs, stop, args);
    }
  }

  lemma FirstLong(specs: Specs, stop: bool, args: seq<string>)
    returns (t: Tail, found: Option<Piece>, rest: seq<string>)
    requires args != [] && |args[0]| > 2 && args[0][0] == '-' && args[0][1] == '-'
    ensures found.Some? ==>
              Good(specs, stop, found.value) && args == Words(found.value) + rest && |rest| < |args|
    ensures found.None? ==> GoodTail(specs, stop, t) && LastWords(t) == args
  {
    var w, n := args[0], CutName(args[0]);
    assert w[..2] == "--";
    PosixArgs.LongName(w);
    hide CutName;
    t, found, rest := Done, None, args[1..];
    assert args == [w] + args[1..];
    var value := if |n| < |w| then Some(w[|n| + 1..]) else None;
    assert w == if value.Some? then n + "=" + value.value else n;
    if n !in specs {
      t := NoSuchLong(n, value, args[1..]);
    } else if specs[n].mode == NoValue {
      if value.Some? { t := Unwanted(n, value.value, args[1..]); } else { found := Some(Long(n)); }
    } else if value.Some? {
      found := Some(LongWith(n, value.value));
    } else if |args| == 1 {
      t := Lacking(n);
      assert args == [n];
    } else {
      found, rest := Some(LongThen(n, args[1])), args[2..];
      assert args == [n, args[1]] + args[2..];
    }
  }

  /** How many letters from j on take no value. */
  lemma {:induction false} FlagRun(specs: Specs, c: char, ls: string) returns (m: nat)
    ensures m <= |ls| && Flags(specs, c, ls[..m]) && (m < |ls| ==> !Takes(specs, [c, ls[m]], NoValue))
    decreases |ls|
  {
    m := 0;
    if ls != "" && Takes(specs, [c, ls[0]], NoValue) {
      var k := FlagRun(specs, c, ls[1..]);
      m := k + 1;
      forall i | 0 <= i < m ensures Takes(specs, [c, ls[..m][i]], NoValue) {
        if i > 0 { assert ls[..m][i] == ls[1..][..k][i - 1]; }
      }
    }
  }

  lemma FirstCluster(specs: Specs, stop: bool, args: seq<string>)
    returns (t: Tail, found: Option<Piece>, rest: seq<string>)
    requires args != [] && Cluster(args[0])
    ensures found.Some? ==>
              Good(specs, stop, found.value) && args == Words(found.value) + rest && |rest| < |args|
    ensures found.None? ==> GoodTail(specs, stop, t) && LastWords(t) == args
  {
    hide Flags;
    var w, c := args[0], args[0][0];
    var m := FlagRun(specs, c, w[1..]);
    var ls := w[1..][..m];
    t, found, rest := Done, None, args[1..];
    assert args == [w] + args[1..];
    if m == |w| - 1 {
      assert w == [c] + ls;
      found := Some(Letters(c, ls));
    } else {
      var l, v := w[m + 1], w[m + 2..];
      assert l == w[1..][m] && w == [c] + ls + ([l] + v);
      if [c, l] !in specs {
        t := NoSuchLetter(c, ls, l, v, args[1..]);
      } else if v != "" {
        found := Some(LettersWith(c, ls, l, v));
      } else {
        ClusterWord(c, ls, l, v);
        if |args| == 1 {
          t := LackingLetter(c, ls, l);
          assert args == [[c] + ls + [l]];
        } else {
          found, rest := Some(LettersThen(c, ls, l, args[1])), args[2..];
          assert args == [w, args[1]] + args[2..];
        }
      }
    }
  }

  /**
   * A parse returns exactly what the argument list reads as: options and operands in the order written when the list
   * ends without an error, and otherwise the first error, an unknown option or a missing value, and nothing else.
   */
  lemma ParseIff(specs: Specs, stop: bool, args: seq<string>, r: Result)
    ensures Parse(specs, stop, args) == r <==>
            exists ps, t :: AllGood(specs, stop, ps) && GoodTail(specs, stop, t) && Spelled(ps, t) == args
                            && Meaning(specs, stop, ps, t) == r
  {
    hide Parse, AllGood, GoodTail, Spelled, Meaning;
    if Parse(specs, stop, args) == r {
      var ps, t := Reading(specs, stop, args);
      ParseSpelled(specs, stop, ps, t);
      assert AllGood(specs, stop, ps) && GoodTail(specs, stop, t) && Spelled(ps, t) == args
          && Meaning(specs, stop, ps, t) == r;
    }
    forall ps, t | AllGood(specs, stop, ps) && GoodTail(specs, stop, t) && Spelled(ps, t) == args
      ensures Parse(specs, stop, args) == Meaning(specs, stop, ps, t)
    {
      ParseSpelled(specs, stop, ps, t);
    }
  }

  /** It succeeds exactly when the end is none of the errors. */
  lemma {:induction false} MeaningOk(specs: Specs, stop: bool, ps: seq<Piece>, t: Tail)
    requires AllGood(specs, stop, ps)
    ensures Meaning(specs, stop, ps, t).Ok? <==> t.Done? || t.Marker? || t.Stopped?
    ensures !Meaning(specs, stop, ps, t).Ok? ==> Meaning(specs, stop, ps, t) == Ending(t)
    decreases |ps|
  {
    hide Good, Options;
    if ps != [] { MeaningOk(specs, stop, ps[1..], t); }
  }

  // ---------- the index of names ----------

  /** A name stands for the last spec that lists it. */
  lemma {:induction false} SpecsLast(specs: seq<Spec>, name: string)
    ensures name in SpecsOf(specs) <==> exists i :: 0 <= i < |specs| && name in specs[i].names
    ensures name in SpecsOf(specs) ==>
              exists i :: 0 <= i < |specs| && name in specs[i].names && SpecsOf(specs)[name] == specs[i]
                          && forall j :: i < j < |specs| ==> name !in specs[j].names
    decreases |specs|
  {
    if specs != [] {
      var n := |specs| - 1;
      SpecsLast(specs[..n], name);
      NamedIs(SpecsOf(specs[..n]), specs[n], specs[n].names, name);
      if name !in specs[n].names && name in SpecsOf(specs[..n]) {
        var i :| 0 <= i < n && name in specs[..n][i].names && SpecsOf(specs[..n])[name] == specs[..n][i]
            && forall j :: i < j < n ==> name !in specs[..n][j].names;
        assert name in specs[i].names;
        forall j | i < j < |specs| ensures name !in specs[j].names {
          if j < n { assert specs[..n][j] == specs[j]; }
        }
      }
      if i :| 0 <= i < |specs| && name in specs[i].names {
        if i < n { assert name in specs[..n][i].names; }
      }
    }
  }

  lemma {:induction false} NamedIs(m: Specs, spec: Spec, names: seq<string>, name: string)
    ensures name in Named(m, spec, names) <==> name in names || name in m
    ensures name in names ==> Named(m, spec, names)[name] == spec
    ensures name !in names && name in m ==> Named(m, spec, names)[name] == m[name]
    decreases |names|
  {
    if names != [] {
      NamedIs(m, spec, names[..|names| - 1], name);
      assert names == names[..|names| - 1] + [names[|names| - 1]];
    }
  }
}

/**
 * The option parser of section 12.2 of the POSIX.1-2017 Base Definitions; characters of a string stand for its bytes.
 */
module PosixArgs {
  import opened Basics

  datatype Mode = NoValue | Required
  datatype Spec = Spec(canonical: string, names: seq<string>, mode: Mode)
  datatype Opt = Opt(canonical: string, name: string, value: string)

  datatype Result = Ok(opts: seq<Opt>, operands: seq<string>) | Unknown(name: string) | Missing(name: string)

  type Specs = map<string, Spec>

  predicate IsOptionToken(arg: string) {
    |arg| >= 2 && (arg[0] == '-' || arg[0] == '+')
  }

  predicate IsLong(arg: string) {
    |arg| >= 2 && arg[..2] == "--"
  }

  /** The part before the first "=", and whether there is one. */
  function CutName(arg: string): (n: string)
    ensures |n| <= |arg| && arg[..|n|] == n && '=' !in n && (|n| < |arg| ==> arg[|n|] == '=')
  {
    if arg == "" || arg[0] == '=' then "" else [arg[0]] + CutName(arg[1..])
  }

  function Push(o: Opt, r: Result): Result {
    if r.Ok? then Ok([o] + r.opts, r.operands) else r
  }

  function Operand(arg: string, r: Result): Result {
    if r.Ok? then Ok(r.opts, [arg] + r.operands) else r
  }

  function Parse(specs: Specs, stop: bool, args: seq<string>): Result
    decreases |args|, 0
  {
    if args == [] then Ok([], [])
    else if args[0] == "--" then Ok([], args[1..])
    else if !IsOptionToken(args[0]) then
      (if stop then Ok([], args) else Operand(args[0], Parse(specs, stop, args[1..])))
    else if IsLong(args[0]) then ParseLong(specs, stop, args)
    else ParseShort(specs, stop, args, 1)
  }

  function ParseLong(specs: Specs, stop: bool, args: seq<string>): Result
    requires args != []
    decreases |args| - 1, |args[0]| + 1
  {
    var name := CutName(args[0]);
    var hasValue := |name| < |args[0]|;
    if name !in specs then Unknown(name)
    else
      var spec := specs[name];
      if spec.mode == NoValue then
        (if hasValue then Unknown(name) else Push(Opt(spec.canonical, name, ""), Parse(specs, stop, args[1..])))
      else if hasValue then Push(Opt(spec.canonical, name, args[0][|name| + 1..]), Parse(specs, stop, args[1..]))
      else if |args| == 1 then Missing(name)
      else Push(Opt(spec.canonical, name, args[1]), Parse(specs, stop, args[2..]))
  }

  /** A cluster of one-letter options, from letter j on. */
  function ParseShort(specs: Specs, stop: bool, args: seq<string>, j: nat): Result
    requires args != [] && 1 <= j <= |args[0]|
    decreases |args| - 1, |args[0]| + 1 - j
  {
    if j == |args[0]| then Parse(specs, stop, args[1..])
    else
      var name := [args[0][0], args[0][j]];
      if name !in specs then Unknown(name)
      else
        var spec := specs[name];
        if spec.mode == NoValue then Push(Opt(spec.canonical, name, ""), ParseShort(specs, stop, args, j + 1))
        else if j + 1 < |args[0]| then Push(Opt(spec.canonical, name, args[0][j + 1..]), Parse(specs, stop, args[1..]))
        else if |args| == 1 then Missing(name)
        else Push(Opt(spec.canonical, name, args[1]), Parse(specs, stop, args[2..]))
  }

  // ---------- what a parsed option is ----------

  /** An option as its spec has it, under a name that is one letter or long, without an attached value. */
  predicate Genuine(specs: Specs, o: Opt) {
    && o.name in specs && o.canonical == specs[o.name].canonical
    && (specs[o.name].mode == NoValue ==> o.value == "")
    && IsOptionToken(o.name)
    && (if IsLong(o.name) then '=' !in o.name else |o.name| == 2)
  }

  predicate AllGenuine(specs: Specs, opts: seq<Opt>) {
    forall i :: 0 <= i < |opts| ==> Genuine(specs, opts[i])
  }

  lemma {:induction false} ParseGenuine(specs: Specs, stop: bool, args: seq<string>)
    requires Parse(specs, stop, args).Ok?
    ensures AllGenuine(specs, Parse(specs, stop, args).opts)
    decreases |args|, 0
  {
    if args != [] && args[0] != "--" {
      if !IsOptionToken(args[0]) {
        if !stop { ParseGenuine(specs, stop, args[1..]); }
      } else if IsLong(args[0]) {
        LongGenuine(specs, stop, args);
      } else {
        ShortGenuine(specs, stop, args, 1);
      }
    }
  }

  lemma {:induction false} LongGenuine(specs: Specs, stop: bool, args: seq<string>)
    requires args != [] && IsLong(args[0]) && ParseLong(specs, stop, args).Ok?
    ensures AllGenuine(specs, ParseLong(specs, stop, args).opts)
    decreases |args| - 1, |args[0]| + 1
  {
    var name := CutName(args[0]);
    LongName(args[0]);
    var spec := specs[name];
    if spec.mode == NoValue || |name| < |args[0]| {
      ParseGenuine(specs, stop, args[1..]);
    } else {
      ParseGenuine(specs, stop, args[2..]);
    }
  }

  lemma LongName(arg: string)
    requires IsLong(arg)
    ensures IsLong(CutName(arg)) && IsOptionToken(CutName(arg))
  {
    assert arg[..2] == "--" && arg[0] == '-' && arg[1] == '-';
    var n := CutName(arg);
    assert |n| < |arg| ==> arg[|n|] == '=';
    assert n[..2] == arg[..|n|][..2] == arg[..2];
  }

  lemma {:induction false} ShortGenuine(specs: Specs, stop: bool, args: seq<string>, j: nat)
    requires args != [] && 1 <= j <= |args[0]| && IsOptionToken(args[0]) && ParseShort(specs, stop, args, j).Ok?
    ensures AllGenuine(specs, ParseShort(specs, stop, args, j).opts)
    decreases |args| - 1, |args[0]| + 1 - j
  {
    if j == |args[0]| {
      ParseGenuine(specs, stop, args[1..]);
    } else {
      var spec := specs[[args[0][0], args[0][j]]];
      if spec.mode == NoValue {
        ShortGenuine(specs, stop, args, j + 1);
      } else if j + 1 < |args[0]| {
        ParseGenuine(specs, stop, args[1..]);
      } else {
        ParseGenuine(specs, stop, args[2..]);
      }
    }
  }

  // ---------- rendering ----------

  /** The option on its own and, if it takes one, its value after it. */
  function RenderOne(specs: Specs, o: Opt): seq<string>
    requires o.name in specs
  {
    if specs[o.name].mode == NoValue then [o.name] else [o.name, o.value]
  }

  /** Separate options and values, the end-of-options marker, and the operands. */
  function Render(specs: Specs, opts: seq<Opt>, operands: seq<string>): seq<string>
    requires AllGenuine(specs, opts)
  {
    if opts == [] then ["--"] + operands else RenderOne(specs, opts[0]) + Render(specs, opts[1..], operands)
  }

  lemma ParseOne(specs: Specs, stop: bool, o: Opt, rest: seq<string>)
    requires Genuine(specs, o) && o.name != "--"
    ensures Parse(specs, stop, RenderOne(specs, o) + rest) == Push(o, Parse(specs, stop, rest))
  {
    hide Parse;
    var args := RenderOne(specs, o) + rest;
    assert args[0] == o.name;
    if specs[o.name].mode == NoValue {
      assert args[1..] == rest;
    } else {
      assert args[1] == o.value && args[2..] == rest;
    }
    ParseStarts(specs, stop, args);
    if IsLong(o.name) {
      NoCut(o.name);
    } else {
      assert o.name == [o.name[0], o.name[1]];
      ShortEnd(specs, stop, args);
    }
  }

  lemma ParseStarts(specs: Specs, stop: bool, args: seq<string>)
    requires args != [] && IsOptionToken(args[0]) && args[0] != "--"
    ensures Parse(specs, stop, args) == if IsLong(args[0]) then ParseLong(specs, stop, args)
              else ParseShort(specs, stop, args, 1)
  { }

  lemma ShortEnd(specs: Specs, stop: bool, args: seq<string>)
    requires args != [] && |args[0]| >= 1
    ensures ParseShort(specs, stop, args, |args[0]|) == Parse(specs, stop, args[1..])
  { }

  lemma NoCut(name: string)
    requires '=' !in name
    ensures CutName(name) == name
  {
    assert name[..|name|] == name;
  }

  /** Parsing what was rendered gives the options and operands back, in either mode. */
  lemma {:induction false} ParseRendered(specs: Specs, stop: bool, opts: seq<Opt>, operands: seq<string>)
    requires AllGenuine(specs, opts) && forall i :: 0 <= i < |opts| ==> opts[i].name != "--"
    ensures Parse(specs, stop, Render(specs, opts, operands)) == Ok(opts, operands)
    decreases |opts|
  {
    hide Genuine;
    if opts == [] {
      assert (["--"] + operands)[1..] == operands;
    } else {
      ParseRendered(specs, stop, opts[1..], operands);
      ParseOne(specs, stop, opts[0], Render(specs, opts[1..], operands));
      assert [opts[0]] + opts[1..] == opts;
    }
  }

  /** An option named "--" would end the options where it stands. */
  lemma {:induction false} MarkerCuts(specs: Specs, stop: bool, opts: seq<Opt>, operands: seq<string>)
    requires AllGenuine(specs, opts) && exists i :: 0 <= i < |opts| && opts[i].name == "--"
    ensures var r := Parse(specs, stop, Render(specs, opts, operands)); r.Ok? ==> |r.opts| < |opts|
    decreases |opts|
  {
    var o := opts[0];
    var rest := Render(specs, opts[1..], operands);
    if o.name == "--" {
      assert Render(specs, opts, operands)[0] == "--";
    } else {
      var i :| 0 <= i < |opts| && opts[i].name == "--";
      assert opts[1..][i - 1].name == "--";
      MarkerCuts(specs, stop, opts[1..], operands);
      ParseOne(specs, stop, o, rest);
    }
  }

  /**
   * A successful parse, rendered as separate options and values and parsed again in any mode, gives the same options
   * and operands exactly when none of its options is named "--".
   */
  lemma RoundTripIff(specs: Specs, stop: bool, again: bool, args: seq<string>)
    requires Parse(specs, stop, args).Ok?
    ensures AllGenuine(specs, Parse(specs, stop, args).opts)
    ensures var r := Parse(specs, stop, args);
            Parse(specs, again, Render(specs, r.opts, r.operands)) == r <==>
            forall i :: 0 <= i < |r.opts| ==> r.opts[i].name != "--"
  {
    hide Parse, Render, AllGenuine;
    ParseGenuine(specs, stop, args);
    var r := Parse(specs, stop, args);
    if forall i :: 0 <= i < |r.opts| ==> r.opts[i].name != "--" {
      ParseRendered(specs, again, r.opts, r.operands);
    } else {
      MarkerCuts(specs, again, r.opts, r.operands);
    }
  }

  /** A failing input: with a spec named "--" that takes a value, "--=v" parses, and rendered it is two operands. */
  lemma MarkerBreaks(again: bool)
    ensures var specs := map["--" := Spec("x", ["--"], Required)];
            var r := Ok([Opt("x", "--", "v")], []);
            && Parse(specs, again, ["--=v"]) == r
            && Parse(specs, again, Render(specs, r.opts, r.operands)) == Ok([], ["v", "--"])
  {
    var specs := map["--" := Spec("x", ["--"], Required)];
    ValueParses(specs, again);
    var opts: seq<Opt> := [Opt("x", "--", "v")];
    assert opts[1..] == [] && Render(specs, [], []) == ["--"];
    assert Render(specs, opts, []) == ["--", "v", "--"];
    var shown: seq<string> := ["--", "v", "--"];
    assert shown[1..] == ["v", "--"];
  }

  /** Another: with "-a" and "--" that take no value, "-a-" parses, and rendered its "--" ends the options. */
  lemma ClusterBreaks(again: bool)
    ensures var specs := map["-a" := Spec("a", ["-a"], NoValue), "--" := Spec("x", ["--"], NoValue)];
            var r := Ok([Opt("a", "-a", ""), Opt("x", "--", "")], []);
            && Parse(specs, again, ["-a-"]) == r
            && AllGenuine(specs, r.opts) && Parse(specs, again, Render(specs, r.opts, r.operands)) != r
  {
    hide Render;
    var specs := map["-a" := Spec("a", ["-a"], NoValue), "--" := Spec("x", ["--"], NoValue)];
    ClusterParses(specs, again, 'a');
    ParseGenuine(specs, again, ["-a-"]);
    var r := Parse(specs, again, ["-a-"]);
    assert r.opts[1].name == "--";
    RoundTripIff(specs, again, again, ["-a-"]);
  }

  lemma ClusterParses(specs: Specs, stop: bool, c: char)
    requires c != '-' && Letter(specs, c) && "--" in specs && specs["--"].mode == NoValue
    ensures var name := ['-', c];
            Parse(specs, stop, [['-', c, '-']])
            == Ok([Opt(specs[name].canonical, name, ""), Opt(specs["--"].canonical, "--", "")], [])
  {
    var arg := ['-', c, '-'];
    var args: seq<string> := [arg];
    assert arg[..2] == ['-', c] && arg[..2][1] == c;
    assert args[1..] == [] && !IsLong(arg) && arg != "--" && IsOptionToken(arg);
    assert ['-', '-'] == "--";
    assert ParseShort(specs, stop, args, 3) == Ok([], []);
    assert ParseShort(specs, stop, args, 2) == Ok([Opt(specs["--"].canonical, "--", "")], []);
  }

  // ---------- which specs let every result come back ----------

  /** A one-letter option without a value. */
  predicate Letter(specs: Specs, c: char) {
    ['-', c] in specs && specs[['-', c]].mode == NoValue
  }

  /** A spec named "--" that takes a value, or one that does not beside a letter to stand before it in a cluster. */
  ghost predicate Marked(specs: Specs) {
    "--" in specs && (specs["--"].mode == Required || exists c :: c != '-' && Letter(specs, c))
  }

  predicate NoMarker(opts: seq<Opt>) {
    forall i :: 0 <= i < |opts| ==> opts[i].name != "--"
  }

  /** Otherwise no option is ever named "--". */
  lemma {:induction false} ParseUnmarked(specs: Specs, stop: bool, args: seq<string>)
    requires Parse(specs, stop, args).Ok? && !Marked(specs)
    ensures NoMarker(Parse(specs, stop, args).opts)
    decreases |args|, 0
  {
    hide Marked;
    if args != [] && args[0] != "--" {
      if !IsOptionToken(args[0]) {
        if !stop { ParseUnmarked(specs, stop, args[1..]); }
      } else if IsLong(args[0]) {
        LongUnmarked(specs, stop, args);
      } else {
        ShortUnmarked(specs, stop, args, 1);
      }
    }
  }

  lemma {:induction false} LongUnmarked(specs: Specs, stop: bool, args: seq<string>)
    requires args != [] && args[0] != "--" && IsLong(args[0]) && ParseLong(specs, stop, args).Ok? && !Marked(specs)
    ensures NoMarker(ParseLong(specs, stop, args).opts)
    decreases |args| - 1, |args[0]| + 1
  {
    var name := CutName(args[0]);
    assert |name| == |args[0]| ==> name == args[0];
    var spec := specs[name];
    if spec.mode == NoValue || |name| < |args[0]| {
      ParseUnmarked(specs, stop, args[1..]);
    } else {
      ParseUnmarked(specs, stop, args[2..]);
    }
  }

  lemma {:induction false} ShortUnmarked(specs: Specs, stop: bool, args: seq<string>, j: nat)
    requires args != [] && 1 <= j <= |args[0]| && IsOptionToken(args[0]) && !IsLong(args[0])
    requires ParseShort(specs, stop, args, j).Ok? && !Marked(specs)
    requires j > 1 && args[0][0] == '-' ==> Letter(specs, args[0][1])
    ensures NoMarker(ParseShort(specs, stop, args, j).opts)
    decreases |args| - 1, |args[0]| + 1 - j
  {
    hide Parse;
    if j == |args[0]| {
      ParseUnmarked(specs, stop, args[1..]);
    } else {
      var name := [args[0][0], args[0][j]];
      LetterName(specs, args[0], j);
      if specs[name].mode == NoValue {
        ShortUnmarked(specs, stop, args, j + 1);
      } else if j + 1 < |args[0]| {
        ParseUnmarked(specs, stop, args[1..]);
      } else {
        ParseUnmarked(specs, stop, args[2..]);
      }
    }
  }

  lemma LetterName(specs: Specs, arg: string, j: nat)
    requires 1 <= j < |arg| && !IsLong(arg) && !Marked(specs) && [arg[0], arg[j]] in specs
    requires j > 1 && arg[0] == '-' ==> Letter(specs, arg[1])
    ensures [arg[0], arg[j]] != "--"
  {
    assert arg[..2] == [arg[0], arg[1]];
    assert arg[0] == '-' ==> arg[1] != '-';
  }

  ghost predicate ComesBack(specs: Specs, stop: bool, again: bool, args: seq<string>) {
    Parse(specs, stop, args).Ok? ==>
      var r := Parse(specs, stop, args);
      AllGenuine(specs, r.opts) && Parse(specs, again, Render(specs, r.opts, r.operands)) == r
  }

  /** Every result comes back, in every mode, exactly when the specs cannot name an option "--". */
  lemma SpecsIff(specs: Specs)
    ensures (forall stop, again, args :: ComesBack(specs, stop, again, args)) <==> !Marked(specs)
  {
    hide Parse, Render, AllGenuine, Letter;
    if Marked(specs) {
      var args := MarkedParses(specs);
      RoundTripIff(specs, true, true, args);
      assert !ComesBack(specs, true, true, args);
    } else {
      forall stop, again, args ensures ComesBack(specs, stop, again, args) {
        if Parse(specs, stop, args).Ok? {
          ParseUnmarked(specs, stop, args);
          RoundTripIff(specs, stop, again, args);
        }
      }
    }
  }

  lemma MarkedParses(specs: Specs) returns (args: seq<string>)
    requires Marked(specs)
    ensures Parse(specs, true, args).Ok? && !NoMarker(Parse(specs, true, args).opts)
  {
    hide Letter;
    if specs["--"].mode == Required {
      ValueParses(specs, true);
      args := ["--=v"];
      assert Parse(specs, true, args).opts[0].name == "--";
    } else {
      var c :| c != '-' && Letter(specs, c);
      ClusterParses(specs, true, c);
      args := [['-', c, '-']];
      assert Parse(specs, true, args).opts[1].name == "--";
    }
  }

  lemma ValueParses(specs: Specs, stop: bool)
    requires "--" in specs && specs["--"].mode == Required
    ensures Parse(specs, stop, ["--=v"]) == Ok([Opt(specs["--"].canonical, "--", "v")], [])
  {
    var arg := "--=v";
    assert arg[1..] == "-=v" && "-=v"[1..] == "=v";
    assert CutName("=v") == "" && CutName("-=v") == "-" && CutName(arg) == "--";
    assert arg[3..] == "v" && arg != "--" && IsLong(arg);
    var args: seq<string> := [arg];
    assert args[1..] == [];
    ParseStarts(specs, stop, args);
  }

  /** In particular it does whenever no spec is named "--". */
  lemma RoundTrip(specs: Specs, stop: bool, again: bool, args: seq<string>)
    requires "--" !in specs && Parse(specs, stop, args).Ok?
    ensures AllGenuine(specs, Parse(specs, stop, args).opts)
    ensures var r := Parse(specs, stop, args); Parse(specs, again, Render(specs, r.opts, r.operands)) == r
  {
    ParseGenuine(specs, stop, args);
    RoundTripIff(specs, stop, again, args);
  }

  // ---------- spellings that mean the same ----------

  /** One letter of a cluster. */
  lemma ShortRules(specs: Specs, stop: bool, args: seq<string>, j: nat)
    requires args != [] && 1 <= j < |args[0]|
    ensures var name := [args[0][0], args[0][j]];
            ParseShort(specs, stop, args, j) ==
            if name !in specs then Unknown(name)
            else if specs[name].mode == NoValue then
              Push(Opt(specs[name].canonical, name, ""), ParseShort(specs, stop, args, j + 1))
            else if j + 1 < |args[0]| then
              Push(Opt(specs[name].canonical, name, args[0][j + 1..]), Parse(specs, stop, args[1..]))
            else if |args| == 1 then Missing(name)
            else Push(Opt(specs[name].canonical, name, args[1]), Parse(specs, stop, args[2..]))
  { }

  /** A value attached to a one-letter option is its next argument. */
  lemma AttachedShort(specs: Specs, stop: bool, name: string, value: string, rest: seq<string>)
    requires IsOptionToken(name) && |name| == 2 && name != "--" && value != "" && name in specs
              && specs[name].mode == Required
    ensures Parse(specs, stop, [name + value] + rest) == Parse(specs, stop, [name, value] + rest)
  {
    hide Parse;
    var a, b := [name + value] + rest, [name, value] + rest;
    assert a[0] == name + value && a[1..] == rest && b[0] == name && b[1] == value && b[2..] == rest;
    assert (name + value)[2..] == value && [a[0][0], a[0][1]] == name;
    assert name == [name[0], name[1]];
    ParseStarts(specs, stop, a);
    ParseStarts(specs, stop, b);
    NotLong(name, value);
    ShortRules(specs, stop, a, 1);
    ShortRules(specs, stop, b, 1);
  }

  lemma NotLong(name: string, more: string)
    requires |name| == 2 && name != "--"
    ensures !IsLong(name) && !IsLong(name + more) && name + more != "--"
  {
    assert (name + more)[..2] == name && name[..2] == name;
  }

  /** A value after "=" is a long option's next argument. */
  lemma AttachedLong(specs: Specs, stop: bool, name: string, value: string, rest: seq<string>)
    requires IsLong(name) && name != "--" && '=' !in name && name in specs && specs[name].mode == Required
    ensures Parse(specs, stop, [name + "=" + value] + rest) == Parse(specs, stop, [name, value] + rest)
  {
    hide Parse;
    var arg := name + "=" + value;
    var a, b := [arg] + rest, [name, value] + rest;
    assert a[0] == arg && a[1..] == rest && b[0] == name && b[1] == value && b[2..] == rest;
    assert arg[..2] == name[..2] && arg[0] == name[0] && name[0] == name[..2][0];
    CutAt(name, value);
    NoCut(name);
    assert arg[|name| + 1..] == value;
    ParseStarts(specs, stop, a);
    ParseStarts(specs, stop, b);
  }

  lemma {:induction false} CutAt(name: string, value: string)
    requires '=' !in name
    ensures CutName(name + "=" + value) == name
  {
    var arg := name + "=" + value;
    if name == "" {
      assert arg[0] == '=';
    } else {
      assert arg[0] == name[0] && arg[1..] == name[1..] + "=" + value;
      CutAt(name[1..], value);
    }
  }

  /** An option without a value may be split off the front of a cluster. */
  lemma ClusterSplits(specs: Specs, stop: bool, name: string, more: string, rest: seq<string>)
    requires IsOptionToken(name) && |name| == 2 && name != "--" && name in specs && specs[name].mode == NoValue
    requires more != "" && more[0] != '-'
    ensures Parse(specs, stop, [name + more] + rest) == Parse(specs, stop, [name, [name[0]] + more] + rest)
  {
    hide Parse;
    var tail := [[name[0]] + more] + rest;
    var a, b := [name + more] + rest, [name] + tail;
    assert b == [name, [name[0]] + more] + rest;
    assert a[0] == name + more && a[1..] == rest && b[0] == name && b[1..] == tail;
    assert name == [name[0], name[1]];
    ParseStarts(specs, stop, a);
    ParseStarts(specs, stop, b);
    NotLong(name, more);
    ShortRules(specs, stop, a, 1);
    ShortRules(specs, stop, b, 1);
    ShortEnd(specs, stop, b);
    assert !IsLong(tail[0]) && tail[0] != "--" by { assert tail[0][1] == more[0]; }
    ParseStarts(specs, stop, tail);
    ShiftCluster(specs, stop, a, tail, 2);
  }

  /** A cluster is read by its first character and the letters to come. */
  lemma {:induction false} ShiftCluster(specs: Specs, stop: bool, a: seq<string>, b: seq<string>, j: nat)
    requires a != [] && b != [] && a[1..] == b[1..] && 2 <= j <= |a[0]| && |b[0]| == |a[0]| - 1
    requires a[0][0] == b[0][0] && a[0][j..] == b[0][j - 1..]
    ensures ParseShort(specs, stop, a, j) == ParseShort(specs, stop, b, j - 1)
    decreases |a[0]| - j
  {
    hide Parse, ParseShort;
    if j < |a[0]| {
      assert a[0][j] == a[0][j..][0] == b[0][j - 1..][0] == b[0][j - 1];
      assert a[0][j + 1..] == a[0][j..][1..] == b[0][j - 1..][1..] == b[0][j..];
      ShortRules(specs, stop, a, j);
      ShortRules(specs, stop, b, j - 1);
      if |a| > 1 { assert a[1] == a[1..][0] == b[1..][0] == b[1] && a[2..] == a[1..][1..] == b[1..][1..] == b[2..]; }
      ShiftCluster(specs, stop, a, b, j + 1);
    } else {
      ShortEnd(specs, stop, a);
      ShortEnd(specs, stop, b);
    }
  }

  // ---------- the code ----------

  /** The parse of the arguments from i on comes after what is already parsed. */
  function Joined(parsed: seq<Opt>, operands: seq<string>, r: Result): Result {
    if r.Ok? then Ok(parsed + r.opts, operands + r.operands) else r
  }

  function SpecsOf(specs: seq<Spec>): Specs {
    if specs == [] then map[]
    else Named(SpecsOf(specs[..|specs| - 1]), specs[|specs| - 1], specs[|specs| - 1].names)
  }

  /** Later names replace earlier ones. */
  function Named(m: Specs, spec: Spec, names: seq<string>): Specs {
    if names == [] then m else Named(m, spec, names[..|names| - 1])[names[|names| - 1] := spec]
  }

  method IndexSpecs(specs: seq<Spec>) returns (byName: Specs)
    ensures byName == SpecsOf(specs)
  {
    byName := map[];
    var i := 0;
    while i < |specs|
      invariant 0 <= i <= |specs| && byName == SpecsOf(specs[..i])
    {
      var spec := specs[i];
      ghost var before := byName;
      var j := 0;
      while j < |spec.names|
        invariant 0 <= j <= |spec.names| && byName == Named(before, spec, spec.names[..j])
      {
        byName := byName[spec.names[j] := spec];
        assert spec.names[..j + 1][..j] == spec.names[..j];
        j := j + 1;
      }
      assert spec.names[..j] == spec.names && specs[..i + 1][..i] == specs[..i];
      i := i + 1;
    }
    assert specs[..i] == specs;
  }

  lemma JoinPush(parsed: seq<Opt>, operands: seq<string>, o: Opt, r: Result)
    ensures Joined(parsed, operands, Push(o, r)) == Joined(parsed + [o], operands, r)
  {
    if r.Ok? { assert parsed + ([o] + r.opts) == parsed + [o] + r.opts; }
  }

  lemma JoinOperand(parsed: seq<Opt>, operands: seq<string>, arg: string, r: Result)
    ensures Joined(parsed, operands, Operand(arg, r)) == Joined(parsed, operands + [arg], r)
  {
    if r.Ok? { assert operands + ([arg] + r.operands) == operands + [arg] + r.operands; }
  }

  lemma JoinNone(r: Result)
    ensures Joined([], [], r) == r
  {
    if r.Ok? { assert [] + r.opts == r.opts && [] + r.operands == r.operands; }
  }

  lemma JoinRest(parsed: seq<Opt>, operands: seq<string>, rest: seq<string>)
    ensures Joined(parsed, operands, Ok([], rest)) == Ok(parsed, operands + rest)
  {
    assert parsed + [] == parsed;
  }

  /** One option, or what went wrong, and how many arguments or letters it took. */
  datatype Took = Took(o: Opt, value: bool) | Failed(r: Result)

  method ParseOptions(args: seq<string>, specs: seq<Spec>, stopAtOperand: bool) returns (r: Result)
    ensures r == Parse(SpecsOf(specs), stopAtOperand, args)
  {
    hide Parse, ParseLong, ParseShort, Joined, SpecsOf, CutName;
    var byName := IndexSpecs(specs);
    var parsed, operands := [], [];
    var i := 0;
    assert args[0..] == args;
    JoinNone(Parse(byName, stopAtOperand, args));
    while i < |args|
      invariant 0 <= i <= |args|
      invariant Joined(parsed, operands, Parse(byName, stopAtOperand, args[i..])) == Parse(byName, stopAtOperand, args)
      decreases |args| - i
    {
      var arg := args[i];
      ghost var rest := args[i..];
      assert rest[0] == arg && rest[1..] == args[i + 1..];
      ParseRules(byName, stopAtOperand, rest);
      if arg == "--" {
        JoinRest(parsed, operands, args[i + 1..]);
        return Ok(parsed, operands + args[i + 1..]);
      }
      if !IsOptionToken(arg) {
        if stopAtOperand {
          JoinRest(parsed, operands, args[i..]);
          return Ok(parsed, operands + args[i..]);
        }
        JoinOperand(parsed, operands, arg, Parse(byName, stopAtOperand, args[i + 1..]));
        operands := operands + [arg];
        i := i + 1;
      } else if IsLong(arg) {
        var t := TakeLong(byName, stopAtOperand, args, i);
        if t.Failed? {
          JoinError(parsed, operands, t.r);
          return t.r;
        }
        JoinPush(parsed, operands, t.o, Parse(byName, stopAtOperand, args[if t.value then i + 2 else i + 1..]));
        parsed := parsed + [t.o];
        if t.value {
          i := i + 1;
        }
        i := i + 1;
      } else {
        var failure, valued;
        failure, parsed, valued := TakeCluster(byName, stopAtOperand, args, i, parsed, operands);
        if failure != None {
          return failure.value;
        }
        if valued {
          i := i + 1;
        }
        i := i + 1;
      }
    }
    assert args[i..] == [];
    ParseRules(byName, stopAtOperand, []);
    JoinRest(parsed, operands, []);
    assert operands + [] == operands;
    r := Ok(parsed, operands);
  }

  lemma JoinError(parsed: seq<Opt>, operands: seq<string>, r: Result)
    requires !r.Ok?
    ensures Joined(parsed, operands, r) == r
  { }

  lemma ParseRules(specs: Specs, stop: bool, args: seq<string>)
    ensures args == [] ==> Parse(specs, stop, args) == Ok([], [])
    ensures args != [] && args[0] == "--" ==> Parse(specs, stop, args) == Ok([], args[1..])
    ensures args != [] && args[0] != "--" && !IsOptionToken(args[0]) ==>
              Parse(specs, stop, args) == if stop then Ok([], args) else Operand(args[0], Parse(specs, stop, args[1..]))
    ensures args != [] && args[0] != "--" && IsOptionToken(args[0]) ==>
              Parse(specs, stop, args) == if IsLong(args[0]) then ParseLong(specs, stop, args)
                  else ParseShort(specs, stop, args, 1)
  { }

  /** A long option at position i, with its value attached, in the next argument, or not wanted. */
  method TakeLong(specs: Specs, ghost stop: bool, args: seq<string>, i: nat) returns (t: Took)
    requires i < |args|
    ensures match t
            case Failed(r) => !r.Ok? && ParseLong(specs, stop, args[i..]) == r
            case Took(o, value) =>
              && (value ==> i + 1 < |args|)
              && ParseLong(specs, stop, args[i..])
                  == Push(o, Parse(specs, stop, args[if value then i + 2 else i + 1..]))
    ensures var name := CutName(args[i]);
            match t
            case Failed(r) =>
              if name in specs && specs[name].mode == Required then
                r == Missing(name) && args[i] == name && i + 1 == |args|
              else r == Unknown(name) && (name !in specs || args[i] != name)
            case Took(o, value) =>
              && name in specs && (value <==> specs[name].mode == Required && args[i] == name)
              && (specs[name].mode == NoValue ==> args[i] == name && o == Opt(specs[name].canonical, name, ""))
              && (value ==> i + 1 < |args| && o == Opt(specs[name].canonical, name, args[i + 1]))
              && (specs[name].mode == Required && !value ==>
                  && |name| < |args[i]|
                  && o == Opt(specs[name].canonical, name, args[i][|name| + 1..]))
  {
    hide Parse, CutName;
    var arg := args[i];
    ghost var rest := args[i..];
    assert rest[0] == arg && rest[1..] == args[i + 1..];
    var name := CutName(arg);
    var hasValue := |name| < |arg|;
    if name !in specs {
      return Failed(Unknown(name));
    }
    var spec := specs[name];
    match spec.mode
    case NoValue =>
      if hasValue {
        return Failed(Unknown(name));
      }
      t := Took(Opt(spec.canonical, name, ""), false);
    case Required =>
      if hasValue {
        return Took(Opt(spec.canonical, name, arg[|name| + 1..]), false);
      }
      if i + 1 >= |args| {
        return Failed(Missing(name));
      }
      assert rest[1] == args[i + 1] && rest[2..] == args[i + 2..];
      t := Took(Opt(spec.canonical, name, args[i + 1]), true);
  }

  /**
   * The loop over the letters of a cluster, adding to the options parsed; `valued` when it took the next argument too.
   */
  method TakeCluster(specs: Specs, ghost stop: bool, args: seq<string>, i: nat, before: seq<Opt>,
                     ghost operands: seq<string>)
    returns (failure: Option<Result>, parsed: seq<Opt>, valued: bool)
    requires i < |args| && |args[i]| >= 2
    ensures failure.Some? ==>
              Joined(before, operands, ParseShort(specs, stop, args[i..], 1)) == failure.value
    ensures failure.None? ==>
              && (valued ==> i + 1 < |args|)
              && Joined(before, operands, ParseShort(specs, stop, args[i..], 1))
                 == Joined(parsed, operands, Parse(specs, stop, args[if valued then i + 2 else i + 1..]))
  {
    hide Parse, ParseShort, Joined;
    var arg := args[i];
    ghost var rest := args[i..];
    assert rest[0] == arg && rest[1..] == args[i + 1..];
    assert i + 1 < |args| ==> rest[1] == args[i + 1] && rest[2..] == args[i + 2..];
    failure, parsed, valued := None, before, false;
    var j := 1;
    while j < |arg|
      invariant 1 <= j <= |arg|
      invariant Joined(before, operands, ParseShort(specs, stop, rest, 1))
                == Joined(parsed, operands, ParseShort(specs, stop, rest, j))
      decreases |arg| - j
    {
      var name := [arg[0], arg[j]];
      ShortRules(specs, stop, rest, j);
      if name !in specs {
        JoinError(parsed, operands, Unknown(name));
        return Some(Unknown(name)), parsed, false;
      }
      var spec := specs[name];
      match spec.mode
      case NoValue =>
        var o := Opt(spec.canonical, name, "");
        JoinPush(parsed, operands, o, ParseShort(specs, stop, rest, j + 1));
        parsed := parsed + [o];
        j := j + 1;
      case Required =>
        var value := "";
        if j + 1 < |arg| {
          value := arg[j + 1..];
        } else {
          if i + 1 >= |args| {
            JoinError(parsed, operands, Missing(name));
            return Some(Missing(name)), parsed, false;
          }
          value, valued := args[i + 1], true;
        }
        var o := Opt(spec.canonical, name, value);
        JoinPush(parsed, operands, o, Parse(specs, stop, args[if valued then i + 2 else i + 1..]));
        parsed := parsed + [o];
        return;
    }
    ShortEnd(specs, stop, rest);
  }
}

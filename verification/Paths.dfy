/** Lexical path handling: absolute paths are sequences of name components from "/". */
module Paths {
  import opened Basics

  type Path = seq<string>

  /** A path string as a caller gives it: leading slash or not, then the text split at "/". */
  datatype Raw = Raw(rooted: bool, comps: seq<string>)

  predicate ProperName(c: string) {
    c != "" && c != "." && c != ".."
  }

  ghost predicate Proper(p: Path) {
    forall i :: 0 <= i < |p| ==> ProperName(p[i])
  }

  /** One component of a lexical clean: "" and "." vanish, ".." drops the last name (and stays at "/"). */
  function Push(p: Path, c: string): Path {
    if c == "" || c == "." then p
    else if c == ".." then (if p == [] then [] else p[..|p| - 1])
    else p + [c]
  }

  function CleanOnto(p: Path, comps: seq<string>): Path
    decreases |comps|
  {
    if comps == [] then p else CleanOnto(Push(p, comps[0]), comps[1..])
  }

  /** Resolution of `path` against `dir`; None is the permission error for a result outside the root. */
  function ResolvePath(root: Path, dir: Path, path: Raw): Option<Path> {
    var p := CleanOnto(if path.rooted then [] else dir, path.comps);
    if root <= p then Some(p) else None
  }

  lemma {:induction false} CleanKeepsProper(p: Path, comps: seq<string>)
    requires Proper(p)
    ensures Proper(CleanOnto(p, comps))
    decreases |comps|
  {
    if comps != [] {
      CleanKeepsProper(Push(p, comps[0]), comps[1..]);
    }
  }

  lemma {:induction false} CleanOfProper(p: Path, comps: seq<string>)
    requires Proper(comps)
    ensures CleanOnto(p, comps) == p + comps
    decreases |comps|
  {
    if comps == [] {
      assert p + comps == p;
    } else {
      CleanOfProper(p + [comps[0]], comps[1..]);
      assert p + [comps[0]] + comps[1..] == p + comps;
    }
  }

  /** Every path the resolver hands out is inside the root and has only proper names. */
  lemma ResolvedIsProper(root: Path, dir: Path, path: Raw)
    requires Proper(dir)
    ensures ResolvePath(root, dir, path).Some? ==>
              root <= ResolvePath(root, dir, path).value && Proper(ResolvePath(root, dir, path).value)
  {
    CleanKeepsProper(if path.rooted then [] else dir, path.comps);
  }

  lemma {:induction false} CleanJoin(p: Path, a: seq<string>, b: seq<string>)
    ensures CleanOnto(p, a + b) == CleanOnto(CleanOnto(p, a), b)
    decreases |a|
  {
    if a == [] {
      assert a + b == b;
    } else {
      assert (a + b)[0] == a[0] && (a + b)[1..] == a[1..] + b;
      CleanJoin(Push(p, a[0]), a[1..], b);
    }
  }

  /** Anywhere in a path a name and the ".." after it cancel, and "." and "" are nothing; so is ".." at "/". */
  lemma ResolveCancels(root: Path, dir: Path, rooted: bool, a: seq<string>, x: string, b: seq<string>)
    requires ProperName(x)
    ensures ResolvePath(root, dir, Raw(rooted, a + [x, ".."] + b)) == ResolvePath(root, dir, Raw(rooted, a + b))
    ensures ResolvePath(root, dir, Raw(rooted, a + ["."] + b)) == ResolvePath(root, dir, Raw(rooted, a + b))
    ensures ResolvePath(root, dir, Raw(rooted, a + [""] + b)) == ResolvePath(root, dir, Raw(rooted, a + b))
    ensures ResolvePath(root, dir, Raw(true, [".."] + b)) == ResolvePath(root, dir, Raw(true, b))
  {
    hide CleanOnto;
    var from := if rooted then [] else dir;
    var p := CleanOnto(from, a);
    CleanJoin(from, a, b);
    CleanTwo(p, x);
    Nothing(p, ".");
    Nothing(p, "");
    Nothing([], "..");
    CleanThrough(from, a, [x, ".."], b);
    CleanThrough(from, a, ["."], b);
    CleanThrough(from, a, [""], b);
    CleanJoin([], [".."], b);
  }

  lemma CleanTwo(p: Path, x: string)
    requires ProperName(x)
    ensures CleanOnto(p, [x, ".."]) == p
  {
    assert [x, ".."][1..] == [".."] && [".."][1..] == [];
    assert (p + [x])[..|p + [x]| - 1] == p;
  }

  lemma Nothing(p: Path, c: string)
    requires c == "" || c == "." || (c == ".." && p == [])
    ensures CleanOnto(p, [c]) == p
  {
    assert [c][1..] == [];
  }

  lemma CleanThrough(p: Path, a: seq<string>, m: seq<string>, b: seq<string>)
    ensures CleanOnto(p, a + m + b) == CleanOnto(CleanOnto(CleanOnto(p, a), m), b)
  {
    CleanJoin(p, a + m, b);
    CleanJoin(p, a, m);
  }

  /** Up n times, never past "/". */
  function Ups(n: nat): (s: seq<string>)
    ensures |s| == n
  {
    if n == 0 then [] else [".."] + Ups(n - 1)
  }

  lemma {:induction false} CleanUps(p: Path, n: nat)
    ensures CleanOnto(p, Ups(n)) == p[..if n <= |p| then |p| - n else 0]
  {
    if n > 0 {
      assert Ups(n)[0] == ".." && Ups(n)[1..] == Ups(n - 1);
      var up := Push(p, "..");
      assert up == p[..if 1 <= |p| then |p| - 1 else 0];
      CleanUps(up, n - 1);
      assert CleanOnto(p, Ups(n)) == CleanOnto(up, Ups(n - 1));
    }
  }

  /**
   * What is left when nothing cancels: a rooted path is itself, a relative one climbs and then adds its names, and
   * either is refused exactly when that lies outside the root.
   */
  lemma ResolveClimbs(root: Path, dir: Path, n: nat, names: Path)
    requires Proper(names)
    ensures ResolvePath(root, dir, Raw(true, names)) == if root <= names then Some(names) else None
    ensures var q := dir[..if n <= |dir| then |dir| - n else 0] + names;
            ResolvePath(root, dir, Raw(false, Ups(n) + names)) == if root <= q then Some(q) else None
  {
    CleanOfProper([], names);
    assert [] + names == names;
    CleanJoin(dir, Ups(n), names);
    CleanUps(dir, n);
    CleanOfProper(CleanOnto(dir, Ups(n)), names);
  }

  lemma Snoc<T>(p: seq<T>)
    requires p != []
    ensures p == p[..|p| - 1] + [p[|p| - 1]]
  { }
}

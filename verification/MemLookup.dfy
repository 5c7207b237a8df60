/** Path lookup: restart-with-remainder symlink following, against an unbounded resolution relation. */
module MemLookup {
  import opened Basics
  import opened Paths
  import opened MemGraph

  datatype Err =
    | NotExist | Exist | Permission | NotDirectory | IsDirectory | NotEmpty | TooManySymlinks | Invalid
    | BadFD | Closed | EOF | ClosedPipe | FifoBusy

  datatype Res<+T> = Ok(value: T) | Fail(err: Err)

  /** A node found and the symlink-free path it was found at. */
  datatype Found = Found(node: nat, path: Path)

  datatype Parent = Parent(node: nat, path: Path, base: string)

  /** maxSymlinkDepth */
  const MAX_DEPTH: nat := 40

  predicate IsLink(g: Graph, i: nat) {
    i in g && g[i].kind.Symlink?
  }

  /** Where a symlink met at `cwd` leads when `rest` still has to be looked up below it. */
  function LinkTarget(root: Path, cwd: Path, target: Raw, rest: Path): (t: Option<Path>)
    ensures t.Some? ==> root <= t.value
  {
    match ResolvePath(root, cwd, target)
    case None => None
    case Some(t) => if rest == [] then Some(t) else ResolvePath(root, t, Raw(false, rest))
  }

  function Find(root: Path, g: Graph, cur: nat, cwd: Path, rest: Path, follow: bool, depth: nat): (r: Res<Found>)
    requires Shaped(g) && cur in g && depth <= MAX_DEPTH
    ensures r.Ok? ==> r.value.node in g
    decreases MAX_DEPTH + 1 - depth, 0, |rest|
  {
    if rest == [] then Ok(Found(cur, cwd))
    else if !g[cur].kind.Directory? then Fail(NotDirectory)
    else if rest[0] !in g[cur].kids then Fail(NotExist)
    else
      assert Edge(cur, rest[0]) in Edges(g);
      var child := g[cur].kids[rest[0]];
      if g[child].kind.Symlink? && (rest[1..] != [] || follow) then
        match LinkTarget(root, cwd, g[child].target, rest[1..])
        case None => Fail(Permission)
        case Some(t) => Lookup(root, g, t, follow, depth + 1)
      else Find(root, g, child, cwd + [rest[0]], rest[1..], follow, depth)
  }

  /** lookupPathLocked */
  function Lookup(root: Path, g: Graph, path: Path, follow: bool, depth: nat): (r: Res<Found>)
    requires Shaped(g) && root <= path
    ensures r.Ok? ==> r.value.node in g
    decreases MAX_DEPTH + 1 - depth, 1, 0
  {
    if depth > MAX_DEPTH then Fail(TooManySymlinks)
    else if path == root then Ok(Found(ROOT, root))
    else Find(root, g, ROOT, root, path[|root|..], follow, depth)
  }

  /** lookupParentLocked */
  function LookupParent(root: Path, g: Graph, path: Path): Res<Parent>
    requires Shaped(g) && root <= path
  {
    if path == root then Fail(Permission)
    else match Lookup(root, g, path[..|path| - 1], true, 0)
      case Fail(e) => Fail(e)
      case Ok(f) =>
        if g[f.node].kind.Directory? then Ok(Parent(f.node, f.path, path[|path| - 1])) else Fail(NotDirectory)
  }

  /** One round of the lookup loop, at part i. */
  lemma FindAt(root: Path, g: Graph, cur: nat, cwd: Path, parts: Path, i: nat, follow: bool, depth: nat)
    requires Shaped(g) && cur in g && depth <= MAX_DEPTH && i < |parts|
    ensures var r := Find(root, g, cur, cwd, parts[i..], follow, depth);
            if !g[cur].kind.Directory? then r == Fail(NotDirectory)
            else if parts[i] !in g[cur].kids then r == Fail(NotExist)
            else
              var child := g[cur].kids[parts[i]];
              && child in g
              && if g[child].kind.Symlink? && (i < |parts| - 1 || follow) then
                   match LinkTarget(root, cwd, g[child].target, parts[i + 1..])
                   case None => r == Fail(Permission)
                   case Some(t) => r == Lookup(root, g, t, follow, depth + 1)
                 else r == Find(root, g, child, cwd + [parts[i]], parts[i + 1..], follow, depth)
  {
    assert parts[i..][1..] == parts[i + 1..];
    if g[cur].kind.Directory? && parts[i] in g[cur].kids {
      assert Edge(cur, parts[i]) in Edges(g);
    }
  }

  lemma LookupStart(root: Path, g: Graph, path: Path, follow: bool, depth: nat)
    requires Shaped(g) && root <= path
    ensures Lookup(root, g, path, follow, depth) ==
            if depth > MAX_DEPTH then Fail(TooManySymlinks)
            else if path == root then Ok(Found(ROOT, root))
            else Find(root, g, ROOT, root, path[|root|..], follow, depth)
  { }

  // ---------- the reference: resolve the directory first, then its last name ----------

  /**
   * `path` names node i, found at the symlink-free path p, after following h symlinks. No bound on h:
   * the parent directory is resolved first and a symlink's target is resolved on its own.
   */
  ghost predicate Resolves(root: Path, g: Graph, path: Path, follow: bool, h: nat, i: nat, p: Path)
    decreases h, |path|, 1
  {
    root <= path &&
    if path == root then h == 0 && i == ROOT && p == root
    else exists k: nat, d: nat, dp: Path :: ResolvesIn(root, g, path, follow, h, i, p, k, d, dp)
  }

  /** The same, where the parent directory is d at dp and took k of the symlinks. */
  ghost predicate ResolvesIn(root: Path, g: Graph, path: Path, follow: bool, h: nat, i: nat, p: Path, k: nat, d: nat,
                             dp: Path)
    decreases h, |path|, 0
  {
    && path != [] && k <= h && Resolves(root, g, path[..|path| - 1], true, k, d, dp)
    && IsDir(g, d) && path[|path| - 1] in g[d].kids
    && var child := g[d].kids[path[|path| - 1]];
       if IsLink(g, child) && follow then
         && k < h
         && var t := ResolvePath(root, dp, g[child].target);
            t.Some? && Resolves(root, g, t.value, follow, h - k - 1, i, p)
       else k == h && i == child && p == dp + [path[|path| - 1]]
  }

  lemma ResolvesSplit(root: Path, g: Graph, path: Path, follow: bool, h: nat, i: nat, p: Path)
    requires Resolves(root, g, path, follow, h, i, p)
    ensures root <= path
    ensures path == root ==> h == 0 && i == ROOT && p == root
    ensures path != root ==> exists k: nat, d: nat, dp: Path :: ResolvesIn(root, g, path, follow, h, i, p, k, d, dp)
  { }

  lemma ResolvesLink(root: Path, g: Graph, path: Path, follow: bool, h: nat, i: nat, p: Path, k: nat, d: nat, dp: Path)
    returns (t: Path)
    requires path != [] && IsDir(g, d) && path[|path| - 1] in g[d].kids
    requires ResolvesIn(root, g, path, follow, h, i, p, k, d, dp) && follow && IsLink(g, g[d].kids[path[|path| - 1]])
    ensures ResolvePath(root, dp, g[g[d].kids[path[|path| - 1]]].target) == Some(t)
    ensures k < h && root <= t && Resolves(root, g, t, follow, h - k - 1, i, p)
    ensures Proper(dp) ==> Proper(t)
  {
    t := ResolvePath(root, dp, g[g[d].kids[path[|path| - 1]]].target).value;
    if Proper(dp) { ResolvedIsProper(root, dp, g[g[d].kids[path[|path| - 1]]].target); }
  }

  lemma ResolvesName(root: Path, g: Graph, path: Path, follow: bool, h: nat, i: nat, p: Path, k: nat, d: nat, dp: Path)
    requires path != [] && IsDir(g, d) && path[|path| - 1] in g[d].kids
    requires ResolvesIn(root, g, path, follow, h, i, p, k, d, dp) && !(follow && IsLink(g, g[d].kids[path[|path| - 1]]))
    ensures k == h && i == g[d].kids[path[|path| - 1]] && p == dp + [path[|path| - 1]]
  { }

  /** p is a symlink-free spelling of node i below the root. */
  ghost predicate Canonical(root: Path, g: Graph, i: nat, p: Path) {
    root <= p && Proper(p) && Walk(g, ROOT, p[|root|..]) == Some(i)
  }

  // ---------- lookups along symlink-free paths ----------

  lemma {:induction false} FindAlong(root: Path, g: Graph, cur: nat, cwd: Path, p: Path, rest: Path, follow: bool,
                                     depth: nat)
    requires Shaped(g) && cur in g && depth <= MAX_DEPTH && rest != []
    requires Walk(g, cur, p).Some? && IsDir(g, Walk(g, cur, p).value)
    ensures Find(root, g, cur, cwd, p + rest, follow, depth)
         == Find(root, g, Walk(g, cur, p).value, cwd + p, rest, follow, depth)
    decreases |p|
  {
    if p == [] {
      assert p + rest == rest && cwd + p == cwd;
    } else {
      assert (p + rest)[1..] == p[1..] + rest;
      var child := g[cur].kids[p[0]];
      assert Edge(cur, p[0]) in Edges(g);
      if p[1..] != [] { assert IsDir(g, child); }
      FindAlong(root, g, child, cwd + [p[0]], p[1..], rest, follow, depth);
      assert cwd + [p[0]] + p[1..] == cwd + p;
    }
  }

  lemma LookupBelow(root: Path, g: Graph, d: nat, dp: Path, rest: Path, follow: bool, depth: nat)
    requires Shaped(g) && Canonical(root, g, d, dp) && IsDir(g, d) && rest != [] && depth <= MAX_DEPTH
    ensures Lookup(root, g, dp + rest, follow, depth) == Find(root, g, d, dp, rest, follow, depth)
  {
    var q := dp[|root|..];
    assert (dp + rest)[|root|..] == q + rest;
    FindAlong(root, g, ROOT, root, q, rest, follow, depth);
    assert root + q == dp;
  }

  lemma CanonicalChild(root: Path, g: Graph, d: nat, dp: Path, c: string)
    requires Shaped(g) && Canonical(root, g, d, dp) && IsDir(g, d) && c in g[d].kids
    ensures Canonical(root, g, g[d].kids[c], dp + [c])
  {
    assert Edge(d, c) in Edges(g);
    WalkAppend(g, ROOT, dp[|root|..], [c]);
    assert (dp + [c])[|root|..] == dp[|root|..] + [c];
  }

  // ---------- what a resolution looks like ----------

  lemma {:induction false} ResolvesCanonical(root: Path, g: Graph, path: Path, follow: bool, h: nat, i: nat, p: Path)
    requires Shaped(g) && Proper(root) && Resolves(root, g, path, follow, h, i, p)
    ensures Canonical(root, g, i, p) && i in g && (follow ==> !IsLink(g, i))
    decreases h, |path|
  {
    if path != root {
      var k: nat, d: nat, dp: Path :| ResolvesIn(root, g, path, follow, h, i, p, k, d, dp);
      ResolvesCanonical(root, g, path[..|path| - 1], true, k, d, dp);
      var child := g[d].kids[path[|path| - 1]];
      assert Edge(d, path[|path| - 1]) in Edges(g);
      if IsLink(g, child) && follow {
        var t := ResolvesLink(root, g, path, follow, h, i, p, k, d, dp);
        ResolvesCanonical(root, g, t, follow, h - k - 1, i, p);
      } else {
        CanonicalChild(root, g, d, dp, path[|path| - 1]);
      }
    }
  }

  // ---------- lookup does what the reference says ----------

  /** One name below a symlink-free path. */
  lemma LookupName(root: Path, g: Graph, d: nat, dp: Path, c: string, tail: Path, follow: bool, depth: nat)
    requires Shaped(g) && Canonical(root, g, d, dp) && IsDir(g, d) && c in g[d].kids && depth <= MAX_DEPTH
              && Proper(tail)
    ensures g[d].kids[c] in g
    ensures Lookup(root, g, dp + ([c] + tail), follow, depth) ==
            var child := g[d].kids[c];
            if IsLink(g, child) && (tail != [] || follow) then
              match ResolvePath(root, dp, g[child].target)
              case None => Fail(Permission)
              case Some(t) => Lookup(root, g, t + tail, follow, depth + 1)
            else Find(root, g, child, dp + [c], tail, follow, depth)
  {
    assert Edge(d, c) in Edges(g);
    assert ([c] + tail)[1..] == tail;
    LookupBelow(root, g, d, dp, [c] + tail, follow, depth);
    var t := ResolvePath(root, dp, g[g[d].kids[c]].target);
    if t.Some? {
      CleanOfProper(t.value, tail);
      assert t.value + [] == t.value;
    }
  }

  lemma LookupRoot(root: Path, g: Graph, follow: bool, depth: nat)
    requires Shaped(g)
    ensures Lookup(root, g, root, follow, depth) == if depth <= MAX_DEPTH then Ok(Found(ROOT, root))
              else Fail(TooManySymlinks)
  { }

  lemma LookupDeep(root: Path, g: Graph, path: Path, follow: bool, depth: nat)
    requires Shaped(g) && root <= path && depth > MAX_DEPTH
    ensures Lookup(root, g, path, follow, depth) == Fail(TooManySymlinks)
  { }

  /** Looking up below a path is looking up below what it resolves to, the symlinks met so far counted. */
  lemma {:induction false} Restart(root: Path, g: Graph, path: Path, tail: Path, follow: bool, depth: nat, h: nat,
                                   d: nat, dp: Path)
    requires Shaped(g) && Proper(root) && Proper(path) && Proper(tail) && tail != []
    requires Resolves(root, g, path, true, h, d, dp)
    ensures root <= dp
    ensures Lookup(root, g, path + tail, follow, depth) == Lookup(root, g, dp + tail, follow, depth + h)
    decreases h, |path|
  {
    hide Lookup, ResolvePath, Canonical, Shaped;
    ResolvesCanonical(root, g, path, true, h, d, dp);
    if path != root {
      var k: nat, e: nat, ep: Path :| ResolvesIn(root, g, path, true, h, d, dp, k, e, ep);
      var c, up := path[|path| - 1], path[..|path| - 1];
      Restart(root, g, up, [c] + tail, follow, depth, k, e, ep);
      assert path + tail == up + ([c] + tail);
      if depth + k <= MAX_DEPTH {
        ResolvesCanonical(root, g, up, true, k, e, ep);
        LookupName(root, g, e, ep, c, tail, follow, depth + k);
        if IsLink(g, g[e].kids[c]) {
          var t := ResolvesLink(root, g, path, true, h, d, dp, k, e, ep);
          assert Lookup(root, g, path + tail, follow, depth) == Lookup(root, g, t + tail, follow, depth + k + 1);
          Restart(root, g, t, tail, follow, depth + k + 1, h - k - 1, d, dp);
        } else {
          ResolvesName(root, g, path, true, h, d, dp, k, e, ep);
          assert ep + ([c] + tail) == dp + tail;
        }
      } else {
        LookupDeep(root, g, ep + ([c] + tail), follow, depth + k);
        LookupDeep(root, g, dp + tail, follow, depth + h);
      }
    }
  }

  lemma FindDone(root: Path, g: Graph, cur: nat, cwd: Path, follow: bool, depth: nat)
    requires Shaped(g) && cur in g && depth <= MAX_DEPTH
    ensures Find(root, g, cur, cwd, [], follow, depth) == Ok(Found(cur, cwd))
  { }

  /** A resolvable path is found when at most 40 symlinks are followed, and only then. */
  lemma {:induction false} LookupOfResolved(root: Path, g: Graph, path: Path, follow: bool, depth: nat, h: nat,
                                            i: nat, p: Path)
    requires Shaped(g) && Proper(root) && Proper(path) && Resolves(root, g, path, follow, h, i, p)
    ensures root <= path
    ensures Lookup(root, g, path, follow, depth)
         == if depth + h <= MAX_DEPTH then Ok(Found(i, p)) else Fail(TooManySymlinks)
    decreases h, |path|
  {
    hide Lookup, Find, Resolves, ResolvePath, Canonical, Shaped;
    ResolvesSplit(root, g, path, follow, h, i, p);
    if path == root {
      LookupRoot(root, g, follow, depth);
    } else {
      var k: nat, d: nat, dp: Path :| ResolvesIn(root, g, path, follow, h, i, p, k, d, dp);
      var c, up := path[|path| - 1], path[..|path| - 1];
      Restart(root, g, up, [c], follow, depth, k, d, dp);
      assert path == up + [c];
      if depth + k > MAX_DEPTH {
        LookupDeep(root, g, dp + [c], follow, depth + k);
      } else {
        ResolvesCanonical(root, g, up, true, k, d, dp);
        LookupName(root, g, d, dp, c, [], follow, depth + k);
        assert dp + ([c] + []) == dp + [c];
        if IsLink(g, g[d].kids[c]) && follow {
          var t := ResolvesLink(root, g, path, follow, h, i, p, k, d, dp);
          assert t + [] == t;
          LookupOfResolved(root, g, t, follow, depth + k + 1, h - k - 1, i, p);
          assert Lookup(root, g, path, follow, depth) == Lookup(root, g, t, follow, depth + k + 1);
        } else {
          ResolvesName(root, g, path, follow, h, i, p, k, d, dp);
          FindDone(root, g, i, p, follow, depth + k);
        }
      }
    }
  }

  lemma {:induction false} CanonicalResolves(root: Path, g: Graph, i: nat, p: Path, follow: bool)
    requires Shaped(g) && Canonical(root, g, i, p) && (follow ==> !IsLink(g, i))
    ensures Resolves(root, g, p, follow, 0, i, p)
    decreases |p|
  {
    if p == root {
      assert p[|root|..] == [];
    } else {
      var q := p[|root|..];
      var d := WalkLast(g, ROOT, q);
      var up := p[..|p| - 1];
      assert up[|root|..] == q[..|q| - 1];
      CanonicalResolves(root, g, d, up, true);
      assert p == up + [p[|p| - 1]];
      assert ResolvesIn(root, g, p, follow, 0, i, p, 0, d, up);
    }
  }

  /** A symlink on the way to `rest` costs one hop and resolves like its target. */
  lemma SpliceEnd(root: Path, g: Graph, d: nat, dp: Path, c: string, t: Path, follow: bool, h: nat, i: nat, p: Path)
    requires Shaped(g) && Canonical(root, g, d, dp) && IsDir(g, d) && c in g[d].kids && follow
    requires IsLink(g, g[d].kids[c]) && ResolvePath(root, dp, g[g[d].kids[c]].target) == Some(t)
    requires Resolves(root, g, t, follow, h, i, p)
    ensures Resolves(root, g, dp + [c], follow, h + 1, i, p)
  {
    hide Shaped, ResolvePath;
    CanonicalResolves(root, g, d, dp, true);
    assert (dp + [c])[..|dp + [c]| - 1] == dp;
    ResolvesStep(root, g, dp + [c], follow, 0, d, dp, h + 1, i, p);
  }

  lemma {:induction false} Splice(root: Path, g: Graph, d: nat, dp: Path, c: string, t: Path, rest: Path,
                                  follow: bool, h: nat, i: nat, p: Path)
    requires Shaped(g) && Canonical(root, g, d, dp) && IsDir(g, d) && c in g[d].kids
    requires IsLink(g, g[d].kids[c]) && ResolvePath(root, dp, g[g[d].kids[c]].target) == Some(t)
    requires Resolves(root, g, t + rest, follow, h, i, p) && (rest == [] ==> follow)
    ensures Resolves(root, g, dp + [c] + rest, follow, h + 1, i, p)
    decreases |rest|
  {
    hide Canonical, ResolvePath;
    CanonicalProper(root, g, d, dp);
    ResolvedIsProper(root, dp, g[g[d].kids[c]].target);
    if rest == [] {
      assert dp + [c] + rest == dp + [c] && t + rest == t;
      SpliceEnd(root, g, d, dp, c, t, follow, h, i, p);
    } else {
      var path, path' := t + rest, dp + [c] + rest;
      var k: nat, e: nat, ep: Path :| ResolvesIn(root, g, path, follow, h, i, p, k, e, ep);
      var up := rest[..|rest| - 1];
      assert path[..|path| - 1] == t + up && path'[..|path'| - 1] == dp + [c] + up;
      Splice(root, g, d, dp, c, t, up, true, k, e, ep);
      assert ResolvesIn(root, g, path', follow, h + 1, i, p, k + 1, e, ep);
    }
  }

  lemma FindLink(root: Path, g: Graph, cur: nat, cwd: Path, rest: Path, follow: bool, depth: nat) returns (t: Path)
    requires Shaped(g) && depth <= MAX_DEPTH && rest != [] && Proper(cwd) && Proper(rest)
    requires IsDir(g, cur) && rest[0] in g[cur].kids
    requires IsLink(g, g[cur].kids[rest[0]]) && (rest[1..] != [] || follow)
    requires Find(root, g, cur, cwd, rest, follow, depth).Ok?
    ensures ResolvePath(root, cwd, g[g[cur].kids[rest[0]]].target) == Some(t)
    ensures root <= t + rest[1..] && Proper(t + rest[1..])
    ensures Find(root, g, cur, cwd, rest, follow, depth) == Lookup(root, g, t + rest[1..], follow, depth + 1)
  {
    t := ResolvePath(root, cwd, g[g[cur].kids[rest[0]]].target).value;
    ResolvedIsProper(root, cwd, g[g[cur].kids[rest[0]]].target);
    CleanOfProper(t, rest[1..]);
    assert t + [] == t;
  }

  lemma CanonicalProper(root: Path, g: Graph, i: nat, p: Path)
    requires Canonical(root, g, i, p)
    ensures Proper(p) && root <= p
  { }

  lemma {:induction false} FindResolves(root: Path, g: Graph, cur: nat, cwd: Path, rest: Path, follow: bool,
                                        depth: nat) returns (h: nat)
    requires Shaped(g) && Proper(root) && Proper(rest) && depth <= MAX_DEPTH
    requires Canonical(root, g, cur, cwd) && cur in g
    requires Find(root, g, cur, cwd, rest, follow, depth).Ok?
    requires rest == [] && follow ==> !IsLink(g, cur)
    ensures depth + h <= MAX_DEPTH
    ensures var f := Find(root, g, cur, cwd, rest, follow, depth).value;
            Resolves(root, g, cwd + rest, follow, h, f.node, f.path)
    decreases MAX_DEPTH + 1 - depth, 0, |rest|
  {
    hide Canonical, ResolvePath, Resolves;
    if rest == [] {
      CanonicalResolves(root, g, cur, cwd, follow);
      assert cwd + rest == cwd;
      h := 0;
    } else {
      var child := g[cur].kids[rest[0]];
      assert Edge(cur, rest[0]) in Edges(g);
      hide Shaped;
      CanonicalProper(root, g, cur, cwd);
      assert cwd + [rest[0]] + rest[1..] == cwd + rest;
      if IsLink(g, child) && (rest[1..] != [] || follow) {
        var t := FindLink(root, g, cur, cwd, rest, follow, depth);
        h := LookupResolves(root, g, t + rest[1..], follow, depth + 1);
        var f := Find(root, g, cur, cwd, rest, follow, depth).value;
        Splice(root, g, cur, cwd, rest[0], t, rest[1..], follow, h, f.node, f.path);
        h := h + 1;
      } else {
        CanonicalChild(root, g, cur, cwd, rest[0]);
        h := FindResolves(root, g, child, cwd + [rest[0]], rest[1..], follow, depth);
      }
    }
  }

  lemma {:induction false} LookupResolves(root: Path, g: Graph, path: Path, follow: bool, depth: nat) returns (h: nat)
    requires Shaped(g) && Proper(root) && Proper(path) && root <= path && Lookup(root, g, path, follow, depth).Ok?
    ensures depth + h <= MAX_DEPTH
    ensures var f := Lookup(root, g, path, follow, depth).value;
            Resolves(root, g, path, follow, h, f.node, f.path)
    decreases MAX_DEPTH + 1 - depth, 1, 0
  {
    if path == root {
      h := 0;
    } else {
      assert root[|root|..] == [];
      h := FindResolves(root, g, ROOT, root, path[|root|..], follow, depth);
      assert root + path[|root|..] == path;
    }
  }

  /**
   * lookupPathLocked finds exactly what the unbounded resolution finds within 40 symlinks; a path that resolves
   * but needs more fails with "too many symlinks" and in no other way.
   */
  lemma LookupCorrect(root: Path, g: Graph, path: Path, follow: bool, i: nat, p: Path)
    requires Shaped(g) && Proper(root) && Proper(path) && root <= path
    ensures Lookup(root, g, path, follow, 0) == Ok(Found(i, p)) <==>
            exists h: nat :: h <= MAX_DEPTH && Resolves(root, g, path, follow, h, i, p)
    ensures (exists h: nat :: h > MAX_DEPTH && Resolves(root, g, path, follow, h, i, p)) ==>
            Lookup(root, g, path, follow, 0) == Fail(TooManySymlinks)
  {
    if Lookup(root, g, path, follow, 0) == Ok(Found(i, p)) {
      var h := LookupResolves(root, g, path, follow, 0);
      assert h <= MAX_DEPTH && Resolves(root, g, path, follow, h, i, p);
    }
    forall h: nat | Resolves(root, g, path, follow, h, i, p)
      ensures Lookup(root, g, path, follow, 0) == if h <= MAX_DEPTH then Ok(Found(i, p)) else Fail(TooManySymlinks)
    {
      LookupOfResolved(root, g, path, follow, 0, h, i, p);
    }
  }

  /** A found path is inside the root, walks to the node without symlinks, and looking it up again changes nothing. */
  lemma LookupIdempotent(root: Path, g: Graph, path: Path, follow: bool)
    requires Shaped(g) && Proper(root) && Proper(path) && root <= path && Lookup(root, g, path, follow, 0).Ok?
    ensures var f := Lookup(root, g, path, follow, 0).value;
            && f.node in g && Canonical(root, g, f.node, f.path) && (follow ==> !IsLink(g, f.node))
            && Lookup(root, g, f.path, follow, 0) == Ok(f)
  {
    var f := Lookup(root, g, path, follow, 0).value;
    var h := LookupResolves(root, g, path, follow, 0);
    ResolvesCanonical(root, g, path, follow, h, f.node, f.path);
    CanonicalResolves(root, g, f.node, f.path, follow);
    LookupOfResolved(root, g, f.path, follow, 0, 0, f.node, f.path);
  }

  // ---------- too many symlinks ----------

  /** The path lookup restarts with after the first symlink it has to follow. */
  function Restarted(root: Path, g: Graph, cur: nat, cwd: Path, rest: Path, follow: bool): (t: Option<Path>)
    requires Shaped(g) && cur in g
    ensures t.Some? ==> root <= t.value
    decreases |rest|
  {
    if rest == [] || !g[cur].kind.Directory? || rest[0] !in g[cur].kids then None
    else
      assert Edge(cur, rest[0]) in Edges(g);
      var child := g[cur].kids[rest[0]];
      if g[child].kind.Symlink? && (rest[1..] != [] || follow) then LinkTarget(root, cwd, g[child].target, rest[1..])
      else Restarted(root, g, child, cwd + [rest[0]], rest[1..], follow)
  }

  /** At least n symlinks are met, one after the other, on the way from `path`. */
  ghost predicate Meets(root: Path, g: Graph, path: Path, follow: bool, n: nat)
    requires Shaped(g) && root <= path
    decreases n
  {
    n == 0 || (path != root &&
               var t := Restarted(root, g, ROOT, root, path[|root|..], follow);
               t.Some? && Meets(root, g, t.value, follow, n - 1))
  }

  lemma {:induction false} FindRestarts(root: Path, g: Graph, cur: nat, cwd: Path, rest: Path, follow: bool, depth: nat)
    requires Shaped(g) && cur in g && depth <= MAX_DEPTH
    ensures match Restarted(root, g, cur, cwd, rest, follow)
            case Some(t) => Find(root, g, cur, cwd, rest, follow, depth) == Lookup(root, g, t, follow, depth + 1)
            case None => Find(root, g, cur, cwd, rest, follow, depth) != Fail(TooManySymlinks)
    decreases |rest|
  {
    if rest != [] && g[cur].kind.Directory? && rest[0] in g[cur].kids {
      assert Edge(cur, rest[0]) in Edges(g);
      var child := g[cur].kids[rest[0]];
      if !(g[child].kind.Symlink? && (rest[1..] != [] || follow)) {
        FindRestarts(root, g, child, cwd + [rest[0]], rest[1..], follow, depth);
      }
    }
  }

  /** "too many symlinks" is reported exactly when a 41st symlink is met. */
  lemma {:induction false} TooManyIff(root: Path, g: Graph, path: Path, follow: bool, depth: nat)
    requires Shaped(g) && depth <= MAX_DEPTH + 1 && root <= path
    ensures Lookup(root, g, path, follow, depth) == Fail(TooManySymlinks) <==>
            Meets(root, g, path, follow, MAX_DEPTH + 1 - depth)
    decreases MAX_DEPTH + 1 - depth
  {
    if depth <= MAX_DEPTH && path != root {
      FindRestarts(root, g, ROOT, root, path[|root|..], follow, depth);
      var t := Restarted(root, g, ROOT, root, path[|root|..], follow);
      if t.Some? {
        TooManyIff(root, g, t.value, follow, depth + 1);
      }
    }
  }

  // ---------- resolutions of longer paths and larger graphs ----------

  /** The resolution of a path is unique, and so is the number of symlinks it takes. */
  lemma {:induction false} ResolvesUnique(root: Path, g: Graph, path: Path, follow: bool, h: nat, i: nat, p: Path,
                                          h': nat, i': nat, p': Path)
    requires Resolves(root, g, path, follow, h, i, p) && Resolves(root, g, path, follow, h', i', p')
    ensures h == h' && i == i' && p == p'
    decreases h, |path|
  {
    hide Resolves, ResolvesIn, ResolvePath;
    ResolvesSplit(root, g, path, follow, h, i, p);
    ResolvesSplit(root, g, path, follow, h', i', p');
    if path != root {
      var k: nat, d: nat, dp: Path :| ResolvesIn(root, g, path, follow, h, i, p, k, d, dp);
      var k': nat, d': nat, dp': Path :| ResolvesIn(root, g, path, follow, h', i', p', k', d', dp');
      ResolvesUp(root, g, path, follow, h, i, p, k, d, dp);
      ResolvesUp(root, g, path, follow, h', i', p', k', d', dp');
      ResolvesUnique(root, g, path[..|path| - 1], true, k, d, dp, k', d', dp');
      if follow && IsLink(g, g[d].kids[path[|path| - 1]]) {
        var t := ResolvesLink(root, g, path, follow, h, i, p, k, d, dp);
        var t' := ResolvesLink(root, g, path, follow, h', i', p', k', d', dp');
        ResolvesUnique(root, g, t, follow, h - k - 1, i, p, h' - k' - 1, i', p');
      } else {
        ResolvesName(root, g, path, follow, h, i, p, k, d, dp);
        ResolvesName(root, g, path, follow, h', i', p', k', d', dp');
      }
    }
  }

  lemma ResolvesUp(root: Path, g: Graph, path: Path, follow: bool, h: nat, i: nat, p: Path, k: nat, d: nat, dp: Path)
    requires ResolvesIn(root, g, path, follow, h, i, p, k, d, dp)
    ensures path != [] && k <= h && Resolves(root, g, path[..|path| - 1], true, k, d, dp)
    ensures IsDir(g, d) && path[|path| - 1] in g[d].kids
  { }

  /** The step from a resolved parent directory to the path itself. */
  lemma ResolvesStep(root: Path, g: Graph, path: Path, follow: bool, k: nat, d: nat, dp: Path, b: nat, i: nat, p: Path)
    requires path != [] && root <= path && path != root && Resolves(root, g, path[..|path| - 1], true, k, d, dp)
    requires IsDir(g, d) && path[|path| - 1] in g[d].kids
    requires var child := g[d].kids[path[|path| - 1]];
             if IsLink(g, child) && follow then
               var t := ResolvePath(root, dp, g[child].target);
               b > 0 && t.Some? && Resolves(root, g, t.value, follow, b - 1, i, p)
             else b == 0 && i == child && p == dp + [path[|path| - 1]]
    ensures Resolves(root, g, path, follow, k + b, i, p)
  {
    assert ResolvesIn(root, g, path, follow, k + b, i, p, k, d, dp);
  }

  lemma ResolvesRootOnly(root: Path, g: Graph, path: Path, follow: bool, h: nat, i: nat, p: Path)
    requires Resolves(root, g, path, follow, h, i, p)
    ensures root <= path
  { }

  /** Resolving below a resolved directory adds up the symlinks. */
  lemma {:induction false} ResolvesBelow(root: Path, g: Graph, path: Path, a: nat, d: nat, dp: Path, rest: Path,
                                         b: nat, i: nat, p: Path)
    requires Shaped(g) && Proper(root) && Resolves(root, g, path, true, a, d, dp)
    requires Resolves(root, g, dp + rest, true, b, i, p)
    ensures Resolves(root, g, path + rest, true, a + b, i, p)
    decreases |rest|
  {
    hide Resolves, ResolvesIn, ResolvePath, Canonical, Shaped;
    ResolvesCanonical(root, g, path, true, a, d, dp);
    CanonicalProper(root, g, d, dp);
    ResolvesRootOnly(root, g, path, true, a, d, dp);
    if rest == [] {
      CanonicalResolves(root, g, d, dp, true);
      assert dp + rest == dp && path + rest == path;
      ResolvesUnique(root, g, dp, true, 0, d, dp, b, i, p);
    } else {
      var full, up, c := dp + rest, rest[..|rest| - 1], rest[|rest| - 1];
      ResolvesSplit(root, g, full, true, b, i, p);
      var k: nat, e: nat, ep: Path :| ResolvesIn(root, g, full, true, b, i, p, k, e, ep);
      ResolvesUp(root, g, full, true, b, i, p, k, e, ep);
      assert full[..|full| - 1] == dp + up && (path + rest)[..|path + rest| - 1] == path + up;
      ResolvesBelow(root, g, path, a, d, dp, up, k, e, ep);
      if IsLink(g, g[e].kids[c]) {
        var t := ResolvesLink(root, g, full, true, b, i, p, k, e, ep);
        ResolvesStep(root, g, path + rest, true, a + k, e, ep, b - k, i, p);
      } else {
        ResolvesName(root, g, full, true, b, i, p, k, e, ep);
        ResolvesStep(root, g, path + rest, true, a + k, e, ep, 0, i, p);
      }
    }
  }

  /** Adding entries never changes what a path already resolves to. */
  lemma {:induction false} ResolvesExtends(root: Path, g: Graph, g': Graph, path: Path, follow: bool, h: nat, i: nat,
                                           p: Path)
    requires Shaped(g) && Shaped(g') && Extends(g, g') && Resolves(root, g, path, follow, h, i, p)
    ensures Resolves(root, g', path, follow, h, i, p)
    decreases h, |path|
  {
    if path != root {
      var k: nat, d: nat, dp: Path :| ResolvesIn(root, g, path, follow, h, i, p, k, d, dp);
      hide Resolves, ResolvesIn, ResolvePath;
      ResolvesUp(root, g, path, follow, h, i, p, k, d, dp);
      ResolvesRootOnly(root, g, path, follow, h, i, p);
      ResolvesExtends(root, g, g', path[..|path| - 1], true, k, d, dp);
      assert Edge(d, path[|path| - 1]) in Edges(g);
      if follow && IsLink(g, g[d].kids[path[|path| - 1]]) {
        var t := ResolvesLink(root, g, path, follow, h, i, p, k, d, dp);
        ResolvesExtends(root, g, g', t, follow, h - k - 1, i, p);
        ResolvesStep(root, g', path, follow, k, d, dp, h - k, i, p);
      } else {
        ResolvesName(root, g, path, follow, h, i, p, k, d, dp);
        ResolvesStep(root, g', path, follow, k, d, dp, 0, i, p);
      }
    }
  }
}

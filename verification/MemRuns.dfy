/** Opening, writing and MkdirAll on the filesystem state, and what every run of operations keeps. */
module MemRuns {
  import opened Basics
  import opened Paths
  import opened MemGraph
  import opened MemCut
  import opened MemRename
  import opened MemLookup
  import opened MemOps
  import opened MemFiles

  datatype Opened = File(node: nat, handle: Handle) | Pipe(node: nat)

  /** resolveCreatePathLocked: the path a create through dangling symlinks ends at. */
  function CreatePath(s: Fs, path: Path, depth: nat): (r: Res<Path>)
    requires Built(s) && s.root <= path
    ensures r.Ok? ==> s.root <= r.value
    decreases MAX_DEPTH + 1 - depth
  {
    if depth > MAX_DEPTH then Fail(TooManySymlinks)
    else match LookupParent(s.root, s.g, path)
      case Fail(e) => Fail(e)
      case Ok(p) =>
        if !Taken(s.g, Edge(p.node, p.base)) then Ok(path)
        else
          assert Edge(p.node, p.base) in Edges(s.g);
          var child := s.g[p.node].kids[p.base];
          if !s.g[child].kind.Symlink? then Ok(path)
          else match ResolvePath(s.root, p.path, s.g[child].target)
            case None => Fail(Permission)
            case Some(t) => CreatePath(s, t, depth + 1)
  }

  function SetData(g: Graph, i: nat, data: seq<byte>): Graph
    requires i in g
  {
    g[i := g[i].(data := data)]
  }

  function OpenFile(s: Fs, name: Raw, f: Flags): Outcome<Opened>
    requires Built(s)
  {
    match Name(s, name)
    case Fail(e) => Outcome(s, Fail(e))
    case Ok(path) =>
      match Lookup(s.root, s.g, path, true, 0)
      case Ok(found) => OpenNode(s, found.node, f)
      case Fail(e) => if e != NotExist || !f.create then Outcome(s, Fail(e)) else OpenMissing(s, path, f)
  }

  function OpenNode(s: Fs, i: nat, f: Flags): Outcome<Opened>
    requires i in s.g
  {
    if f.create && f.excl then Outcome(s, Fail(Exist))
    else if s.g[i].kind.Directory? then Outcome(s, Fail(IsDirectory))
    else if s.g[i].kind.Fifo? then Outcome(s, Ok(Pipe(i)))
    else
      var data := if Truncates(f) then [] else s.g[i].data;
      Outcome(s.(g := SetData(s.g, i, data)), Ok(File(i, OpenHandle(data, f, f.write || f.rdwr))))
  }

  function OpenMissing(s: Fs, path: Path, f: Flags): Outcome<Opened>
    requires Built(s) && s.root <= path
  {
    match CreatePath(s, path, 0)
    case Fail(e) => Outcome(s, Fail(e))
    case Ok(createPath) => CreateAt(s, createPath, f)
  }

  /** A created file is always writable through its handle. */
  function CreateAt(s: Fs, path: Path, f: Flags): Outcome<Opened>
    requires Built(s) && s.root <= path
  {
    match Place(s, path)
    case Fail(e) => Outcome(s, Fail(e))
    case Ok(e) =>
      if Taken(s.g, e) then Outcome(s, Fail(Exist))
      else Outcome(Fs(s.root, AddNode(s.g, e.dir, e.name, s.next, NewRec(Regular, NO_TARGET)), s.next + 1),
                   Ok(File(s.next, OpenHandle([], f, true))))
  }

  const WRITE_FLAGS: Flags := Flags(true, false, true, false, true, false)

  /** A write through a file handle, seen from the filesystem. */
  function WriteNode(s: Fs, i: nat, h: Handle, p: seq<byte>): Fs {
    if i in s.g then s.(g := SetData(s.g, i, WriteFileAt(h, s.g[i].data, p).1)) else s
  }

  function WriteFile(s: Fs, name: Raw, data: seq<byte>): Outcome<Opened>
    requires Built(s)
  {
    var o := OpenFile(s, name, WRITE_FLAGS);
    match o.res
    case Ok(File(i, h)) => Outcome(WriteNode(o.fs, i, h, data), o.res)
    case _ => o
  }

  /** The component walk of MkdirAll. It fails before it makes any directory or not at all. */
  function MkdirWalk(s: Fs, cur: nat, cwd: Path, rest: Path): Outcome<()>
    requires Built(s) && IsDir(s.g, cur) && Proper(rest)
    decreases |rest|
  {
    if rest == [] then Outcome(s, Ok(()))
    else if rest[0] !in s.g[cur].kids then
      var s' := Fs(s.root, AddNode(s.g, cur, rest[0], s.next, NewRec(Directory, NO_TARGET)), s.next + 1);
      AddNodeBuilt(s, Edge(cur, rest[0]), Directory, NO_TARGET);
      MkdirWalk(s', s.next, cwd + [rest[0]], rest[1..])
    else
      assert Edge(cur, rest[0]) in Edges(s.g);
      var child := s.g[cur].kids[rest[0]];
      if s.g[child].kind.Symlink? then
        match ResolvePath(s.root, cwd, s.g[child].target)
        case None => Outcome(s, Fail(Permission))
        case Some(t) =>
          match Lookup(s.root, s.g, t, true, 0)
          case Fail(e) => Outcome(s, Fail(e))
          case Ok(f) =>
            if !s.g[f.node].kind.Directory? then Outcome(s, Fail(NotDirectory))
            else MkdirWalk(s, f.node, f.path, rest[1..])
      else if !s.g[child].kind.Directory? then Outcome(s, Fail(NotDirectory))
      else MkdirWalk(s, child, cwd + [rest[0]], rest[1..])
  }

  function MkdirAll(s: Fs, name: Raw): Outcome<()>
    requires Built(s)
  {
    match Name(s, name)
    case Fail(e) => Outcome(s, Fail(e))
    case Ok(path) =>
      NameProper(s, name);
      if path == s.root then Outcome(s, Ok(()))
      else MkdirWalk(s, ROOT, s.root, path[|s.root|..])
  }

  lemma AddNodeBuilt(s: Fs, e: Edge, kind: Kind, target: Raw)
    requires Built(s) && IsDir(s.g, e.dir) && !Taken(s.g, e) && ProperName(e.name)
    ensures Built(Fs(s.root, AddNode(s.g, e.dir, e.name, s.next, NewRec(kind, target)), s.next + 1))
    ensures OnlyAdds(s.g, AddNode(s.g, e.dir, e.name, s.next, NewRec(kind, target)))
  {
    var rec := NewRec(kind, target);
    var h := AddNode(s.g, e.dir, e.name, s.next, rec);
    AddNodeOneMore(s.g, e.dir, e.name, s.next, rec);
    OneMoreShaped(s.g, h, e);
  }

  // ---------- MkdirAll ----------

  /** Every node keeps all it had; directories may gain entries. */
  ghost predicate OnlyAdds(g: Graph, h: Graph) {
    Extends(g, h) && forall i :: i in g ==> h[i].nlink == g[i].nlink && h[i].data == g[i].data
  }

  lemma OnlyAddsTrans(f: Graph, g: Graph, h: Graph)
    requires OnlyAdds(f, g) && OnlyAdds(g, h)
    ensures OnlyAdds(f, h)
  { }

  lemma {:induction false} MkdirWalkExtends(s: Fs, cur: nat, cwd: Path, rest: Path)
    requires Built(s) && IsDir(s.g, cur) && Proper(rest)
    ensures var o := MkdirWalk(s, cur, cwd, rest); Built(o.fs) && o.fs.root == s.root && OnlyAdds(s.g, o.fs.g)
    decreases |rest|
  {
    if rest != [] {
      if rest[0] !in s.g[cur].kids {
        AddNodeBuilt(s, Edge(cur, rest[0]), Directory, NO_TARGET);
        var s' := Fs(s.root, AddNode(s.g, cur, rest[0], s.next, NewRec(Directory, NO_TARGET)), s.next + 1);
        MkdirWalkExtends(s', s.next, cwd + [rest[0]], rest[1..]);
        OnlyAddsTrans(s.g, s'.g, MkdirWalk(s, cur, cwd, rest).fs.g);
      } else {
        assert Edge(cur, rest[0]) in Edges(s.g);
        var child := s.g[cur].kids[rest[0]];
        if IsLink(s.g, child) {
          var t := ResolvePath(s.root, cwd, s.g[child].target);
          if t.Some? && Lookup(s.root, s.g, t.value, true, 0).Ok? {
            var f := Lookup(s.root, s.g, t.value, true, 0).value;
            if IsDir(s.g, f.node) { MkdirWalkExtends(s, f.node, f.path, rest[1..]); }
          }
        } else if IsDir(s.g, child) {
          MkdirWalkExtends(s, child, cwd + [rest[0]], rest[1..]);
        }
      }
    }
  }

  lemma {:induction false} MkdirWalkGood(s: Fs, cur: nat, cwd: Path, rest: Path)
    requires Good(s) && IsDir(s.g, cur) && Proper(rest) && Canonical(s.root, s.g, cur, cwd)
    ensures Good(MkdirWalk(s, cur, cwd, rest).fs)
    decreases |rest|
  {
    if rest != [] {
      if rest[0] !in s.g[cur].kids {
        AddNodeBuilt(s, Edge(cur, rest[0]), Directory, NO_TARGET);
        AddNodeInv(s.g, cur, rest[0], s.next, NewRec(Directory, NO_TARGET));
        var s' := Fs(s.root, AddNode(s.g, cur, rest[0], s.next, NewRec(Directory, NO_TARGET)), s.next + 1);
        CanonicalExtends(s.root, s.g, s'.g, cur, cwd);
        CanonicalChild(s.root, s'.g, cur, cwd, rest[0]);
        MkdirWalkGood(s', s.next, cwd + [rest[0]], rest[1..]);
      } else {
        assert Edge(cur, rest[0]) in Edges(s.g);
        var child := s.g[cur].kids[rest[0]];
        if IsLink(s.g, child) {
          var t := ResolvePath(s.root, cwd, s.g[child].target);
          ResolvedIsProper(s.root, cwd, s.g[child].target);
          if t.Some? && Lookup(s.root, s.g, t.value, true, 0).Ok? {
            LookupIdempotent(s.root, s.g, t.value, true);
            var f := Lookup(s.root, s.g, t.value, true, 0).value;
            if IsDir(s.g, f.node) { MkdirWalkGood(s, f.node, f.path, rest[1..]); }
          }
        } else if IsDir(s.g, child) {
          CanonicalChild(s.root, s.g, cur, cwd, rest[0]);
          MkdirWalkGood(s, child, cwd + [rest[0]], rest[1..]);
        }
      }
    }
  }

  lemma CanonicalExtends(root: Path, g: Graph, h: Graph, i: nat, p: Path)
    requires Canonical(root, g, i, p) && Extends(g, h)
    ensures Canonical(root, h, i, p)
  {
    WalkExtends(g, h, ROOT, p[|root|..]);
  }

  /** What the walk leaves: the path resolves to a directory, one hop per symlink component plus its own. */
  lemma {:induction false} MkdirWalkResolves(s: Fs, cur: nat, cwd: Path, rest: Path) returns (h: nat, i: nat, p: Path)
    requires Built(s) && IsDir(s.g, cur) && Proper(rest) && Canonical(s.root, s.g, cur, cwd)
    requires MkdirWalk(s, cur, cwd, rest).res.Ok?
    ensures var g' := MkdirWalk(s, cur, cwd, rest).fs.g;
            Resolves(s.root, g', cwd + rest, true, h, i, p) && IsDir(g', i)
    decreases |rest|
  {
    var s2 := MkdirWalk(s, cur, cwd, rest).fs;
    MkdirWalkExtends(s, cur, cwd, rest);
    if rest == [] {
      assert cwd + rest == cwd;
      CanonicalResolves(s.root, s.g, cur, cwd, true);
      h, i, p := 0, cur, cwd;
    } else {
      assert cwd + [rest[0]] + rest[1..] == cwd + rest;
      if rest[0] !in s.g[cur].kids {
        AddNodeBuilt(s, Edge(cur, rest[0]), Directory, NO_TARGET);
        var s' := Fs(s.root, AddNode(s.g, cur, rest[0], s.next, NewRec(Directory, NO_TARGET)), s.next + 1);
        CanonicalExtends(s.root, s.g, s'.g, cur, cwd);
        CanonicalChild(s.root, s'.g, cur, cwd, rest[0]);
        h, i, p := MkdirWalkResolves(s', s.next, cwd + [rest[0]], rest[1..]);
      } else {
        assert Edge(cur, rest[0]) in Edges(s.g);
        var child := s.g[cur].kids[rest[0]];
        if IsLink(s.g, child) {
          h, i, p := MkdirLinkResolves(s, cur, cwd, rest);
        } else {
          CanonicalChild(s.root, s.g, cur, cwd, rest[0]);
          h, i, p := MkdirWalkResolves(s, child, cwd + [rest[0]], rest[1..]);
        }
      }
    }
  }

  lemma MkdirLinkStep(s: Fs, cur: nat, cwd: Path, rest: Path) returns (t: Path, f: Found)
    requires Built(s) && IsDir(s.g, cur) && Proper(rest) && Proper(cwd)
    requires rest != [] && rest[0] in s.g[cur].kids && IsLink(s.g, s.g[cur].kids[rest[0]])
    requires MkdirWalk(s, cur, cwd, rest).res.Ok?
    ensures ResolvePath(s.root, cwd, s.g[s.g[cur].kids[rest[0]]].target) == Some(t) && s.root <= t && Proper(t)
    ensures Lookup(s.root, s.g, t, true, 0) == Ok(f) && IsDir(s.g, f.node)
    ensures MkdirWalk(s, cur, cwd, rest) == MkdirWalk(s, f.node, f.path, rest[1..])
  {
    assert Edge(cur, rest[0]) in Edges(s.g);
    var child := s.g[cur].kids[rest[0]];
    ResolvedIsProper(s.root, cwd, s.g[child].target);
    t := ResolvePath(s.root, cwd, s.g[child].target).value;
    f := Lookup(s.root, s.g, t, true, 0).value;
  }

  lemma ExtendsLink(g: Graph, h: Graph, d: nat, c: string)
    requires Extends(g, h) && IsDir(g, d) && c in g[d].kids && IsLink(g, g[d].kids[c])
    ensures IsDir(h, d) && c in h[d].kids && h[d].kids[c] == g[d].kids[c] && IsLink(h, h[d].kids[c])
    ensures h[h[d].kids[c]].target == g[g[d].kids[c]].target
  { }

  lemma {:induction false} MkdirLinkResolves(s: Fs, cur: nat, cwd: Path, rest: Path) returns (h: nat, i: nat, p: Path)
    requires Built(s) && IsDir(s.g, cur) && Proper(rest) && Canonical(s.root, s.g, cur, cwd)
    requires rest != [] && rest[0] in s.g[cur].kids && IsLink(s.g, s.g[cur].kids[rest[0]])
    requires MkdirWalk(s, cur, cwd, rest).res.Ok?
    ensures var g' := MkdirWalk(s, cur, cwd, rest).fs.g;
            Resolves(s.root, g', cwd + rest, true, h, i, p) && IsDir(g', i)
    decreases |rest|, 0
  {
    hide MkdirWalk, Lookup, Find, Resolves, ResolvesIn, Canonical, Shaped, Extends, ResolvePath;
    CanonicalProper(s.root, s.g, cur, cwd);
    var g' := MkdirWalk(s, cur, cwd, rest).fs.g;
    MkdirWalkExtends(s, cur, cwd, rest);
    var c, rest' := rest[0], rest[1..];
    var t, f := MkdirLinkStep(s, cur, cwd, rest);
    var k := LookupResolves(s.root, s.g, t, true, 0);
    ResolvesCanonical(s.root, s.g, t, true, k, f.node, f.path);
    var b, j, q := MkdirWalkResolves(s, f.node, f.path, rest');
    ResolvesExtends(s.root, s.g, g', t, true, k, f.node, f.path);
    CanonicalExtends(s.root, s.g, g', cur, cwd);
    ExtendsLink(s.g, g', cur, c);
    assert t + [] == t && cwd + [c] + [] == cwd + [c];
    Splice(s.root, g', cur, cwd, c, t, [], true, k, f.node, f.path);
    ResolvesBelow(s.root, g', cwd + [c], k + 1, f.node, f.path, rest', b, j, q);
    assert cwd + [c] + rest' == cwd + rest;
    h, i, p := k + 1 + b, j, q;
  }

  /**
   * MkdirAll: after success the path resolves to a directory, so looking it up finds that directory unless it
   * takes more than 40 symlinks; nothing that was there has changed.
   */
  lemma MkdirAllThenLookup(s: Fs, name: Raw)
    requires Built(s) && MkdirAll(s, name).res.Ok?
    ensures var path, s' := Name(s, name).value, MkdirAll(s, name).fs;
            && Built(s') && s'.root == s.root && OnlyAdds(s.g, s'.g)
            && exists h: nat, i: nat, p: Path :: Resolves(s.root, s'.g, path, true, h, i, p) && IsDir(s'.g, i)
                 && Lookup(s.root, s'.g, path, true, 0) == if h <= MAX_DEPTH then Ok(Found(i, p))
                     else Fail(TooManySymlinks)
  {
    var path, s' := Name(s, name).value, MkdirAll(s, name).fs;
    NameProper(s, name);
    var h, i, p := 0, ROOT, s.root;
    if path != s.root {
      assert s.root[|s.root|..] == [] && s.root + path[|s.root|..] == path;
      MkdirWalkExtends(s, ROOT, s.root, path[|s.root|..]);
      h, i, p := MkdirWalkResolves(s, ROOT, s.root, path[|s.root|..]);
    }
    LookupOfResolved(s.root, s'.g, path, true, 0, h, i, p);
    assert Resolves(s.root, s'.g, path, true, h, i, p);
  }

  // ---------- WriteFile ----------

  lemma ParentResolves(s: Fs, path: Path) returns (h: nat)
    requires Built(s) && s.root <= path && Proper(path) && LookupParent(s.root, s.g, path).Ok?
    ensures var par := LookupParent(s.root, s.g, path).value;
            && path != [] && path != s.root && par.base == path[|path| - 1] && ProperName(par.base)
            && Resolves(s.root, s.g, path[..|path| - 1], true, h, par.node, par.path)
            && IsDir(s.g, par.node) && Canonical(s.root, s.g, par.node, par.path)
  {
    var up := path[..|path| - 1];
    h := LookupResolves(s.root, s.g, up, true, 0);
    var par := LookupParent(s.root, s.g, path).value;
    ResolvesCanonical(s.root, s.g, up, true, h, par.node, par.path);
  }

  /** Looking a path up is looking its last name up in its parent, after the h symlinks the parent took. */
  lemma LookupInParent(root: Path, g: Graph, path: Path, depth: nat, h: nat, d: nat, dp: Path)
    requires Shaped(g) && Proper(root) && Proper(path) && path != [] && path != root && root <= path
    requires Resolves(root, g, path[..|path| - 1], true, h, d, dp) && Canonical(root, g, d, dp) && IsDir(g, d)
    requires depth + h <= MAX_DEPTH
    ensures var c := path[|path| - 1];
            if c !in g[d].kids then Lookup(root, g, path, true, depth) == Fail(NotExist)
            else if IsLink(g, g[d].kids[c]) then
              match ResolvePath(root, dp, g[g[d].kids[c]].target)
              case None => Lookup(root, g, path, true, depth) == Fail(Permission)
              case Some(t) => Lookup(root, g, path, true, depth) == Lookup(root, g, t, true, depth + h + 1)
            else Lookup(root, g, path, true, depth) == Ok(Found(g[d].kids[c], dp + [c]))
  {
    hide Lookup, Find, Resolves, Canonical, ResolvePath, Shaped;
    var c, up := path[|path| - 1], path[..|path| - 1];
    Snoc(path);
    Restart(root, g, up, [c], true, depth, h, d, dp);
    if c in g[d].kids {
      LookupName(root, g, d, dp, c, [], true, depth + h);
      assert dp + ([c] + []) == dp + [c];
      var t := ResolvePath(root, dp, g[g[d].kids[c]].target);
      if t.Some? { assert t.value + [] == t.value; }
      FindDone(root, g, g[d].kids[c], dp + [c], true, depth + h);
    } else {
      LookupBelow(root, g, d, dp, [c], true, depth + h);
      FindMissing(root, g, d, dp, c, depth + h);
    }
  }

  lemma FindMissing(root: Path, g: Graph, d: nat, dp: Path, c: string, depth: nat)
    requires Shaped(g) && IsDir(g, d) && c !in g[d].kids && depth <= MAX_DEPTH
    ensures Find(root, g, d, dp, [c], true, depth) == Fail(NotExist)
  { }

  lemma CreatePathStep(s: Fs, path: Path, k: nat) returns (t: Path)
    requires Built(s) && s.root <= path && Proper(path) && CreatePath(s, path, k).Ok?
    ensures LookupParent(s.root, s.g, path).Ok? && k <= MAX_DEPTH
    ensures var par := LookupParent(s.root, s.g, path).value;
            if Taken(s.g, Edge(par.node, par.base)) && IsLink(s.g, s.g[par.node].kids[par.base]) then
              && ResolvePath(s.root, par.path, s.g[s.g[par.node].kids[par.base]].target) == Some(t)
              && s.root <= t && Proper(t) && CreatePath(s, path, k) == CreatePath(s, t, k + 1)
            else CreatePath(s, path, k) == Ok(path)
  {
    var par := LookupParent(s.root, s.g, path).value;
    var h := ParentResolves(s, path);
    t := path;
    if Taken(s.g, Edge(par.node, par.base)) {
      assert Edge(par.node, par.base) in Edges(s.g);
      if IsLink(s.g, s.g[par.node].kids[par.base]) {
        ResolvedIsProper(s.root, par.path, s.g[s.g[par.node].kids[par.base]].target);
        t := ResolvePath(s.root, par.path, s.g[s.g[par.node].kids[par.base]].target).value;
      }
    }
  }

  /** The node created for `path` is where Place puts it. */
  ghost function Created(s: Fs, e: Edge, rec: Rec): Graph
    requires IsDir(s.g, e.dir)
  {
    AddNode(s.g, e.dir, e.name, s.next, rec)
  }

  lemma CreatedShaped(s: Fs, e: Edge, rec: Rec)
    requires Built(s) && IsDir(s.g, e.dir) && !Taken(s.g, e) && ProperName(e.name) && rec.kids == map[]
    ensures Shaped(Created(s, e, rec)) && Extends(s.g, Created(s, e, rec))
    ensures e.name in Created(s, e, rec)[e.dir].kids && Created(s, e, rec)[e.dir].kids[e.name] == s.next
    ensures s.next in Created(s, e, rec) && Created(s, e, rec)[s.next] == rec
    ensures Created(s, e, rec)[e.dir].kids == s.g[e.dir].kids[e.name := s.next]
  {
    AddNodeOneMore(s.g, e.dir, e.name, s.next, rec);
    OneMoreShaped(s.g, Created(s, e, rec), e);
  }

  /** Once the missing file at the end of a chain of dangling symlinks exists, the original path finds it. */
  lemma {:induction false} CreatedIsFound(s: Fs, path: Path, k: nat, depth: nat, e: Edge, rec: Rec)
    requires Built(s) && s.root <= path && Proper(path) && rec.kids == map[] && rec.kind.Regular?
    requires Lookup(s.root, s.g, path, true, depth) == Fail(NotExist)
    requires CreatePath(s, path, k).Ok? && Place(s, CreatePath(s, path, k).value) == Ok(e)
    requires IsDir(s.g, e.dir) && !Taken(s.g, e) && ProperName(e.name)
    ensures Shaped(Created(s, e, rec)) && Lookup(s.root, Created(s, e, rec), path, true, depth).Ok?
    ensures Lookup(s.root, Created(s, e, rec), path, true, depth).value.node == s.next
    decreases MAX_DEPTH + 1 - k
  {
    hide Lookup, Find, Resolves, ResolvesIn, Canonical, ResolvePath, Shaped, CreatePath, Created, LookupParent, Extends;
    var g' := Created(s, e, rec);
    CreatedShaped(s, e, rec);
    var t := CreatePathStep(s, path, k);
    var par := LookupParent(s.root, s.g, path).value;
    var d, dp, c := par.node, par.path, par.base;
    var h := ParentResolves(s, path);
    ResolvesExtends(s.root, s.g, g', path[..|path| - 1], true, h, d, dp);
    CanonicalExtends(s.root, s.g, g', d, dp);
    NotTooDeep(s.root, s.g, path, depth, h, d, dp);
    ResolvesCanonical(s.root, g', path[..|path| - 1], true, h, d, dp);
    ExtendsDir(s.g, g', d);
    LookupInParent(s.root, s.g, path, depth, h, d, dp);
    LookupInParent(s.root, g', path, depth, h, d, dp);
    if Taken(s.g, Edge(d, c)) {
      ExtendsLink(s.g, g', d, c);
      CreatedIsFound(s, t, k + 1, depth + h + 1, e, rec);
    } else {
      assert e == Edge(d, c);
    }
  }

  lemma ExtendsDir(g: Graph, h: Graph, d: nat)
    requires Extends(g, h) && IsDir(g, d)
    ensures IsDir(h, d)
  { }

  lemma NotTooDeep(root: Path, g: Graph, path: Path, depth: nat, h: nat, d: nat, dp: Path)
    requires Shaped(g) && Proper(root) && Proper(path) && path != [] && path != root && root <= path
    requires Resolves(root, g, path[..|path| - 1], true, h, d, dp)
    requires Lookup(root, g, path, true, depth) != Fail(TooManySymlinks)
    ensures depth + h <= MAX_DEPTH
  {
    hide Lookup, Find, Resolves, Canonical, ResolvePath, Shaped;
    Snoc(path);
    Restart(root, g, path[..|path| - 1], [path[|path| - 1]], true, depth, h, d, dp);
    if depth + h > MAX_DEPTH {
      LookupDeep(root, g, dp + [path[|path| - 1]], true, depth + h);
    }
  }

  // ---------- what is written is read back ----------

  const READ_FLAGS: Flags := Flags(false, false, false, false, false, false)

  lemma LookupExtends(root: Path, g: Graph, h: Graph, path: Path)
    requires Shaped(g) && Shaped(h) && Extends(g, h) && Proper(root) && Proper(path) && root <= path
    requires Lookup(root, g, path, true, 0).Ok?
    ensures Lookup(root, h, path, true, 0) == Lookup(root, g, path, true, 0)
  {
    var f := Lookup(root, g, path, true, 0).value;
    var k := LookupResolves(root, g, path, true, 0);
    ResolvesExtends(root, g, h, path, true, k, f.node, f.path);
    LookupOfResolved(root, h, path, true, 0, k, f.node, f.path);
  }

  lemma SetDataShaped(g: Graph, i: nat, data: seq<byte>)
    requires Shaped(g) && i in g
    ensures Shaped(SetData(g, i, data)) && Extends(g, SetData(g, i, data))
    ensures Edges(SetData(g, i, data)) == Edges(g)
    ensures forall e :: e in Edges(g) ==> Target(SetData(g, i, data), e) == Target(g, e)
  {
    var h := SetData(g, i, data);
    assert Edges(h) == Edges(g);
    forall e | e in Edges(h) ensures Target(h, e) in h && ProperName(e.name) {
      assert Target(h, e) == Target(g, e);
    }
  }

  /** Opening for write finds or makes a regular file, empties it, and leaves the name leading to it. */
  lemma OpenedForWrite(s: Fs, name: Raw)
    requires Built(s) && OpenFile(s, name, WRITE_FLAGS).res.Ok? && OpenFile(s, name, WRITE_FLAGS).res.value.File?
    ensures var o, path := OpenFile(s, name, WRITE_FLAGS), Name(s, name).value;
            var i := o.res.value.node;
            && Built(o.fs) && o.fs.root == s.root && Proper(path)
            && i in o.fs.g && o.fs.g[i].kind.Regular? && o.fs.g[i].data == []
            && o.res.value.handle == Handle(0, false, true, false, false)
            && Lookup(s.root, o.fs.g, path, true, 0).Ok? && Lookup(s.root, o.fs.g, path, true, 0).value.node == i
  {
    var o, path := OpenFile(s, name, WRITE_FLAGS), Name(s, name).value;
    NameProper(s, name);
    var r := Lookup(s.root, s.g, path, true, 0);
    if r.Ok? {
      LookupIdempotent(s.root, s.g, path, true);
      SetDataShaped(s.g, r.value.node, []);
      LookupExtends(s.root, s.g, o.fs.g, path);
    } else {
      var rec := NewRec(Regular, NO_TARGET);
      var createPath := CreatePath(s, path, 0).value;
      CreatePathProper(s, path, 0);
      var e := Place(s, createPath).value;
      PlaceName(s, createPath);
      CreatedIsFound(s, path, 0, 0, e, rec);
      CreatedShaped(s, e, rec);
    }
  }

  lemma PlaceName(s: Fs, path: Path)
    requires Built(s) && s.root <= path && Proper(path) && Place(s, path).Ok?
    ensures ProperName(Place(s, path).value.name)
  { }

  lemma {:induction false} CreatePathProper(s: Fs, path: Path, k: nat)
    requires Built(s) && s.root <= path && Proper(path) && CreatePath(s, path, k).Ok?
    ensures Proper(CreatePath(s, path, k).value)
    decreases MAX_DEPTH + 1 - k
  {
    var t := CreatePathStep(s, path, k);
    if CreatePath(s, path, k) != Ok(path) {
      CreatePathProper(s, t, k + 1);
    }
  }

  /** WriteFile then open: the same file, holding exactly the bytes written, whatever dangling symlinks led there. */
  lemma WriteThenRead(s: Fs, name: Raw, data: seq<byte>)
    requires Built(s) && WriteFile(s, name, data).res.Ok? && WriteFile(s, name, data).res.value.File?
    ensures var w := WriteFile(s, name, data);
            && Built(w.fs) && w.res.value.node in w.fs.g && w.fs.g[w.res.value.node].data == data
            && OpenFile(w.fs, name, READ_FLAGS).res == Ok(File(w.res.value.node, Handle(0, true, false, false, false)))
  {
    var o, w := OpenFile(s, name, WRITE_FLAGS), WriteFile(s, name, data);
    var i, h := o.res.value.node, o.res.value.handle;
    OpenedForWrite(s, name);
    assert WriteFileAt(h, [], data).1 == data;
    SetDataShaped(o.fs.g, i, data);
    LookupExtends(s.root, o.fs.g, w.fs.g, Name(s, name).value);
  }
}

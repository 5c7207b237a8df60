/** What OpenFile, WriteFile and MkdirAll return and leave, on what lookups find. */
module MemOpens {
  import opened Basics
  import opened Paths
  import opened MemGraph
  import opened MemLookup
  import opened MemSteps
  import opened MemOps
  import opened MemFiles
  import opened MemRuns
  import opened MemOutcomes

  // ---------- opening what there is ----------

  /** Node i holds data now, and nothing else changed. */
  ghost predicate Holds(s: Fs, t: Fs, i: nat, data: seq<byte>) {
    && t.root == s.root && t.next == s.next && t.g.Keys == s.g.Keys && i in s.g
    && t.g[i] == s.g[i].(data := data)
    && forall j :: j in s.g && j != i ==> t.g[j] == s.g[j]
  }

  /**
   * Opening a name that leads to node i. A file opened for writing with O_TRUNC and not for appending is emptied; the
   * handle can read unless opened write-only, can write if opened to, and starts at the end only when appending.
   */
  lemma ExistingOpened(s: Fs, name: Raw, path: Path, i: nat, p: Path, f: Flags)
    requires Built(s) && ResolvePath(s.root, s.root, name) == Some(path)
    requires Lookup(s.root, s.g, path, true, 0) == Ok(Found(i, p))
    ensures var o := OpenFile(s, name, f);
            && (f.create && f.excl ==> Refused(s, o, Exist))
            && (!(f.create && f.excl) ==>
                match s.g[i].kind
                case Directory => Refused(s, o, IsDirectory)
                case Fifo => o.fs == s && o.res == Ok(Pipe(i))
                case _ =>
                  var kept := if (f.write || f.rdwr) && f.trunc && !f.append then [] else s.g[i].data;
                  && Holds(s, o.fs, i, kept)
                  && o.res == Ok(File(i, Handle(if f.append then |kept| else 0, !f.write, f.write || f.rdwr, f.append,
                                                false))))
  {
    hide Lookup, ResolvePath, Shaped;
    assert s.g == s.g[i := s.g[i].(data := s.g[i].data)];
  }

  /** A name that leads nowhere is only missing if not to be created, and otherwise fails as its lookup does. */
  lemma UnfoundOpened(s: Fs, name: Raw, f: Flags)
    requires Built(s)
    ensures var o := OpenFile(s, name, f);
            match ResolvePath(s.root, s.root, name)
            case None => Refused(s, o, Permission)
            case Some(path) =>
              forall e :: Lookup(s.root, s.g, path, true, 0) == Fail(e) && (e != NotExist || !f.create) ==>
                Refused(s, o, e)
  {
    hide Lookup, ResolvePath, Shaped;
  }

  // ---------- creating what is missing ----------

  /** n dangling symlinks, each the last name of its path, lead from `path` to q. */
  ghost predicate Dangles(s: Fs, path: Path, q: Path, n: nat)
    requires Built(s)
    decreases n
  {
    if n == 0 then q == path
    else exists e, t :: LinkAt(s, path, e, t) && Dangles(s, t, q, n - 1)
  }

  /** The entry e that `path` names is a symlink with target t. */
  ghost predicate LinkAt(s: Fs, path: Path, e: Edge, t: Path)
    requires Built(s)
  {
    && At(s, path, e) && e.name in s.g[e.dir].kids && IsLink(s.g, s.g[e.dir].kids[e.name])
    && ResolvePath(s.root, Lookup(s.root, s.g, path[..|path| - 1], true, 0).value.path,
                   s.g[s.g[e.dir].kids[e.name]].target) == Some(t)
  }

  /** Where a create ends: at a free place, or where the directory for it is missing. */
  ghost predicate Vacant(s: Fs, q: Path, r: Res<Path>, e: Edge)
    requires Built(s)
  {
    if r.Fail? then r == Fail(NotExist) && Astray(s, q, NotExist)
    else r == Ok(q) && At(s, q, e) && e.name !in s.g[e.dir].kids
  }

  /** Following the dangling symlinks of a missing path never runs out of symlinks and never leaves the root. */
  lemma {:induction false} CreateEnds(s: Fs, path: Path, k: nat, depth: nat) returns (q: Path, n: nat, e: Edge)
    requires Built(s) && s.root <= path && Proper(path) && k <= depth
    requires Lookup(s.root, s.g, path, true, depth) == Fail(NotExist)
    ensures k + n <= 40 && Dangles(s, path, q, n) && Vacant(s, q, CreatePath(s, path, k), e)
    ensures s.root <= q && Proper(q)
    decreases 41 - depth
  {
    hide Lookup, Resolves, Canonical, ResolvePath, Shaped, Proper, CreatePath, Dangles, LookupParent;
    DepthMet(s, path, depth);
    q, n, e := path, 0, Edge(0, "");
    DanglesNone(s, path);
    ParentFails(s.root, s.g, path, true, depth);
    var up := Lookup(s.root, s.g, path[..|path| - 1], true, 0);
    if up.Fail? {
      CreateStuck(s, path, k, up.err);
      assert Astray(s, path, NotExist);
    } else {
      var d, dp, c := up.value.node, up.value.path, path[|path| - 1];
      ParentIs(s, path);
      var h := ParentResolves(s, path);
      NotTooDeep(s.root, s.g, path, depth, h, d, dp);
      LookupInParent(s.root, s.g, path, depth, h, d, dp);
      e := Edge(d, c);
      assert At(s, path, e);
      if c in s.g[d].kids {
        var t := ResolvePath(s.root, dp, s.g[s.g[d].kids[c]].target);
        CreateFollows(s, path, k, e, t.value);
        q, n, e := CreateEnds(s, t.value, k + 1, depth + h + 1);
        DanglesMore(s, path, Edge(d, c), t.value, q, n);
        n := n + 1;
      } else {
        CreateFree(s, path, k, e);
      }
    }
  }

  lemma DepthMet(s: Fs, path: Path, depth: nat)
    requires Built(s) && s.root <= path && Lookup(s.root, s.g, path, true, depth) == Fail(NotExist)
    ensures depth <= 40 && path != s.root
  { }

  lemma DanglesNone(s: Fs, path: Path)
    requires Built(s)
    ensures Dangles(s, path, path, 0)
  { }

  lemma DanglesMore(s: Fs, path: Path, e: Edge, t: Path, q: Path, n: nat)
    requires Built(s) && LinkAt(s, path, e, t) && Dangles(s, t, q, n)
    ensures Dangles(s, path, q, n + 1)
  { }

  lemma ParentIs(s: Fs, path: Path)
    requires Built(s) && s.root <= path && path != s.root
    requires var up := Lookup(s.root, s.g, path[..|path| - 1], true, 0); up.Ok? && IsDir(s.g, up.value.node)
    ensures var up := Lookup(s.root, s.g, path[..|path| - 1], true, 0).value;
            LookupParent(s.root, s.g, path) == Ok(Parent(up.node, up.path, path[|path| - 1]))
  {
    hide Lookup, Shaped;
  }

  lemma CreateStuck(s: Fs, path: Path, k: nat, e: Err)
    requires Built(s) && s.root <= path && path != s.root && k <= 40
    requires Lookup(s.root, s.g, path[..|path| - 1], true, 0) == Fail(e)
    ensures CreatePath(s, path, k) == Fail(e)
  {
    hide Lookup, Shaped;
  }

  lemma CreateFree(s: Fs, path: Path, k: nat, e: Edge)
    requires Built(s) && k <= 40 && At(s, path, e) && e.name !in s.g[e.dir].kids
    ensures CreatePath(s, path, k) == Ok(path)
  {
    hide Lookup, Shaped;
  }

  lemma CreateFollows(s: Fs, path: Path, k: nat, e: Edge, t: Path)
    requires Built(s) && Proper(path) && k <= 40 && LinkAt(s, path, e, t)
    ensures s.root <= t && Proper(t) && CreatePath(s, path, k) == CreatePath(s, t, k + 1)
  {
    hide Lookup, Shaped, CleanOnto;
    assert e in Edges(s.g);
    ParentIs(s, path);
    var up := Lookup(s.root, s.g, path[..|path| - 1], true, 0).value;
    ProperPrefix(s.root, path);
    FoundProper(s, path[..|path| - 1]);
    ResolvedIsProper(s.root, up.path, s.g[s.g[e.dir].kids[e.name]].target);
  }

  /** Where a create goes no further: what is no symlink, a target outside the root, and a 42nd path. */
  lemma CreateStops(s: Fs, path: Path, k: nat, e: Edge)
    requires Built(s) && At(s, path, e)
    ensures k > 40 ==> CreatePath(s, path, k) == Fail(TooManySymlinks)
    ensures k <= 40 && e.name in s.g[e.dir].kids && !IsLink(s.g, s.g[e.dir].kids[e.name]) ==>
              CreatePath(s, path, k) == Ok(path)
    ensures var up := Lookup(s.root, s.g, path[..|path| - 1], true, 0).value.path;
            && k <= 40 && e.name in s.g[e.dir].kids && IsLink(s.g, s.g[e.dir].kids[e.name])
            && ResolvePath(s.root, up, s.g[s.g[e.dir].kids[e.name]].target).None? ==>
              CreatePath(s, path, k) == Fail(Permission)
  {
    hide Lookup, CleanOnto;
    ParentIs(s, path);
    assert e.name in s.g[e.dir].kids ==> e in Edges(s.g);
  }

  lemma FoundProper(s: Fs, path: Path)
    requires Built(s) && s.root <= path && Proper(path) && Lookup(s.root, s.g, path, true, 0).Ok?
    ensures Proper(Lookup(s.root, s.g, path, true, 0).value.path)
  {
    hide Lookup, Shaped;
    LookupIdempotent(s.root, s.g, path, true);
  }

  /** Creating a missing path: a new empty file at the end of its dangling symlinks, or no directory to put it in. */
  ghost predicate Creates(s: Fs, o: Outcome<Opened>, q: Path, e: Edge, h: Handle, data: seq<byte>)
    requires Built(s)
  {
    if o.res.Ok? then
      && At(s, q, e) && e.name !in s.g[e.dir].kids && o.res == Ok(File(s.next, h))
      && Grown(s, o.fs, e, Rec(Regular, 1, map[], NO_TARGET, data))
    else Astray(s, q, NotExist) && Refused(s, o, NotExist)
  }

  /**
   * Opening a missing name to create it: at the end of at most 40 dangling symlinks a new empty regular file is made,
   * writable whatever the flags, also with O_EXCL; if that path's directory is missing, so is the file.
   */
  lemma MissingOpened(s: Fs, name: Raw, path: Path, f: Flags) returns (q: Path, n: nat, e: Edge)
    requires Built(s) && ResolvePath(s.root, s.root, name) == Some(path) && f.create
    requires Lookup(s.root, s.g, path, true, 0) == Fail(NotExist)
    ensures n <= 40 && Dangles(s, path, q, n)
    ensures Creates(s, OpenFile(s, name, f), q, e, Handle(0, !f.write, true, f.append, false), [])
  {
    hide Lookup, ResolvePath, Shaped, CreatePath, Grown, Dangles, At, Astray, Place;
    NameProper(s, name);
    q, n, e := CreateEnds(s, path, 0, 0);
    if CreatePath(s, path, 0).Ok? {
      FreePlace(s, q, e);
      Grows(s, e, NewRec(Regular, NO_TARGET));
    }
  }

  lemma FreePlace(s: Fs, q: Path, e: Edge)
    requires Built(s) && At(s, q, e)
    ensures Place(s, q) == Ok(e) && IsDir(s.g, e.dir)
  {
    hide Lookup, Shaped;
  }

  // ---------- WriteFile ----------

  lemma WriteAll(data: seq<byte>)
    ensures WriteAt([], 0, data) == data
  { }

  /**
   * WriteFile: a file there is holds exactly the data after it, a missing one is made with it at the end of its
   * dangling symlinks, and anything else fails as opening does and changes nothing.
   */
  lemma WriteOutcome(s: Fs, name: Raw, data: seq<byte>) returns (q: Path, n: nat, e: Edge)
    requires Built(s)
    ensures var o := WriteFile(s, name, data);
            match ResolvePath(s.root, s.root, name)
            case None => Refused(s, o, Permission)
            case Some(path) =>
              match Lookup(s.root, s.g, path, true, 0)
              case Ok(f) =>
                (match s.g[f.node].kind
                 case Directory => Refused(s, o, IsDirectory)
                 case Fifo => o.fs == s && o.res == Ok(Pipe(f.node))
                 case _ =>
                   && Holds(s, o.fs, f.node, data)
                   && o.res == Ok(File(f.node, Handle(0, false, true, false, false))))
              case Fail(err) =>
                && (err != NotExist ==> Refused(s, o, err))
                && (err == NotExist ==> n <= 40 && Dangles(s, path, q, n)
                                        && Creates(s, o, q, e, Handle(0, false, true, false, false), data))
  {
    hide Lookup, ResolvePath, Shaped, OpenFile, Dangles, At, Astray, WriteAt;
    q, n, e := [], 0, Edge(0, "");
    UnfoundOpened(s, name, WRITE_FLAGS);
    WriteAll(data);
    var path := ResolvePath(s.root, s.root, name);
    if path.Some? {
      NameIs(s, name, path.value);
      var r := Lookup(s.root, s.g, path.value, true, 0);
      if r.Ok? {
        ExistingOpened(s, name, path.value, r.value.node, r.value.path, WRITE_FLAGS);
      } else if r.err == NotExist {
        q, n, e := MissingOpened(s, name, path.value, WRITE_FLAGS);
      }
    }
  }

  lemma NameIs(s: Fs, name: Raw, path: Path)
    requires ResolvePath(s.root, s.root, name) == Some(path)
    ensures s.root <= path && Name(s, name) == Ok(path)
  { }

  // ---------- MkdirAll ----------

  /** The directory a name leads to from f: itself one, or what a symlink's target resolves to. */
  ghost predicate Enters(s: Fs, f: Found, c: string, f': Found)
    requires Built(s)
  {
    && IsDir(s.g, f.node) && c in s.g[f.node].kids
    && var i := s.g[f.node].kids[c];
       if IsLink(s.g, i) then
         var t := ResolvePath(s.root, f.path, s.g[i].target);
         t.Some? && Lookup(s.root, s.g, t.value, true, 0) == Ok(f') && IsDir(s.g, f'.node)
       else IsDir(s.g, i) && f' == Found(i, f.path + [c])
  }

  /** The name is there but leads to no directory. */
  ghost predicate Bars(s: Fs, f: Found, c: string, e: Err)
    requires Built(s)
  {
    && IsDir(s.g, f.node) && c in s.g[f.node].kids
    && var i := s.g[f.node].kids[c];
       if IsLink(s.g, i) then
         match ResolvePath(s.root, f.path, s.g[i].target)
         case None => e == Permission
         case Some(t) =>
           (match Lookup(s.root, s.g, t, true, 0)
            case Fail(err) => e == err
            case Ok(f') => !IsDir(s.g, f'.node) && e == NotDirectory)
       else !IsDir(s.g, i) && e == NotDirectory
  }

  /** The directories the first names lead through, one after the other. */
  ghost predicate Trail(s: Fs, names: Path, fs: seq<Found>)
    requires Built(s)
  {
    && 0 < |fs| <= |names| + 1 && IsDir(s.g, fs[|fs| - 1].node)
    && forall j :: 0 <= j < |fs| - 1 ==> Enters(s, fs[j], names[j], fs[j + 1])
  }

  /** A chain of new directories, one for each name, hangs in d; nothing else changed. */
  ghost predicate Chained(s: Fs, t: Fs, d: nat, names: Path) {
    && names != [] && d in s.g
    && t.root == s.root && t.next == s.next + |names|
    && (forall j :: j in t.g <==> j in s.g || s.next <= j < s.next + |names|)
    && t.g[d] == s.g[d].(kids := s.g[d].kids[names[0] := s.next])
    && (forall j :: j in s.g && j != d ==> t.g[j] == s.g[j])
    && forall m :: 0 <= m < |names| ==> t.g[s.next + m] == NewDir(s, names, m)
  }

  ghost function NewDir(s: Fs, names: Path, m: nat): Rec
    requires m < |names|
  {
    Rec(Directory, 1, if m + 1 < |names| then map[names[m + 1] := s.next + m + 1] else map[], NO_TARGET, [])
  }

  /** How a walk ends that has come to the last directory of the trail. */
  ghost predicate WalkEnds(s: Fs, o: Outcome<()>, names: Path, fs: seq<Found>)
    requires Built(s) && Trail(s, names, fs)
  {
    var m := |fs| - 1;
    if m == |names| then o == Outcome(s, Ok(()))
    else if names[m] !in s.g[fs[m].node].kids then
      o.res == Ok(()) && Chained(s, o.fs, fs[m].node, names[m..])
    else exists e :: Bars(s, fs[m], names[m], e) && Refused(s, o, e)
  }

  lemma {:induction false} MkdirWalkEnds(s: Fs, cur: nat, cwd: Path, rest: Path) returns (fs: seq<Found>)
    requires Built(s) && IsDir(s.g, cur) && Proper(rest)
    ensures Trail(s, rest, fs) && fs[0] == Found(cur, cwd) && WalkEnds(s, MkdirWalk(s, cur, cwd, rest), rest, fs)
    decreases |rest|
  {
    hide Lookup, ResolvePath, Shaped, Chained, MkdirWalk;
    var f := Found(cur, cwd);
    fs := [f];
    if rest == [] {
      WalkNone(s, cur, cwd);
    } else if rest[0] !in s.g[cur].kids {
      WalkMakes(s, cur, cwd, rest);
      assert rest[0..] == rest;
    } else {
      assert Edge(cur, rest[0]) in Edges(s.g);
      var f', e := WalkStep(s, cur, cwd, rest);
      if Enters(s, f, rest[0], f') {
        var more := MkdirWalkEnds(s, f'.node, f'.path, rest[1..]);
        fs := [f] + more;
        TrailMore(s, f, rest, more);
      }
    }
  }

  lemma WalkNone(s: Fs, cur: nat, cwd: Path)
    requires Built(s) && IsDir(s.g, cur)
    ensures MkdirWalk(s, cur, cwd, []) == Outcome(s, Ok(()))
  { }

  lemma WalkStep(s: Fs, cur: nat, cwd: Path, rest: Path) returns (f: Found, e: Err)
    requires Built(s) && IsDir(s.g, cur) && Proper(rest) && rest != [] && rest[0] in s.g[cur].kids
    ensures if Enters(s, Found(cur, cwd), rest[0], f) then
              IsDir(s.g, f.node) && MkdirWalk(s, cur, cwd, rest) == MkdirWalk(s, f.node, f.path, rest[1..])
            else Bars(s, Found(cur, cwd), rest[0], e) && MkdirWalk(s, cur, cwd, rest) == Outcome(s, Fail(e))
  {
    hide Lookup, ResolvePath;
    assert Edge(cur, rest[0]) in Edges(s.g);
    var i := s.g[cur].kids[rest[0]];
    f, e := Found(i, cwd + [rest[0]]), NotDirectory;
    if IsLink(s.g, i) {
      var t := ResolvePath(s.root, cwd, s.g[i].target);
      if t.None? {
        e := Permission;
      } else {
        InRoot(s.root, cwd, s.g[i].target);
        var r := Lookup(s.root, s.g, t.value, true, 0);
        if r.Ok? { f := r.value; } else { e := r.err; }
      }
    }
  }

  lemma InRoot(root: Path, dir: Path, path: Raw)
    ensures ResolvePath(root, dir, path).Some? ==> root <= ResolvePath(root, dir, path).value
  { }

  lemma TrailMore(s: Fs, f: Found, rest: Path, more: seq<Found>)
    requires Built(s) && rest != [] && Trail(s, rest[1..], more) && Enters(s, f, rest[0], more[0])
    ensures Trail(s, rest, [f] + more)
    ensures forall o :: WalkEnds(s, o, rest[1..], more) ==> WalkEnds(s, o, rest, [f] + more)
  {
    hide Enters, Bars, Chained, Built;
    var fs := [f] + more;
    forall j | 0 <= j < |fs| - 1 ensures Enters(s, fs[j], rest[j], fs[j + 1]) {
      if j > 0 { assert Enters(s, more[j - 1], rest[1..][j - 1], more[j]); }
    }
    assert fs[|fs| - 1] == more[|more| - 1];
    if |more| - 1 < |rest| - 1 { assert rest[1..][|more| - 1..] == rest[|fs| - 1..]; }
  }

  /** From the first missing name on everything is made. */
  lemma {:induction false} WalkMakes(s: Fs, cur: nat, cwd: Path, rest: Path)
    requires Built(s) && IsDir(s.g, cur) && Proper(rest) && rest != [] && rest[0] !in s.g[cur].kids
    ensures MkdirWalk(s, cur, cwd, rest).res == Ok(()) && Chained(s, MkdirWalk(s, cur, cwd, rest).fs, cur, rest)
    decreases |rest|
  {
    hide Shaped, Chained;
    AddNodeBuilt(s, Edge(cur, rest[0]), Directory, NO_TARGET);
    var s' := Fs(s.root, AddNode(s.g, cur, rest[0], s.next, NewRec(Directory, NO_TARGET)), s.next + 1);
    var o := MkdirWalk(s, cur, cwd, rest);
    assert o == MkdirWalk(s', s.next, cwd + [rest[0]], rest[1..]);
    if rest[1..] == [] {
      ChainOne(s, cur, rest);
    } else {
      WalkMakes(s', s.next, cwd + [rest[0]], rest[1..]);
      ChainMore(s, cur, rest, o.fs);
    }
  }

  lemma ChainOne(s: Fs, cur: nat, rest: Path)
    requires Built(s) && cur in s.g && |rest| == 1
    ensures Chained(s, Fs(s.root, AddNode(s.g, cur, rest[0], s.next, NewRec(Directory, NO_TARGET)), s.next + 1),
                    cur, rest)
  { }

  lemma ChainMore(s: Fs, cur: nat, rest: Path, t: Fs)
    requires Built(s) && cur in s.g && |rest| > 1
    requires Chained(Fs(s.root, AddNode(s.g, cur, rest[0], s.next, NewRec(Directory, NO_TARGET)), s.next + 1),
                     t, s.next,
                     rest[1..])
    ensures Chained(s, t, cur, rest)
  {
    var s' := Fs(s.root, AddNode(s.g, cur, rest[0], s.next, NewRec(Directory, NO_TARGET)), s.next + 1);
    forall m | 0 <= m < |rest| ensures t.g[s.next + m] == NewDir(s, rest, m) {
      if m > 0 { assert t.g[s'.next + (m - 1)] == NewDir(s', rest[1..], m - 1); }
    }
  }

  lemma RootDir(s: Fs)
    requires Built(s)
    ensures IsDir(s.g, ROOT)
  { }

  /**
   * MkdirAll: the names lead through directories as far as they go. If all do, nothing changes; from the first missing
   * one on a chain of new directories is made; a name in the way that is none is the error, and then nothing changed.
   */
  lemma MkdirAllOutcome(s: Fs, name: Raw) returns (fs: seq<Found>)
    requires Built(s)
    ensures var o := MkdirAll(s, name);
            match ResolvePath(s.root, s.root, name)
            case None => Refused(s, o, Permission)
            case Some(path) =>
              && s.root <= path && Trail(s, path[|s.root|..], fs) && fs[0] == Found(ROOT, s.root)
              && WalkEnds(s, o, path[|s.root|..], fs)
  {
    hide Lookup, ResolvePath, Shaped, MkdirWalk, WalkEnds;
    fs := [];
    var path := ResolvePath(s.root, s.root, name);
    if path.Some? {
      NameIs(s, name, path.value);
      NameProper(s, name);
      assert Proper(path.value[|s.root|..]) && IsDir(s.g, ROOT) by { RootDir(s); }
      fs := MkdirWalkEnds(s, ROOT, s.root, path.value[|s.root|..]);
      if path.value == s.root { WalkNone(s, ROOT, s.root); }
    }
  }
}

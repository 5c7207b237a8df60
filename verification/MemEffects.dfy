/** What lookups find after an operation. */
module MemEffects {
  import opened Basics
  import opened Paths
  import opened MemGraph
  import opened MemCut
  import opened MemRename
  import opened MemLookup
  import opened MemOps
  import opened MemRuns
  import opened MemInvariant

  // ---------- creating ----------

  /** The entry at the end of a path whose parent resolves. */
  lemma EntryResolves(root: Path, g: Graph, path: Path, h: nat, d: nat, dp: Path)
    requires Shaped(g) && path != [] && root <= path && path != root && IsDir(g, d) && path[|path| - 1] in g[d].kids
    requires Resolves(root, g, path[..|path| - 1], true, h, d, dp)
    ensures Resolves(root, g, path, false, h, g[d].kids[path[|path| - 1]], dp + [path[|path| - 1]])
  {
    ResolvesStep(root, g, path, false, h, d, dp, 0, g[d].kids[path[|path| - 1]], dp + [path[|path| - 1]]);
  }

  /** A lookup that found something finds the same after entries are added. */
  lemma FoundStays(root: Path, g: Graph, h: Graph, path: Path, follow: bool)
    requires Shaped(g) && Shaped(h) && Extends(g, h) && Proper(root) && Proper(path) && root <= path
    requires Lookup(root, g, path, follow, 0).Ok?
    ensures Lookup(root, h, path, follow, 0) == Lookup(root, g, path, follow, 0)
  {
    hide Lookup, Shaped, Extends, Resolves;
    var f := Lookup(root, g, path, follow, 0).value;
    var k := LookupResolves(root, g, path, follow, 0);
    ResolvesExtends(root, g, h, path, follow, k, f.node, f.path);
    LookupOfResolved(root, h, path, follow, 0, k, f.node, f.path);
  }

  /** A path finds the entry just put where it leads. */
  lemma PutIsFound(s: Fs, g': Graph, path: Path, i: nat)
    requires Built(s) && Shaped(g') && Extends(s.g, g') && s.root <= path && Proper(path)
    requires LookupParent(s.root, s.g, path).Ok?
    requires var par := LookupParent(s.root, s.g, path).value;
             IsDir(g', par.node) && par.base in g'[par.node].kids && g'[par.node].kids[par.base] == i
    ensures var par := LookupParent(s.root, s.g, path).value;
            Lookup(s.root, g', path, false, 0) == Ok(Found(i, par.path + [par.base]))
  {
    hide Lookup, Shaped, Extends, Resolves, Canonical;
    var par := LookupParent(s.root, s.g, path).value;
    var h := ParentResolves(s, path);
    var up := path[..|path| - 1];
    ParentDepth(s, path, h);
    ResolvesExtends(s.root, s.g, g', up, true, h, par.node, par.path);
    EntryResolves(s.root, g', path, h, par.node, par.path);
    LookupOfResolved(s.root, g', path, false, 0, h, i, par.path + [par.base]);
  }

  lemma ParentDepth(s: Fs, path: Path, h: nat)
    requires Built(s) && s.root <= path && Proper(path) && LookupParent(s.root, s.g, path).Ok?
    requires var par := LookupParent(s.root, s.g, path).value;
             path != [] && Resolves(s.root, s.g, path[..|path| - 1], true, h, par.node, par.path)
    ensures h <= MAX_DEPTH
  {
    hide Resolves, Lookup;
    var par := LookupParent(s.root, s.g, path).value;
    LookupOfResolved(s.root, s.g, path[..|path| - 1], true, 0, h, par.node, par.path);
  }

  lemma LocatePlace(s: Fs, name: Raw, rootErr: Err)
    requires Built(s) && Locate(s, name, rootErr).Ok?
    ensures Name(s, name).Ok? && Proper(Name(s, name).value) && LookupParent(s.root, s.g, Name(s, name).value).Ok?
    ensures var par := LookupParent(s.root, s.g, Name(s, name).value).value;
            Locate(s, name, rootErr).value == Edge(par.node, par.base) && ProperName(par.base)
  {
    NameProper(s, name);
    var h := ParentResolves(s, Name(s, name).value);
  }

  /**
   * Mkdir, Mkfifo, Symlink: the name now leads to a new empty node of the kind made, and everything found before is
   * found as before.
   */
  lemma MakeIsFound(s: Fs, name: Raw, kind: Kind, target: Raw, rootErr: Err)
    requires Built(s) && Make(s, name, kind, target, rootErr).res.Ok?
    ensures var s' := Make(s, name, kind, target, rootErr).fs;
            var path := Name(s, name).value;
            && Built(s') && s'.root == s.root && s.next !in s.g && s.next in s'.g
                && s'.g[s.next] == NewRec(kind, target)
            && Lookup(s.root, s'.g, path, false, 0).Ok? && Lookup(s.root, s'.g, path, false, 0).value.node == s.next
            && Extends(s.g, s'.g)
  {
    hide Lookup, Shaped, Extends, LookupParent, Name;
    LocatePlace(s, name, rootErr);
    var e := Locate(s, name, rootErr).value;
    CreatedShaped(s, e, NewRec(kind, target));
    PutIsFound(s, Created(s, e, NewRec(kind, target)), Name(s, name).value, s.next);
  }

  lemma LinkedShaped(g: Graph, d: nat, base: string, i: nat)
    requires Shaped(g) && IsDir(g, d) && base !in g[d].kids && ProperName(base) && i in g && !IsDir(g, i)
    ensures Shaped(AddLink(g, d, base, i)) && Extends(g, AddLink(g, d, base, i))
    ensures IsDir(AddLink(g, d, base, i), d) && base in AddLink(g, d, base, i)[d].kids
              && AddLink(g, d, base, i)[d].kids[base] == i
  {
    AddLinkOneMore(g, d, base, i);
    OneMoreShaped(g, AddLink(g, d, base, i), Edge(d, base));
  }

  /**
   * Link: the new name now leads to the very node the old one leads to, and everything found before is found as
   * before.
   */
  lemma LinkIsFound(s: Fs, oldname: Raw, newname: Raw)
    requires Built(s) && Link(s, oldname, newname).res.Ok?
    ensures var s' := Link(s, oldname, newname).fs;
            var oldpath, path := Name(s, oldname).value, Name(s, newname).value;
            && Shaped(s'.g) && s'.root == s.root && Extends(s.g, s'.g)
            && Lookup(s.root, s.g, oldpath, true, 0).Ok? && Lookup(s.root, s'.g, path, false, 0).Ok?
            && Lookup(s.root, s'.g, path, false, 0).value.node == Lookup(s.root, s.g, oldpath, true, 0).value.node
            && Lookup(s.root, s'.g, oldpath, true, 0) == Lookup(s.root, s.g, oldpath, true, 0)
  {
    hide Lookup, Shaped, Extends, LookupParent, Name;
    var oldpath, path := Name(s, oldname).value, Name(s, newname).value;
    NameProper(s, oldname);
    LocatePlace(s, newname, Permission);
    var i := Lookup(s.root, s.g, oldpath, true, 0).value.node;
    var e := Place(s, path).value;
    LinkedShaped(s.g, e.dir, e.name, i);
    PutIsFound(s, AddLink(s.g, e.dir, e.name, i), path, i);
    FoundStays(s.root, s.g, AddLink(s.g, e.dir, e.name, i), oldpath, true);
  }

  // ---------- removing ----------

  /** The same nodes with some entries gone. */
  ghost predicate Lost(g: Graph, h: Graph) {
    && h.Keys == g.Keys
    && (forall i :: i in g ==> h[i].kind == g[i].kind && h[i].target == g[i].target)
    && (forall i, s :: i in h && s in h[i].kids ==> s in g[i].kids && h[i].kids[s] == g[i].kids[s])
  }

  /** With entries gone a lookup finds what it found, fails as it failed, or does not find its way any more. */
  lemma {:induction false} FindLost(root: Path, g: Graph, h: Graph, cur: nat, cwd: Path, rest: Path, follow: bool,
                                    depth: nat)
    requires Shaped(g) && Shaped(h) && Lost(g, h) && cur in g && depth <= MAX_DEPTH
    ensures Find(root, h, cur, cwd, rest, follow, depth) == Fail(NotExist)
            || Find(root, h, cur, cwd, rest, follow, depth) == Find(root, g, cur, cwd, rest, follow, depth)
    decreases MAX_DEPTH + 1 - depth, 0, |rest|
  {
    hide Shaped;
    if rest != [] && IsDir(g, cur) && rest[0] in h[cur].kids {
      var child := g[cur].kids[rest[0]];
      ChildIn(g, cur, rest[0]);
      ChildIn(h, cur, rest[0]);
      if g[child].kind.Symlink? && (rest[1..] != [] || follow) {
        var t := LinkTarget(root, cwd, g[child].target, rest[1..]);
        if t.Some? { LookupLost(root, g, h, t.value, follow, depth + 1); }
      } else {
        FindLost(root, g, h, child, cwd + [rest[0]], rest[1..], follow, depth);
      }
    }
  }

  lemma ChildIn(g: Graph, d: nat, c: string)
    requires Shaped(g) && d in g && c in g[d].kids
    ensures g[d].kids[c] in g && ProperName(c) && IsDir(g, d)
  {
    assert Edge(d, c) in Edges(g);
  }

  lemma {:induction false} LookupLost(root: Path, g: Graph, h: Graph, path: Path, follow: bool, depth: nat)
    requires Shaped(g) && Shaped(h) && Lost(g, h) && root <= path
    ensures Lookup(root, h, path, follow, depth) == Fail(NotExist)
            || Lookup(root, h, path, follow, depth) == Lookup(root, g, path, follow, depth)
    decreases MAX_DEPTH + 1 - depth, 1, 0
  {
    hide Find, Lost;
    if depth <= MAX_DEPTH && path != root {
      LostRoot(g, h);
      FindLost(root, g, h, ROOT, root, path[|root|..], follow, depth);
    }
  }

  lemma LostRoot(g: Graph, h: Graph)
    requires Shaped(g)
    ensures ROOT in g
  { }

  lemma {:induction false} LostWalk(g: Graph, h: Graph, i: nat, p: Path)
    requires Lost(g, h) && Walk(h, i, p).Some?
    ensures Walk(g, i, p) == Walk(h, i, p)
    decreases |p|
  {
    if p != [] { LostWalk(g, h, h[i].kids[p[0]], p[1..]); }
  }

  /** A path whose entry is gone is not found any more. */
  lemma GoneIsLost(s: Fs, g': Graph, path: Path)
    requires Built(s) && Shaped(g') && Lost(s.g, g') && s.root <= path && Proper(path)
    requires LookupParent(s.root, s.g, path).Ok?
    requires var par := LookupParent(s.root, s.g, path).value;
             par.base in s.g[par.node].kids && (par.node in g' ==> par.base !in g'[par.node].kids)
    ensures Lookup(s.root, g', path, false, 0) == Fail(NotExist)
  {
    hide Lookup, Shaped, Lost, Resolves, ResolvesIn, Canonical, LookupParent;
    var par := LookupParent(s.root, s.g, path).value;
    var c := par.base;
    var h := ParentResolves(s, path);
    ParentDepth(s, path, h);
    EntryResolves(s.root, s.g, path, h, par.node, par.path);
    LookupOfResolved(s.root, s.g, path, false, 0, h, s.g[par.node].kids[c], par.path + [c]);
    LookupLost(s.root, s.g, g', path, false, 0);
    if Lookup(s.root, g', path, false, 0).Ok? {
      var k := LookupResolves(s.root, g', path, false, 0);
      StillEntry(s, g', path, k, s.g[par.node].kids[c], par.node, par.path);
    }
  }

  /** Were the path still found there, its parent would still have the entry. */
  lemma StillEntry(s: Fs, g': Graph, path: Path, k: nat, i: nat, d: nat, dp: Path)
    requires Built(s) && Shaped(g') && Lost(s.g, g') && path != [] && path != s.root
    requires Canonical(s.root, s.g, d, dp) && Resolves(s.root, g', path, false, k, i, dp + [path[|path| - 1]])
    ensures d in g' && path[|path| - 1] in g'[d].kids
  {
    hide Lookup, Shaped, Lost, Resolves, ResolvesIn, Canonical;
    var c := path[|path| - 1];
    ResolvesSplit(s.root, g', path, false, k, i, dp + [c]);
    var j: nat, e: nat, ep: Path :| ResolvesIn(s.root, g', path, false, k, i, dp + [c], j, e, ep);
    ResolvesUp(s.root, g', path, false, k, i, dp + [c], j, e, ep);
    ResolvesName(s.root, g', path, false, k, i, dp + [c], j, e, ep);
    SameUp(dp, ep, c);
    ResolvesCanonical(s.root, g', path[..|path| - 1], true, j, e, ep);
    SameDir(s.root, s.g, g', d, e, dp);
  }

  lemma SameUp(p: Path, q: Path, c: string)
    requires p + [c] == q + [c]
    ensures p == q
  {
    assert p == (p + [c])[..|p + [c]| - 1] && q == (q + [c])[..|q + [c]| - 1];
  }

  lemma SameDir(root: Path, g: Graph, h: Graph, d: nat, e: nat, p: Path)
    requires Lost(g, h) && Canonical(root, g, d, p) && Canonical(root, h, e, p)
    ensures d == e
  {
    LostWalk(g, h, ROOT, p[|root|..]);
  }

  lemma CutLost(g: Graph, r: set<Edge>)
    requires Shaped(g)
    ensures Lost(g, Cut(g, r)) && Shaped(Cut(g, r))
    ensures forall e :: e in r && e in Edges(g) ==> e.dir in Cut(g, r) && e.name !in Cut(g, r)[e.dir].kids
  {
    CutEdges(g, r);
    var h := Cut(g, r);
    forall e | e in r && e in Edges(g) ensures e.dir in h && e.name !in h[e.dir].kids {
      assert e !in Edges(h);
    }
  }

  /** Remove: the name leads nowhere any more, and any other lookup finds what it found or nothing. */
  lemma RemoveIsGone(s: Fs, name: Raw)
    requires Built(s) && Remove(s, name).res.Ok?
    ensures var s' := Remove(s, name).fs;
            && Shaped(s'.g) && s'.root == s.root
            && Lookup(s.root, s'.g, Name(s, name).value, false, 0) == Fail(NotExist)
            && forall q, follow :: s.root <= q ==>
                 Lookup(s.root, s'.g, q, follow, 0) == Fail(NotExist)
                 || Lookup(s.root, s'.g, q, follow, 0) == Lookup(s.root, s.g, q, follow, 0)
  {
    hide Lookup, Shaped, LookupParent, Name, Cut, Lost;
    LocatePlace(s, name, Permission);
    var e := Locate(s, name, Permission).value;
    assert e in Edges(s.g);
    UnlinkIsCut(s.g, e);
    CutLost(s.g, {e});
    var g' := Cut(s.g, {e});
    GoneIsLost(s, g', Name(s, name).value);
    forall q, follow | s.root <= q
      ensures Lookup(s.root, g', q, follow, 0) == Fail(NotExist)
                || Lookup(s.root, g', q, follow, 0) == Lookup(s.root, s.g, q, follow, 0)
    {
      LookupLost(s.root, s.g, g', q, follow, 0);
    }
  }

  /**
   * RemoveAll: the name, other than the root's, leads nowhere any more, and any other lookup finds what it found or
   * nothing.
   */
  lemma RemoveAllIsGone(s: Fs, name: Raw)
    requires Good(s) && RemoveAll(s, name).res.Ok? && Locate(s, name, Permission).Ok?
    requires Taken(s.g, Locate(s, name, Permission).value)
    ensures var s' := RemoveAll(s, name).fs;
            && Good(s') && s'.root == s.root
            && Lookup(s.root, s'.g, Name(s, name).value, false, 0) == Fail(NotExist)
            && forall q, follow :: s.root <= q ==>
                 Lookup(s.root, s'.g, q, follow, 0) == Fail(NotExist)
                 || Lookup(s.root, s'.g, q, follow, 0) == Lookup(s.root, s.g, q, follow, 0)
  {
    hide Lookup, Shaped, LookupParent, Name, Cut, Lost, Inv, Discarded;
    RemoveAllGood(s, name);
    LocatePlace(s, name, Permission);
    var e := Locate(s, name, Permission).value;
    assert e in Edges(s.g);
    DiscardIsCutTree(s.g, e);
    CutLost(s.g, TreeEdges(s.g, e));
    var g' := Cut(s.g, TreeEdges(s.g, e));
    GoneIsLost(s, g', Name(s, name).value);
    forall q, follow | s.root <= q
      ensures Lookup(s.root, g', q, follow, 0) == Fail(NotExist)
                || Lookup(s.root, g', q, follow, 0) == Lookup(s.root, s.g, q, follow, 0)
    {
      LookupLost(s.root, s.g, g', q, follow, 0);
    }
  }

  // ---------- renaming ----------

  /** Taking away the entry of a node without entries keeps every walk to a node that has some. */
  lemma {:induction false} LeafKeepsWalk(g: Graph, dst: Edge, n: nat, p: Path)
    requires Shaped(g) && dst in Edges(g) && g[Target(g, dst)].kids == map[] && n in g
    requires Walk(g, n, p).Some? && Walk(g, n, p).value in g && g[Walk(g, n, p).value].kids != map[]
    ensures Walk(Cut(g, {dst}), n, p) == Walk(g, n, p)
    decreases |p|
  {
    CutEdges(g, {dst});
    if p != [] {
      var e := Edge(n, p[0]);
      assert e in Edges(g);
      if p[1..] == [] { assert Walk(g, Target(g, e), p[1..]) == Some(Target(g, e)); }
      assert e != dst;
      assert e in Edges(Cut(g, {dst}));
      LeafKeepsWalk(g, dst, Target(g, e), p[1..]);
    }
  }

  /** The target of a good rename lies outside what is moved. */
  lemma OutsideMoved(g: Graph, src: Edge, dst: Edge)
    requires Inv(g) && RenameAllowed(g, src, dst) && !BadRename(g, src, dst) && src != dst
    ensures Inv(Vacate(g, dst)) && CanMove(Vacate(g, dst), src, dst) && Target(Vacate(g, dst), src) == Target(g, src)
    ensures dst.dir !in Subtree(Vacate(g, dst), Target(g, src)) && src.dir !in Subtree(Vacate(g, dst), Target(g, src))
    ensures Renamed(g, src, dst) == Move(Vacate(g, dst), src, dst)
  {
    hide Inv, Subtree;
    InvShaped(g);
    AllowedParts(g, src, dst);
    var v, n := Vacate(g, dst), Target(g, src);
    VacateInv(g, dst);
    if dst in Edges(g) { CutEdges(g, {dst}); }
    VacateSubtree(g, dst, n);
    InvShaped(v);
    NoCycle(v, src);
    if !IsDir(g, n) { FileSubtree(v, n, dst.dir); }
  }

  lemma FileSubtree(g: Graph, n: nat, d: nat)
    requires n in g && !IsDir(g, n) && IsDir(g, d)
    ensures d !in Subtree(g, n)
  {
    forall p: Path ensures Walk(g, n, p) != Some(d) { }
  }

  /** The directories of both entries keep their paths. */
  lemma RenameKeepsPaths(g: Graph, src: Edge, dst: Edge, p: Path, q: Path)
    requires Inv(g) && RenameAllowed(g, src, dst) && !BadRename(g, src, dst) && src != dst
    requires Walk(g, ROOT, p) == Some(src.dir) && Walk(g, ROOT, q) == Some(dst.dir)
    ensures Walk(Renamed(g, src, dst), ROOT, p) == Some(src.dir) && Walk(Renamed(g, src, dst), ROOT, q) == Some(dst.dir)
  {
    hide Inv, Move, Subtree, Renamed, BadRename;
    InvShaped(g);
    assert dst in Edges(g) ==> Target(g, dst) in g;
    var v := Vacate(g, dst);
    OutsideMoved(g, src, dst);
    VacateInv(g, dst);
    if dst in Edges(g) {
      VacateKeepsWalk(g, dst, ROOT, q);
      LeafKeepsWalk(g, dst, ROOT, p);
    }
    MoveOutside(v, src, dst, p);
    MoveOutside(v, src, dst, q);
  }

  lemma InvShaped(g: Graph)
    requires Inv(g)
    ensures Shaped(g) && ROOT in g
  { }

  lemma RenamedEntries(g: Graph, src: Edge, dst: Edge)
    requires Inv(g) && RenameAllowed(g, src, dst) && !BadRename(g, src, dst)
    ensures var h := Renamed(g, src, dst);
            && Inv(h) && dst.dir in h && dst.name in h[dst.dir].kids && h[dst.dir].kids[dst.name] == Target(g, src)
            && (src != dst ==> src.dir in h && src.name !in h[src.dir].kids)
  {
    RenameInvIff(g, src, dst);
  }

  lemma CanonicalWalk(root: Path, g: Graph, h: Graph, i: nat, p: Path)
    requires Canonical(root, g, i, p) && Walk(h, ROOT, p[|root|..]) == Walk(g, ROOT, p[|root|..])
    ensures Canonical(root, h, i, p) && Walk(g, ROOT, p[|root|..]) == Some(i)
  { }

  /** A name below a symlink-free path. */
  lemma NameBelow(root: Path, g: Graph, d: nat, dp: Path, c: string)
    requires Shaped(g) && Canonical(root, g, d, dp) && IsDir(g, d)
    ensures Lookup(root, g, dp + [c], false, 0) == if c in g[d].kids then Ok(Found(g[d].kids[c], dp + [c]))
              else Fail(NotExist)
  {
    LookupBelow(root, g, d, dp, [c], false, 0);
    if c in g[d].kids { ChildIn(g, d, c); }
  }

  /** At the symlink-free paths of the two entries: the new one is the node's, the old one, if another, is gone. */
  ghost predicate Moved(root: Path, g: Graph, h: Graph, a: Parent, b: Parent) {
    && Shaped(h) && root <= a.path && root <= b.path && a.node in g && a.base in g[a.node].kids
    && Lookup(root, h, b.path + [b.base], false, 0) == Ok(Found(g[a.node].kids[a.base], b.path + [b.base]))
    && (Edge(a.node, a.base) != Edge(b.node, b.base) ==> Lookup(root, h, a.path + [a.base], false, 0) == Fail(NotExist))
  }

  /**
   * Rename: in the directories the two names led to, the new name is now the entry of the node renamed, and the old
   * name, unless it is the same entry, is gone.
   */
  lemma RenameIsFound(s: Fs, oldname: Raw, newname: Raw)
    requires Good(s) && Rename(s, oldname, newname).res.Ok? && !RenamesBadly(s, oldname, newname)
    ensures Good(Rename(s, oldname, newname).fs) && Rename(s, oldname, newname).fs.root == s.root
    ensures Name(s, oldname).Ok? && Name(s, newname).Ok?
    ensures var a, b := LookupParent(s.root, s.g, Name(s, oldname).value),
              LookupParent(s.root, s.g, Name(s, newname).value);
            a.Ok? && b.Ok? && Moved(s.root, s.g, Rename(s, oldname, newname).fs.g, a.value, b.value)
  {
    hide Lookup, Inv, Renamed, BadRename, Reaches, Canonical, LookupParent, Name, Vacate, Shaped;
    RenameGoodIff(s, oldname, newname);
    LocatePlace(s, oldname, Permission);
    LocatePlace(s, newname, Permission);
    LocateReached(s, newname, Permission);
    var a, b := LookupParent(s.root, s.g, Name(s, oldname).value).value,
        LookupParent(s.root, s.g, Name(s, newname).value).value;
    var src, dst := Edge(a.node, a.base), Edge(b.node, b.base);
    var h := ParentResolves(s, Name(s, oldname).value);
    var k := ParentResolves(s, Name(s, newname).value);
    assert src in Edges(s.g);
    CanonicalProper(s.root, s.g, a.node, a.path);
    CanonicalProper(s.root, s.g, b.node, b.path);
    RenameSeen(s, src, dst, a.path, b.path);
  }

  lemma RenameSeen(s: Fs, src: Edge, dst: Edge, sp: Path, dp: Path)
    requires Good(s) && RenameAllowed(s.g, src, dst) && !BadRename(s.g, src, dst)
    requires Canonical(s.root, s.g, src.dir, sp) && Canonical(s.root, s.g, dst.dir, dp)
    ensures Moved(s.root, s.g, Renamed(s.g, src, dst), Parent(src.dir, sp, src.name), Parent(dst.dir, dp, dst.name))
  {
    hide Lookup, Inv, Renamed, BadRename, Reaches, Canonical, Shaped;
    InvShaped(s.g);
    AllowedParts(s.g, src, dst);
    var h := Renamed(s.g, src, dst);
    RenamedEntries(s.g, src, dst);
    InvShaped(h);
    CanonicalProper(s.root, s.g, src.dir, sp);
    CanonicalProper(s.root, s.g, dst.dir, dp);
    if src != dst {
      CanonicalWalk(s.root, s.g, s.g, src.dir, sp);
      CanonicalWalk(s.root, s.g, s.g, dst.dir, dp);
      RenameKeepsPaths(s.g, src, dst, sp[|s.root|..], dp[|s.root|..]);
      CanonicalWalk(s.root, s.g, h, src.dir, sp);
      CanonicalWalk(s.root, s.g, h, dst.dir, dp);
      ChildDir(h, dst.dir, dst.name);
      NameBelow(s.root, h, dst.dir, dp, dst.name);
      RenamedDirs(s.g, src, dst);
      NameBelow(s.root, h, src.dir, sp, src.name);
    } else {
      OntoItself(s.g, src);
      ChildDir(h, dst.dir, dst.name);
      NameBelow(s.root, h, dst.dir, dp, dst.name);
    }
  }

  lemma AllowedParts(g: Graph, src: Edge, dst: Edge)
    requires Shaped(g) && RenameAllowed(g, src, dst)
    ensures IsDir(g, src.dir) && src.name in g[src.dir].kids && IsDir(g, dst.dir)
    ensures dst.name in g[dst.dir].kids ==> g[dst.dir].kids[dst.name] in g
  {
    ChildIn(g, src.dir, src.name);
    if dst.name in g[dst.dir].kids { ChildIn(g, dst.dir, dst.name); }
  }

  lemma ChildDir(g: Graph, d: nat, c: string)
    requires Shaped(g) && d in g && c in g[d].kids
    ensures IsDir(g, d)
  { }

  lemma RenamedDirs(g: Graph, src: Edge, dst: Edge)
    requires Shaped(g) && RenameAllowed(g, src, dst)
    ensures IsDir(Renamed(g, src, dst), src.dir)
  { }

  /** A directory renamed onto itself is left alone. */
  lemma OntoItself(g: Graph, src: Edge)
    requires Inv(g) && RenameAllowed(g, src, src) && !BadRename(g, src, src)
    ensures Renamed(g, src, src) == g
  {
    NoCycle(g, src);
    RenameOntoSelfGraph(g, src);
  }
}

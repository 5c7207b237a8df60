/** The filesystem invariant over whole runs. */
module MemInvariant {
  import opened Basics
  import opened Paths
  import opened MemGraph
  import opened MemCut
  import opened MemRename
  import opened MemLookup
  import opened MemOps
  import opened MemFiles
  import opened MemRuns

  // ---------- RemoveAll ----------

  lemma {:induction false} CutKeepsBelow(g: Graph, e: Edge, n: nat, p: Path)
    requires Inv(g) && e in Edges(g) && n in Subtree(g, Target(g, e)) && Walk(g, n, p).Some?
    ensures Walk(Cut(g, {e}), n, p) == Walk(g, n, p)
    decreases |p|
  {
    if p != [] {
      NoCycle(g, e);
      var f := Edge(n, p[0]);
      assert f in Edges(g) && f != e;
      if IsDir(g, Target(g, f)) {
        SubtreeChild(g, Target(g, e), f);
        CutKeepsBelow(g, e, Target(g, f), p[1..]);
      } else {
        assert p[1..] == [];
      }
    }
  }

  lemma CutSubtree(g: Graph, e: Edge)
    requires Inv(g) && e in Edges(g)
    ensures Subtree(Cut(g, {e}), Target(g, e)) == Subtree(g, Target(g, e))
    ensures OutOf(Cut(g, {e}), Subtree(g, Target(g, e))) == OutOf(g, Subtree(g, Target(g, e)))
  {
    var c := Target(g, e);
    SubtreeCut(g, {e}, c);
    forall d | d in Subtree(g, c) ensures d in Subtree(Cut(g, {e}), c) {
      var p: Path :| Walk(g, c, p) == Some(d);
      if IsDir(g, c) {
        assert Walk(g, c, []) == Some(c);
        CutKeepsBelow(g, e, c, p);
      }
    }
    NoCycle(g, e);
    CutEdges(g, {e});
  }

  /** Deleting an entry and discarding its node recursively removes exactly the tree below the entry. */
  lemma DiscardIsCutTree(g: Graph, e: Edge)
    requires Inv(g) && e in Edges(g)
    ensures Target(g, e) in Unlink(g, e)
    ensures Discarded(Unlink(g, e), Target(g, e)) == Cut(g, TreeEdges(g, e))
  {
    var c := Target(g, e);
    UnlinkIsCut(g, e);
    CutSubtree(g, e);
    if IsDir(g, c) {
      NoCycle(g, e);
      var r := OutOf(g, Subtree(g, c));
      assert e !in r && r <= Edges(g) - {e};
      CutCompose(g, {e}, r);
    } else {
      LeafSubtree(g, c);
    }
  }

  lemma ClearRoot(g: Graph)
    requires Inv(g)
    ensures Inv(Discarded(g, ROOT)) && Edges(Discarded(g, ROOT)) == {}
  {
    var r := OutOf(g, Subtree(g, ROOT));
    var h := Cut(g, r);
    forall e | e in Edges(g) ensures e in r {
      assert IsDir(g, e.dir) && !Detached(g, e.dir);
    }
    CutEdges(g, r);
    CutLinks(g, r);
    CutOneEntry(g, r);
    forall i, s | i in h && s in g[i].kids ensures Edge(i, s) in r {
      assert Edge(i, s) in Edges(g);
    }
  }

  lemma RemoveAllGood(s: Fs, name: Raw)
    requires Good(s)
    ensures Good(RemoveAll(s, name).fs)
  {
    var o := RemoveAll(s, name);
    if o.fs != s {
      if Name(s, name) == Ok(s.root) {
        ClearRoot(s.g);
      } else {
        var e := Locate(s, name, Permission).value;
        assert e in Edges(s.g);
        DiscardIsCutTree(s.g, e);
        CutTreeInv(s.g, e);
      }
    }
  }

  // ---------- opening, writing, renaming ----------

  lemma SetDataInv(g: Graph, i: nat, data: seq<byte>)
    requires Inv(g) && i in g
    ensures Inv(SetData(g, i, data))
  {
    var h := SetData(g, i, data);
    SetDataShaped(g, i, data);
    assert forall j: nat :: Into(h, j) == Into(g, j);
    forall j: nat | IsDir(h, j) && Reaches(g, ROOT, j) ensures Reaches(h, ROOT, j) {
      var p: Path :| Walk(g, ROOT, p) == Some(j);
      WalkExtends(g, h, ROOT, p);
    }
  }

  lemma OpenFileGood(s: Fs, name: Raw, f: Flags)
    requires Good(s)
    ensures Good(OpenFile(s, name, f).fs)
  {
    var o := OpenFile(s, name, f);
    if o.res.Ok? {
      var path := Name(s, name).value;
      NameProper(s, name);
      var r := Lookup(s.root, s.g, path, true, 0);
      if r.Ok? {
        SetDataInv(s.g, r.value.node, if Truncates(f) then [] else s.g[r.value.node].data);
      } else {
        var createPath := CreatePath(s, path, 0).value;
        CreatePathProper(s, path, 0);
        PlaceReached(s, createPath);
        var e := Place(s, createPath).value;
        AddNodeInv(s.g, e.dir, e.name, s.next, NewRec(Regular, NO_TARGET));
      }
    }
  }

  /** The entries a successful rename moves from and to. */
  ghost predicate RenamesBadly(s: Fs, oldname: Raw, newname: Raw)
    requires Built(s)
  {
    && Rename(s, oldname, newname).res.Ok?
    && var src, dst := Locate(s, oldname, Permission).value, Locate(s, newname, Permission).value;
       src in Edges(s.g) && BadRename(s.g, src, dst)
  }

  lemma RenameGoodIff(s: Fs, oldname: Raw, newname: Raw)
    requires Good(s)
    ensures Good(Rename(s, oldname, newname).fs) <==> !RenamesBadly(s, oldname, newname)
  {
    if Rename(s, oldname, newname).res.Ok? {
      var src, dst := Locate(s, oldname, Permission).value, Locate(s, newname, Permission).value;
      LocateReached(s, newname, Permission);
      assert src in Edges(s.g);
      hide Inv, Locate, Renamed, BadRename, Reaches;
      RenameInvIff(s.g, src, dst);
    }
  }

  // ---------- runs ----------

  datatype Op =
    | OpMkdir(name: Raw)
    | OpMkdirAll(name: Raw)
    | OpMkfifo(name: Raw)
    | OpSymlink(target: Raw, name: Raw)
    | OpLink(oldname: Raw, newname: Raw)
    | OpRemove(name: Raw)
    | OpRemoveAll(name: Raw)
    | OpRename(oldname: Raw, newname: Raw)
    | OpOpenFile(name: Raw, flags: Flags)
    | OpWriteFile(name: Raw, data: seq<byte>)
    | OpWrite(node: nat, handle: Handle, p: seq<byte>)

  ghost function Step(s: Fs, op: Op): Fs
    requires Built(s)
  {
    match op
    case OpMkdir(name) => Mkdir(s, name).fs
    case OpMkdirAll(name) => MkdirAll(s, name).fs
    case OpMkfifo(name) => Mkfifo(s, name).fs
    case OpSymlink(target, name) => MakeSymlink(s, target, name).fs
    case OpLink(oldname, newname) => Link(s, oldname, newname).fs
    case OpRemove(name) => Remove(s, name).fs
    case OpRemoveAll(name) => RemoveAll(s, name).fs
    case OpRename(oldname, newname) => Rename(s, oldname, newname).fs
    case OpOpenFile(name, flags) => OpenFile(s, name, flags).fs
    case OpWriteFile(name, data) => WriteFile(s, name, data).fs
    case OpWrite(i, h, p) => WriteNode(s, i, h, p)
  }

  ghost predicate Bad(s: Fs, op: Op)
    requires Built(s)
  {
    op.OpRename? && RenamesBadly(s, op.oldname, op.newname)
  }

  lemma MkdirAllGood(s: Fs, name: Raw)
    requires Good(s)
    ensures Good(MkdirAll(s, name).fs)
  {
    if Name(s, name).Ok? {
      var path := Name(s, name).value;
      NameProper(s, name);
      if path != s.root {
        assert s.root[|s.root|..] == [];
        MkdirWalkGood(s, ROOT, s.root, path[|s.root|..]);
      }
    }
  }

  lemma WriteNodeGood(s: Fs, i: nat, h: Handle, p: seq<byte>)
    requires Good(s)
    ensures Good(WriteNode(s, i, h, p))
  {
    if i in s.g {
      SetDataInv(s.g, i, WriteFileAt(h, s.g[i].data, p).1);
    }
  }

  lemma GoodBuilt(s: Fs)
    requires Good(s)
    ensures Built(s)
  { }

  /** Every operation keeps the invariant, but for the two bad renames, which break it. */
  lemma StepGoodIff(s: Fs, op: Op)
    requires Good(s)
    ensures Good(Step(s, op)) <==> !Bad(s, op)
  {
    hide Good, Inv, RenamesBadly, Name, Locate;
    match op
    case OpMkdir(name) => MakeGood(s, name, Directory, NO_TARGET, Exist);
    case OpMkdirAll(name) => MkdirAllGood(s, name);
    case OpMkfifo(name) => MakeGood(s, name, Fifo, NO_TARGET, Exist);
    case OpSymlink(target, name) => MakeGood(s, name, Symlink, target, Permission);
    case OpLink(oldname, newname) => LinkGood(s, oldname, newname);
    case OpRemove(name) => RemoveGood(s, name);
    case OpRemoveAll(name) => RemoveAllGood(s, name);
    case OpRename(oldname, newname) => RenameGoodIff(s, oldname, newname);
    case OpOpenFile(name, flags) => OpenFileGood(s, name, flags);
    case OpWriteFile(name, data) =>
      OpenFileGood(s, name, WRITE_FLAGS);
      GoodBuilt(s);
      var o := OpenFile(s, name, WRITE_FLAGS);
      if o.res.Ok? && o.res.value.File? { WriteNodeGood(o.fs, o.res.value.node, o.res.value.handle, data); }
    case OpWrite(i, h, p) => WriteNodeGood(s, i, h, p);
  }

  /** The run never leaves the invariant. */
  ghost predicate StaysGood(s: Fs, ops: seq<Op>)
    decreases |ops|
  {
    Good(s) && (ops == [] || StaysGood(Step(s, ops[0]), ops[1..]))
  }

  /** No operation of the run is a bad rename at the moment it is made. */
  ghost predicate NoBadRename(s: Fs, ops: seq<Op>)
    requires Good(s)
    decreases |ops|
  {
    ops == [] || (StepGoodIff(s, ops[0]); !Bad(s, ops[0]) && NoBadRename(Step(s, ops[0]), ops[1..]))
  }

  /** Over every run: the tree, the link counts and the inode numbers are right throughout iff no rename was bad. */
  lemma {:induction false} RunGoodIff(s: Fs, ops: seq<Op>)
    requires Good(s)
    ensures StaysGood(s, ops) <==> NoBadRename(s, ops)
    decreases |ops|
  {
    if ops != [] {
      StepGoodIff(s, ops[0]);
      if !Bad(s, ops[0]) {
        RunGoodIff(Step(s, ops[0]), ops[1..]);
      }
    }
  }

  /** From a new filesystem. */
  lemma NewRunGoodIff(root: Path, ops: seq<Op>)
    requires Proper(root)
    ensures Good(New(root))
    ensures StaysGood(New(root), ops) <==> NoBadRename(New(root), ops)
  {
    NewGood(root);
    RunGoodIff(New(root), ops);
  }

  // ---------- both bad renames happen ----------

  lemma RootName(s: Fs, c: string)
    requires Built(s) && s.root == [] && ProperName(c)
    ensures Name(s, Raw(true, [c])) == Ok([c]) && Place(s, [c]) == Ok(Edge(ROOT, c))
  {
    CleanOfProper([], [c]);
    assert [] + [c] == [c] && [c][..0] == [];
  }

  /** mkfifo /f, rename /f /f: the node keeps its entry but its link count drops to zero. */
  lemma RenameOntoSelfBreaks()
    ensures var f := Raw(true, ["f"]);
            var s := Mkfifo(New([]), f).fs;
            Good(New([])) && Good(s) && Rename(s, f, f).res.Ok? && !Good(Rename(s, f, f).fs)
  {
    var f := Raw(true, ["f"]);
    NewGood([]);
    var s := Mkfifo(New([]), f).fs;
    MakeGood(New([]), f, Fifo, NO_TARGET, Exist);
    RootName(New([]), "f");
    RootName(s, "f");
    assert Edge(ROOT, "f") in Edges(s.g);
    assert RenamesBadly(s, f, f);
    RenameGoodIff(s, f, f);
  }

  /** mkdir /d, rename /d /d/d: the directory now holds itself and the root no longer leads to it. */
  lemma RenameBelowSelfBreaks()
    ensures var d, dd := Raw(true, ["d"]), Raw(true, ["d", "d"]);
            var s := Mkdir(New([]), d).fs;
            Good(New([])) && Good(s) && Rename(s, d, dd).res.Ok? && !Good(Rename(s, d, dd).fs)
  {
    var d, dd := Raw(true, ["d"]), Raw(true, ["d", "d"]);
    NewGood([]);
    var s := Mkdir(New([]), d).fs;
    MakeGood(New([]), d, Directory, NO_TARGET, Exist);
    RootName(New([]), "d");
    RootName(s, "d");
    BelowName(s);
    assert Edge(ROOT, "d") in Edges(s.g);
    assert Walk(s.g, 2, []) == Some(2);
    assert RenamesBadly(s, d, dd);
    RenameGoodIff(s, d, dd);
  }

  lemma BelowName(s: Fs)
    requires Built(s) && s.root == [] && Walk(s.g, ROOT, ["d"]) == Some(2) && IsDir(s.g, 2)
    ensures Name(s, Raw(true, ["d", "d"])) == Ok(["d", "d"]) && Place(s, ["d", "d"]) == Ok(Edge(2, "d"))
  {
    CleanOfProper([], ["d", "d"]);
    assert [] + ["d", "d"] == ["d", "d"] && ["d", "d"][..1] == ["d"];
    assert ["d"][|s.root|..] == ["d"];
    CanonicalResolves(s.root, s.g, 2, ["d"], true);
    LookupOfResolved(s.root, s.g, ["d"], true, 0, 0, 2, ["d"]);
  }
}

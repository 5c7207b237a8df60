/** The filesystem operations as functions on the whole filesystem state. */
module MemOps {
  import opened Basics
  import opened Paths
  import opened MemGraph
  import opened MemCut
  import opened MemRename
  import opened MemLookup

  datatype Fs = Fs(root: Path, g: Graph, next: nat)

  /** What holds of any filesystem built by the operations, bad renames included. */
  ghost predicate Built(s: Fs) {
    Proper(s.root) && Shaped(s.g) && forall i :: i in s.g ==> i < s.next
  }

  /** Built, and the invariant. */
  ghost predicate Good(s: Fs) {
    Built(s) && Inv(s.g)
  }

  function NewRec(kind: Kind, target: Raw): Rec {
    Rec(kind, 1, map[], target, [])
  }

  const NO_TARGET: Raw := Raw(false, [])

  function New(root: Path): Fs {
    Fs(root, map[ROOT := NewRec(Directory, NO_TARGET)], ROOT + 1)
  }

  datatype Outcome<+T> = Outcome(fs: Fs, res: Res<T>)

  /** A name resolved against the root, as every operation starts. */
  function Name(s: Fs, name: Raw): (r: Res<Path>)
    ensures r.Ok? ==> s.root <= r.value
  {
    match ResolvePath(s.root, s.root, name)
    case Some(p) => Ok(p)
    case None => Fail(Permission)
  }

  /** The entry a path names: its parent directory, looked up through symlinks, and its last name. */
  function Place(s: Fs, path: Path): (r: Res<Edge>)
    requires Built(s) && s.root <= path
    ensures r.Ok? ==> IsDir(s.g, r.value.dir)
  {
    match LookupParent(s.root, s.g, path)
    case Ok(p) => Ok(Edge(p.node, p.base))
    case Fail(e) => Fail(e)
  }

  /** The place a name leads to, where the root itself is refused with rootErr. */
  function Locate(s: Fs, name: Raw, rootErr: Err): (r: Res<Edge>)
    requires Built(s)
    ensures r.Ok? ==> IsDir(s.g, r.value.dir)
  {
    match Name(s, name)
    case Fail(e) => Fail(e)
    case Ok(path) => if path == s.root then Fail(rootErr) else Place(s, path)
  }

  predicate Taken(g: Graph, e: Edge)
    requires e.dir in g
  {
    e.name in g[e.dir].kids
  }

  // ---------- creating ----------

  /** Mkdir, Mkfifo and Symlink: they differ in the node made and in the error for the root path. */
  function Make(s: Fs, name: Raw, kind: Kind, target: Raw, rootErr: Err): Outcome<()>
    requires Built(s)
  {
    match Locate(s, name, rootErr)
    case Fail(e) => Outcome(s, Fail(e))
    case Ok(e) =>
      if Taken(s.g, e) then Outcome(s, Fail(Exist))
      else Outcome(Fs(s.root, AddNode(s.g, e.dir, e.name, s.next, NewRec(kind, target)), s.next + 1), Ok(()))
  }

  function Mkdir(s: Fs, name: Raw): Outcome<()>
    requires Built(s)
  {
    Make(s, name, Directory, NO_TARGET, Exist)
  }

  function Mkfifo(s: Fs, name: Raw): Outcome<()>
    requires Built(s)
  {
    Make(s, name, Fifo, NO_TARGET, Exist)
  }

  function MakeSymlink(s: Fs, target: Raw, name: Raw): Outcome<()>
    requires Built(s)
  {
    Make(s, name, Symlink, target, Permission)
  }

  function Link(s: Fs, oldname: Raw, newname: Raw): Outcome<()>
    requires Built(s)
  {
    var oldpath, newpath := Name(s, oldname), Name(s, newname);
    if oldpath.Fail? || newpath.Fail? || newpath.value == s.root then Outcome(s, Fail(Permission))
    else match Lookup(s.root, s.g, oldpath.value, true, 0)
      case Fail(e) => Outcome(s, Fail(e))
      case Ok(f) =>
        if IsDir(s.g, f.node) then Outcome(s, Fail(Permission)) else LinkInto(s, f.node, newpath.value)
  }

  function LinkInto(s: Fs, i: nat, newpath: Path): Outcome<()>
    requires Built(s) && s.root <= newpath && i in s.g && !IsDir(s.g, i)
  {
    match Place(s, newpath)
    case Fail(e) => Outcome(s, Fail(e))
    case Ok(e) =>
      if Taken(s.g, e) then Outcome(s, Fail(Exist)) else Outcome(s.(g := AddLink(s.g, e.dir, e.name, i)), Ok(()))
  }

  // ---------- removing ----------

  function Remove(s: Fs, name: Raw): Outcome<()>
    requires Built(s)
  {
    match Locate(s, name, Permission)
    case Fail(e) => Outcome(s, Fail(e))
    case Ok(e) =>
      if !Taken(s.g, e) then Outcome(s, Fail(NotExist))
      else
        assert e in Edges(s.g);
        var i := s.g[e.dir].kids[e.name];
        if s.g[i].kids != map[] then Outcome(s, Fail(NotEmpty))
        else Outcome(s.(g := DropLink(Unlink(s.g, e), i)), Ok(()))
  }

  /** The recursive discard of a node whose entry is already gone. */
  ghost function Discarded(g: Graph, i: nat): Graph
    requires i in g
  {
    if IsDir(g, i) then Cut(g, OutOf(g, Subtree(g, i))) else DropLink(g, i)
  }

  /** RemoveAll of the root empties the root and stays. */
  ghost function RemoveAll(s: Fs, name: Raw): Outcome<()>
    requires Built(s)
  {
    if Name(s, name) == Ok(s.root) then Outcome(s.(g := Discarded(s.g, ROOT)), Ok(()))
    else match Locate(s, name, Permission)
      case Fail(e) => Outcome(s, if e == NotExist then Ok(()) else Fail(e))
      case Ok(e) =>
        if !Taken(s.g, e) then Outcome(s, Ok(()))
        else
          assert e in Edges(s.g);
          Outcome(s.(g := Discarded(Unlink(s.g, e), s.g[e.dir].kids[e.name])), Ok(()))
  }

  function Rename(s: Fs, oldname: Raw, newname: Raw): Outcome<()>
    requires Built(s)
  {
    if Name(s, oldname).Fail? || Name(s, newname).Fail? then Outcome(s, Fail(Permission))
    else match Locate(s, oldname, Permission)
      case Fail(e) => Outcome(s, Fail(e))
      case Ok(src) => if !Taken(s.g, src) then Outcome(s, Fail(NotExist)) else RenameInto(s, src, newname)
  }

  function RenameInto(s: Fs, src: Edge, newname: Raw): Outcome<()>
    requires Built(s) && IsDir(s.g, src.dir) && Taken(s.g, src)
  {
    match Locate(s, newname, Permission)
    case Fail(e) => Outcome(s, Fail(e))
    case Ok(dst) =>
      assert Taken(s.g, dst) ==> dst in Edges(s.g);
      if Taken(s.g, dst) && s.g[s.g[dst.dir].kids[dst.name]].kids != map[] then Outcome(s, Fail(NotEmpty))
      else Outcome(s.(g := Renamed(s.g, src, dst)), Ok(()))
  }

  // ---------- every operation keeps the invariant ----------

  lemma PlaceReached(s: Fs, path: Path)
    requires Built(s) && s.root <= path && Proper(path) && Place(s, path).Ok?
    ensures var e := Place(s, path).value; Reaches(s.g, ROOT, e.dir) && ProperName(e.name)
  {
    var up := path[..|path| - 1];
    LookupIdempotent(s.root, s.g, up, true);
  }

  lemma LocateReached(s: Fs, name: Raw, rootErr: Err)
    requires Built(s) && Locate(s, name, rootErr).Ok?
    ensures var e := Locate(s, name, rootErr).value; Reaches(s.g, ROOT, e.dir) && ProperName(e.name)
  {
    NameProper(s, name);
    PlaceReached(s, Name(s, name).value);
  }

  lemma NameProper(s: Fs, name: Raw)
    requires Proper(s.root) && Name(s, name).Ok?
    ensures Proper(Name(s, name).value)
  {
    ResolvedIsProper(s.root, s.root, name);
  }

  lemma NewGood(root: Path)
    requires Proper(root)
    ensures Good(New(root))
  {
    var g := New(root).g;
    assert Edges(g) == {};
    assert Walk(g, ROOT, []) == Some(ROOT);
  }

  lemma MakeGood(s: Fs, name: Raw, kind: Kind, target: Raw, rootErr: Err)
    requires Good(s)
    ensures Good(Make(s, name, kind, target, rootErr).fs)
  {
    var m := Make(s, name, kind, target, rootErr);
    if m.res.Ok? {
      LocateReached(s, name, rootErr);
      var e := Locate(s, name, rootErr).value;
      AddNodeInv(s.g, e.dir, e.name, s.next, NewRec(kind, target));
    }
  }

  lemma LinkGood(s: Fs, oldname: Raw, newname: Raw)
    requires Good(s)
    ensures Good(Link(s, oldname, newname).fs)
  {
    hide Lookup, Inv, Reaches, Name, AddLink;
    if Link(s, oldname, newname).res.Ok? {
      var path := Name(s, newname).value;
      NameProper(s, newname);
      PlaceReached(s, path);
      var e := Place(s, path).value;
      LinkedGood(s, e, Lookup(s.root, s.g, Name(s, oldname).value, true, 0).value.node);
    }
  }

  lemma LinkedGood(s: Fs, e: Edge, i: nat)
    requires Good(s) && IsDir(s.g, e.dir) && Reaches(s.g, ROOT, e.dir) && !Taken(s.g, e) && ProperName(e.name)
    requires i in s.g && !IsDir(s.g, i)
    ensures Good(s.(g := AddLink(s.g, e.dir, e.name, i)))
  {
    AddLinkInv(s.g, e.dir, e.name, i);
  }

  lemma RemoveGood(s: Fs, name: Raw)
    requires Good(s)
    ensures Good(Remove(s, name).fs)
  {
    if Remove(s, name).res.Ok? {
      var e := Locate(s, name, Permission).value;
      assert e in Edges(s.g);
      UnlinkIsCut(s.g, e);
      CutLeafInv(s.g, e);
    }
  }
}

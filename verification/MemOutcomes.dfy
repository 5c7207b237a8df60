/** The result of each operation that changes entries, and the whole state it leaves, on what lookups find. */
module MemOutcomes {
  import opened Basics
  import opened Paths
  import opened MemGraph
  import opened MemCut
  import opened MemRename
  import opened MemLookup
  import opened MemOps
  import opened MemInvariant

  ghost predicate Refused<T(!new)>(s: Fs, o: Outcome<T>, e: Err) {
    o.fs == s && o.res == Fail(e)
  }

  /** Where the entry a path names is or would be: the directory its parent is, and its last name. */
  ghost predicate At(s: Fs, path: Path, e: Edge)
    requires Built(s)
  {
    && path != s.root && s.root <= path && e.name == path[|path| - 1]
    && var up := Lookup(s.root, s.g, path[..|path| - 1], true, 0);
       up.Ok? && up.value.node == e.dir && IsDir(s.g, e.dir)
  }

  /** Why there is no such place, other than that the path is the root's. */
  ghost predicate Astray(s: Fs, path: Path, e: Err)
    requires Built(s)
  {
    && path != s.root && s.root <= path
    && match Lookup(s.root, s.g, path[..|path| - 1], true, 0)
       case Fail(err) => e == err
       case Ok(up) => !IsDir(s.g, up.node) && e == NotDirectory
  }

  /** A name leads to a place, or there is none for one of three reasons. */
  lemma LocateOutcome(s: Fs, name: Raw, rootErr: Err)
    requires Built(s)
    ensures match ResolvePath(s.root, s.root, name)
            case None => Name(s, name) == Fail(Permission) && Locate(s, name, rootErr) == Fail(Permission)
            case Some(path) =>
              && Name(s, name) == Ok(path)
              && (path == s.root ==> Locate(s, name, rootErr) == Fail(rootErr))
              && (forall e :: At(s, path, e) <==> Locate(s, name, rootErr) == Ok(e))
              && (forall err :: Astray(s, path, err) <==> path != s.root && Locate(s, name, rootErr) == Fail(err))
  {
    hide Lookup, Shaped, ResolvePath;
  }

  // ---------- creating ----------

  /** One new node with one entry for it, and nothing else. */
  ghost predicate Grown(s: Fs, t: Fs, e: Edge, rec: Rec) {
    && t.root == s.root && t.next == s.next + 1 && t.g.Keys == s.g.Keys + {s.next} && s.next !in s.g
    && e.dir in s.g && t.g[s.next] == rec
    && t.g[e.dir] == s.g[e.dir].(kids := s.g[e.dir].kids[e.name := s.next])
    && forall j :: j in s.g && j != e.dir ==> t.g[j] == s.g[j]
  }

  /** The name is free and rec is made there, or nothing changes and the first thing wrong is the error. */
  ghost predicate Makes(s: Fs, name: Raw, o: Outcome<()>, rootErr: Err, rec: Rec)
    requires Built(s)
  {
    match ResolvePath(s.root, s.root, name)
    case None => Refused(s, o, Permission)
    case Some(path) =>
      && (path == s.root ==> Refused(s, o, rootErr))
      && (forall err :: Astray(s, path, err) ==> Refused(s, o, err))
      && (forall e :: At(s, path, e) ==>
            if e.name in s.g[e.dir].kids then Refused(s, o, Exist) else o.res == Ok(()) && Grown(s, o.fs, e, rec))
  }

  /** Mkdir, Mkfifo and Symlink. */
  lemma MakeOutcome(s: Fs, name: Raw, target: Raw)
    requires Built(s)
    ensures Makes(s, name, Mkdir(s, name), Exist, Rec(Directory, 1, map[], NO_TARGET, []))
    ensures Makes(s, name, Mkfifo(s, name), Exist, Rec(Fifo, 1, map[], NO_TARGET, []))
    ensures Makes(s, name, MakeSymlink(s, target, name), Permission, Rec(Symlink, 1, map[], target, []))
  {
    hide Lookup, Shaped, ResolvePath, Locate, Grown, Makes, AddNode;
    Makes1(s, name, Directory, NO_TARGET, Exist);
    Makes1(s, name, Fifo, NO_TARGET, Exist);
    Makes1(s, name, Symlink, target, Permission);
  }

  lemma Makes1(s: Fs, name: Raw, kind: Kind, target: Raw, rootErr: Err)
    requires Built(s)
    ensures Makes(s, name, Make(s, name, kind, target, rootErr), rootErr, Rec(kind, 1, map[], target, []))
  {
    hide Lookup, Shaped, ResolvePath, Locate, Grown, AddNode, At, Astray;
    LocateOutcome(s, name, rootErr);
    if Locate(s, name, rootErr).Ok? {
      var e := Locate(s, name, rootErr).value;
      if !Taken(s.g, e) { Grows(s, e, NewRec(kind, target)); }
    }
  }

  lemma Grows(s: Fs, e: Edge, rec: Rec)
    requires Built(s) && IsDir(s.g, e.dir)
    ensures Grown(s, Fs(s.root, AddNode(s.g, e.dir, e.name, s.next, rec), s.next + 1), e, rec)
  { }

  /** One more entry for a node there is, counted. */
  ghost predicate Linked(s: Fs, t: Fs, e: Edge, i: nat) {
    && t.root == s.root && t.next == s.next && t.g.Keys == s.g.Keys && e.dir in s.g && i in s.g && e.dir != i
    && t.g[e.dir] == s.g[e.dir].(kids := s.g[e.dir].kids[e.name := i])
    && t.g[i] == s.g[i].(nlink := s.g[i].nlink + 1)
    && forall j :: j in s.g && j != e.dir && j != i ==> t.g[j] == s.g[j]
  }

  /** Link: what is wrong with the old name comes before what is wrong with the new one, save a root. */
  lemma LinkOutcome(s: Fs, oldname: Raw, newname: Raw)
    requires Built(s)
    ensures var o := Link(s, oldname, newname);
            var a, b := ResolvePath(s.root, s.root, oldname), ResolvePath(s.root, s.root, newname);
            && (a == None || b == None || b == Some(s.root) ==> Refused(s, o, Permission))
            && (a.Some? && b.Some? && b.value != s.root ==>
                match Lookup(s.root, s.g, a.value, true, 0)
                case Fail(err) => Refused(s, o, err)
                case Ok(f) =>
                  && (IsDir(s.g, f.node) ==> Refused(s, o, Permission))
                  && (!IsDir(s.g, f.node) ==>
                      && (forall err :: Astray(s, b.value, err) ==> Refused(s, o, err))
                      && (forall e :: At(s, b.value, e) ==>
                            if e.name in s.g[e.dir].kids then Refused(s, o, Exist)
                            else o.res == Ok(()) && Linked(s, o.fs, e, f.node))))
  {
    hide Lookup, Shaped, ResolvePath, Linked, AddLink, At, Astray, Place, Name;
    LocateOutcome(s, oldname, Permission);
    LocateOutcome(s, newname, Permission);
    var b := ResolvePath(s.root, s.root, newname);
    if b.Some? && b.value != s.root && Locate(s, newname, Permission).Ok? {
      var e := Locate(s, newname, Permission).value;
      forall i | i in s.g && !IsDir(s.g, i) ensures Linked(s, s.(g := AddLink(s.g, e.dir, e.name, i)), e, i) {
        Links(s, e, i);
      }
    }
  }

  lemma Links(s: Fs, e: Edge, i: nat)
    requires IsDir(s.g, e.dir) && i in s.g && !IsDir(s.g, i)
    ensures Linked(s, s.(g := AddLink(s.g, e.dir, e.name, i)), e, i)
  { }

  // ---------- removing ----------

  /** One entry less; a node other than a directory loses one link, if it has any. */
  ghost predicate Dropped(s: Fs, t: Fs, e: Edge) {
    && t.root == s.root && t.next == s.next && t.g.Keys == s.g.Keys && e.dir in s.g && e.name in s.g[e.dir].kids
    && var i := s.g[e.dir].kids[e.name];
       && i in s.g && i != e.dir
       && t.g[e.dir] == s.g[e.dir].(kids := s.g[e.dir].kids - {e.name})
       && t.g[i] == (if IsDir(s.g, i) || s.g[i].nlink == 0 then s.g[i] else s.g[i].(nlink := s.g[i].nlink - 1))
       && forall j :: j in s.g && j != e.dir && j != i ==> t.g[j] == s.g[j]
  }

  lemma RemoveOutcome(s: Fs, name: Raw)
    requires Built(s)
    ensures var o := Remove(s, name);
            match ResolvePath(s.root, s.root, name)
            case None => Refused(s, o, Permission)
            case Some(path) =>
              && (path == s.root ==> Refused(s, o, Permission))
              && (forall err :: Astray(s, path, err) ==> Refused(s, o, err))
              && (forall e :: At(s, path, e) ==>
                    if e.name !in s.g[e.dir].kids then Refused(s, o, NotExist)
                    else
                      var i := s.g[e.dir].kids[e.name];
                      && i in s.g
                      && if s.g[i].kids != map[] then IsDir(s.g, i) && Refused(s, o, NotEmpty)
                         else o.res == Ok(()) && Dropped(s, o.fs, e))
  {
    hide Lookup, ResolvePath, Locate, Dropped, At, Astray, Unlink, DropLink;
    LocateOutcome(s, name, Permission);
    if Locate(s, name, Permission).Ok? && Taken(s.g, Locate(s, name, Permission).value) {
      var e := Locate(s, name, Permission).value;
      assert e in Edges(s.g);
      if s.g[s.g[e.dir].kids[e.name]].kids == map[] { Drops(s, e); }
    }
  }

  lemma Drops(s: Fs, e: Edge)
    requires IsDir(s.g, e.dir) && e.name in s.g[e.dir].kids && s.g[e.dir].kids[e.name] in s.g
    requires s.g[s.g[e.dir].kids[e.name]].kids == map[]
    ensures Dropped(s, s.(g := DropLink(Unlink(s.g, e), s.g[e.dir].kids[e.name])), e)
  { }

  /** The same nodes and contents; entries may be gone. */
  ghost predicate SameNodes(s: Fs, t: Fs) {
    && t.root == s.root && t.next == s.next && t.g.Keys == s.g.Keys
    && (forall j :: j in s.g ==>
          t.g[j].kind == s.g[j].kind && t.g[j].target == s.g[j].target && t.g[j].data == s.g[j].data)
    && forall d, c :: d in t.g && c in t.g[d].kids ==> c in s.g[d].kids && t.g[d].kids[c] == s.g[d].kids[c]
  }

  /** Of a node and all below it no entry is left; every other entry is. Link counts count what is left. */
  ghost predicate Emptied(s: Fs, t: Fs, i: nat) {
    && Good(t) && SameNodes(s, t)
    && forall d, c :: d in s.g && c in s.g[d].kids ==> (c in t.g[d].kids <==> !Reaches(s.g, i, d))
  }

  /** The entry e and all below the node it names are gone, and nothing else. */
  ghost predicate Felled(s: Fs, t: Fs, e: Edge)
    requires e.dir in s.g && e.name in s.g[e.dir].kids
  {
    && Good(t) && SameNodes(s, t)
    && forall d, c :: d in s.g && c in s.g[d].kids ==>
         (c in t.g[d].kids <==> Edge(d, c) != e && !Reaches(s.g, s.g[e.dir].kids[e.name], d))
  }

  /** RemoveAll succeeds when there is nothing to remove, and fails only where the way to the name is barred. */
  lemma RemoveAllOutcome(s: Fs, name: Raw)
    requires Good(s)
    ensures var o := RemoveAll(s, name);
            match ResolvePath(s.root, s.root, name)
            case None => Refused(s, o, Permission)
            case Some(path) =>
              && (path == s.root ==> o.res == Ok(()) && Emptied(s, o.fs, ROOT))
              && (forall err :: Astray(s, path, err) ==>
                    if err == NotExist then o == Outcome(s, Ok(())) else Refused(s, o, err))
              && (forall e :: At(s, path, e) ==>
                    o.res == Ok(()) && if e.name in s.g[e.dir].kids then Felled(s, o.fs, e) else o.fs == s)
  {
    hide Lookup, ResolvePath, Locate, At, Astray, Unlink, Discarded, Emptied, Felled, Inv;
    LocateOutcome(s, name, Permission);
    RemoveAllGood(s, name);
    if Name(s, name) == Ok(s.root) { Empties(s); }
    if Locate(s, name, Permission).Ok? && Taken(s.g, Locate(s, name, Permission).value) {
      var e := Locate(s, name, Permission).value;
      assert e in Edges(s.g);
      Fells(s, e);
    }
  }

  lemma Empties(s: Fs)
    requires Good(s)
    ensures Emptied(s, s.(g := Discarded(s.g, ROOT)), ROOT)
  {
    hide Inv, Reaches, Cut, Shaped, SameNodes;
    ClearRoot(s.g);
    InvShaped(s.g);
    var r := OutOf(s.g, Subtree(s.g, ROOT));
    DiscardedRoot(s.g);
    CutSame(s, r);
    forall d, c | d in s.g && c in s.g[d].kids ensures Reaches(s.g, ROOT, d) <==> Edge(d, c) in r {
      InTree(s.g, ROOT, d, c);
    }
    CutIsGood(s, r);
  }

  lemma DiscardedRoot(g: Graph)
    requires Shaped(g)
    ensures ROOT in g && Discarded(g, ROOT) == Cut(g, OutOf(g, Subtree(g, ROOT)))
  { }

  /** An entry is one of those below i when its directory is. */
  lemma InTree(g: Graph, i: nat, d: nat, c: string)
    requires Shaped(g) && d in g && c in g[d].kids
    ensures Edge(d, c) in Edges(g) && (Reaches(g, i, d) <==> Edge(d, c) in OutOf(g, Subtree(g, i)))
  {
    hide Reaches;
    KidsDir(g, d, c);
  }

  lemma Fells(s: Fs, e: Edge)
    requires Good(s) && e in Edges(s.g)
    ensures Target(s.g, e) in Unlink(s.g, e)
    ensures Felled(s, s.(g := Discarded(Unlink(s.g, e), Target(s.g, e))), e)
  {
    hide Inv, Reaches, Unlink, Discarded, Cut, Shaped, SameNodes, Subtree, OutOf;
    DiscardIsCutTree(s.g, e);
    CutTreeInv(s.g, e);
    InvShaped(s.g);
    var r := TreeEdges(s.g, e);
    CutSame(s, r);
    forall d, c | d in s.g && c in s.g[d].kids
      ensures Edge(d, c) == e || Reaches(s.g, Target(s.g, e), d) <==> Edge(d, c) in r
    {
      InTree(s.g, Target(s.g, e), d, c);
    }
    CutIsGood(s, r);
  }

  lemma CutIsGood(s: Fs, r: set<Edge>)
    requires Good(s) && Inv(Cut(s.g, r))
    ensures Good(s.(g := Cut(s.g, r)))
  {
    hide Inv;
    InvShaped(Cut(s.g, r));
  }

  lemma InvShaped(g: Graph)
    requires Inv(g)
    ensures Shaped(g)
  { }

  lemma KidsDir(g: Graph, d: nat, c: string)
    requires Shaped(g) && d in g && c in g[d].kids
    ensures IsDir(g, d)
  { }

  lemma CutSame(s: Fs, r: set<Edge>)
    requires Shaped(s.g)
    ensures SameNodes(s, s.(g := Cut(s.g, r)))
    ensures forall d, c :: d in s.g && c in s.g[d].kids ==> (c in Cut(s.g, r)[d].kids <==> Edge(d, c) !in r)
  {
    hide Into;
    var h := Cut(s.g, r);
    forall d, c | d in s.g && c in s.g[d].kids ensures c in h[d].kids <==> Edge(d, c) !in r {
      KidsDir(s.g, d, c);
    }
    forall d, c | d in h && c in h[d].kids ensures c in s.g[d].kids && h[d].kids[c] == s.g[d].kids[c] {
      if !IsDir(s.g, d) { assert h[d].kids == s.g[d].kids; }
    }
  }

  // ---------- renaming ----------

  /** The entries a directory has once dst names i and src is gone. */
  ghost function KidsAfter(g: Graph, d: nat, src: Edge, dst: Edge, i: nat): map<string, nat>
    requires d in g
  {
    var kept := map c | c in g[d].kids && Edge(d, c) != src :: g[d].kids[c];
    if d == dst.dir then kept[dst.name := i] else kept
  }

  /** Node d after the rename: src gone, dst for the node moved, and a file dst named before has one link less. */
  ghost predicate ShiftedAt(g: Graph, h: Graph, src: Edge, dst: Edge, d: nat)
    requires src.dir in g && src.name in g[src.dir].kids && dst.dir in g && d in g && d in h
  {
    && h[d].kind == g[d].kind && h[d].target == g[d].target && h[d].data == g[d].data
    && h[d].kids == KidsAfter(g, d, src, dst, g[src.dir].kids[src.name])
    && h[d].nlink == if dst.name in g[dst.dir].kids && g[dst.dir].kids[dst.name] == d && !IsDir(g, d) && g[d].nlink > 0
                     then g[d].nlink - 1 else g[d].nlink
  }

  ghost predicate Shifted(s: Fs, t: Fs, src: Edge, dst: Edge) {
    && t.root == s.root && t.next == s.next && t.g.Keys == s.g.Keys
    && src.dir in s.g && src.name in s.g[src.dir].kids && dst.dir in s.g
    && forall d :: d in s.g ==> ShiftedAt(s.g, t.g, src, dst, d)
  }

  /** Rename: what is wrong with the old name comes first; a directory that is not empty is never replaced. */
  lemma RenameOutcome(s: Fs, oldname: Raw, newname: Raw)
    requires Built(s)
    ensures var o := Rename(s, oldname, newname);
            var a, b := ResolvePath(s.root, s.root, oldname), ResolvePath(s.root, s.root, newname);
            && (a == None || b == None || a == Some(s.root) ==> Refused(s, o, Permission))
            && (a.Some? && b.Some? ==>
                && (forall err :: Astray(s, a.value, err) ==> Refused(s, o, err))
                && (forall src :: At(s, a.value, src) ==>
                      if src.name !in s.g[src.dir].kids then Refused(s, o, NotExist)
                      else
                        && (b.value == s.root ==> Refused(s, o, Permission))
                        && (forall err :: Astray(s, b.value, err) ==> Refused(s, o, err))
                        && (forall dst :: At(s, b.value, dst) ==>
                              if Full(s.g, dst) then Refused(s, o, NotEmpty)
                              else o.res == Ok(()) && Shifted(s, o.fs, src, dst))))
  {
    hide Lookup, ResolvePath, Locate, Shifted, At, Astray, Renamed, Name;
    LocateOutcome(s, oldname, Permission);
    LocateOutcome(s, newname, Permission);
    var a, b := Locate(s, oldname, Permission), Locate(s, newname, Permission);
    if a.Ok? && Taken(s.g, a.value) && b.Ok? {
      assert Taken(s.g, b.value) ==> b.value in Edges(s.g);
      Shifts(s, a.value, b.value);
    }
  }

  /** The place holds a node that has entries of its own. */
  ghost predicate Full(g: Graph, e: Edge)
    requires e.dir in g
  {
    e.name in g[e.dir].kids && g[e.dir].kids[e.name] in g && g[g[e.dir].kids[e.name]].kids != map[]
  }

  lemma Shifts(s: Fs, src: Edge, dst: Edge)
    requires IsDir(s.g, src.dir) && src.name in s.g[src.dir].kids && IsDir(s.g, dst.dir)
    requires dst.name in s.g[dst.dir].kids ==> s.g[dst.dir].kids[dst.name] in s.g
    ensures Shifted(s, s.(g := Renamed(s.g, src, dst)), src, dst)
  {
    hide Renamed, ShiftedAt;
    RenamedKeys(s.g, src, dst);
    forall d | d in s.g ensures ShiftedAt(s.g, Renamed(s.g, src, dst), src, dst, d) {
      ShiftsAt(s.g, src, dst, d);
    }
  }

  lemma RenamedKeys(g: Graph, src: Edge, dst: Edge)
    requires IsDir(g, src.dir) && src.name in g[src.dir].kids && IsDir(g, dst.dir)
    requires dst.name in g[dst.dir].kids ==> g[dst.dir].kids[dst.name] in g
    ensures Renamed(g, src, dst).Keys == g.Keys
  {
    hide Vacate;
    DropKeeps(g, dst);
  }

  lemma ShiftsAt(g: Graph, src: Edge, dst: Edge, d: nat)
    requires IsDir(g, src.dir) && src.name in g[src.dir].kids && IsDir(g, dst.dir) && d in g
    requires dst.name in g[dst.dir].kids ==> g[dst.dir].kids[dst.name] in g
    ensures d in Renamed(g, src, dst) && ShiftedAt(g, Renamed(g, src, dst), src, dst, d)
  {
    hide Vacate;
    DropKeeps(g, dst);
  }

  lemma DropKeeps(g: Graph, dst: Edge)
    requires IsDir(g, dst.dir) && (dst.name in g[dst.dir].kids ==> g[dst.dir].kids[dst.name] in g)
    ensures var v := Vacate(g, dst);
            && v.Keys == g.Keys
            && forall d :: d in g ==>
                 && v[d].kind == g[d].kind && v[d].target == g[d].target && v[d].data == g[d].data
                 && v[d].kids == (if d == dst.dir then g[d].kids - {dst.name} else g[d].kids)
                 && v[d].nlink == if dst.name in g[dst.dir].kids && g[dst.dir].kids[dst.name] == d && !IsDir(g, d)
                                     && g[d].nlink > 0 then g[d].nlink - 1 else g[d].nlink
  {
    if dst.name !in g[dst.dir].kids { assert g[dst.dir].kids - {dst.name} == g[dst.dir].kids; }
  }
}

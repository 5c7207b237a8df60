/** Rename on the node graph, and exactly when it keeps the filesystem invariant. */
module MemRename {
  import opened Basics
  import opened Paths
  import opened MemGraph
  import opened MemCut

  /** delete(dir.children, name) */
  function Unlink(g: Graph, e: Edge): Graph
    requires e.dir in g
  {
    g[e.dir := g[e.dir].(kids := g[e.dir].kids - {e.name})]
  }

  /** The non-recursive discard: a directory is left alone, any other node loses one link. */
  function DropLink(g: Graph, i: nat): Graph
    requires i in g
  {
    if g[i].kind.Directory? then g else g[i := g[i].(nlink := Less(g[i].nlink, 1))]
  }

  /** dir.children[name] = node */
  function PutEntry(g: Graph, e: Edge, i: nat): Graph
    requires e.dir in g
  {
    g[e.dir := g[e.dir].(kids := g[e.dir].kids[e.name := i])]
  }

  lemma AddNodeIsPut(g: Graph, d: nat, base: string, i: nat, rec: Rec)
    requires d in g && i !in g
    ensures PutEntry(g[i := rec], Edge(d, base), i) == AddNode(g, d, base, i, rec)
  { }

  /** node.nlink++ */
  function CountLink(g: Graph, i: nat): Graph
    requires i in g
  {
    g[i := g[i].(nlink := g[i].nlink + 1)]
  }

  lemma AddLinkIsPut(g: Graph, d: nat, base: string, i: nat)
    requires d in g && i in g && i != d
    ensures i in PutEntry(g, Edge(d, base), i)
    ensures AddLink(g, d, base, i) == CountLink(PutEntry(g, Edge(d, base), i), i)
  { }

  /** The replaced entry, if any, is removed first. */
  function Vacate(g: Graph, dst: Edge): Graph
    requires IsDir(g, dst.dir) && (dst.name in g[dst.dir].kids ==> g[dst.dir].kids[dst.name] in g)
  {
    if dst.name in g[dst.dir].kids then DropLink(Unlink(g, dst), g[dst.dir].kids[dst.name]) else g
  }

  function Renamed(g: Graph, src: Edge, dst: Edge): Graph
    requires IsDir(g, src.dir) && src.name in g[src.dir].kids
    requires IsDir(g, dst.dir) && (dst.name in g[dst.dir].kids ==> g[dst.dir].kids[dst.name] in g)
  {
    PutEntry(Unlink(Vacate(g, dst), src), dst, g[src.dir].kids[src.name])
  }

  lemma UnlinkIsCutDir(g: Graph, e: Edge, i: nat)
    requires e in Edges(g) && Target(g, e) in g && IsDir(g, e.dir) && IsDir(g, i)
    ensures DropLink(Unlink(g, e), Target(g, e))[i] == Cut(g, {e})[i]
  {
    hide Edges, Into, Less;
    assert DropLink(Unlink(g, e), Target(g, e))[i].kids == Cut(g, {e})[i].kids;
  }

  lemma UnlinkIsCutFile(g: Graph, e: Edge, i: nat)
    requires e in Edges(g) && Target(g, e) in g && IsDir(g, e.dir) && i in g && !IsDir(g, i)
    ensures DropLink(Unlink(g, e), Target(g, e))[i] == Cut(g, {e})[i]
  {
    assert Into(g, i) * {e} == if i == Target(g, e) then {e} else {};
  }

  lemma UnlinkIsCutAt(g: Graph, e: Edge, i: nat)
    requires Shaped(g) && e in Edges(g) && i in g
    ensures DropLink(Unlink(g, e), Target(g, e))[i] == Cut(g, {e})[i]
  {
    if IsDir(g, i) { UnlinkIsCutDir(g, e, i); } else { UnlinkIsCutFile(g, e, i); }
  }

  lemma UnlinkIsCut(g: Graph, e: Edge)
    requires Shaped(g) && e in Edges(g)
    ensures DropLink(Unlink(g, e), Target(g, e)) == Cut(g, {e})
  {
    var h := DropLink(Unlink(g, e), Target(g, e));
    assert h.Keys == g.Keys;
    forall i | i in g ensures DropLink(Unlink(g, e), Target(g, e))[i] == Cut(g, {e})[i] {
      UnlinkIsCutAt(g, e, i);
    }
  }

  lemma VacateInv(g: Graph, dst: Edge)
    requires Inv(g) && IsDir(g, dst.dir)
    requires dst in Edges(g) ==> g[Target(g, dst)].kids == map[]
    ensures Vacate(g, dst) == if dst in Edges(g) then Cut(g, {dst}) else g
    ensures Inv(Vacate(g, dst)) && Edges(Vacate(g, dst)) == Edges(g) - {dst}
  {
    if dst in Edges(g) {
      UnlinkIsCut(g, dst);
      CutEdges(g, {dst});
      CutLeafInv(g, dst);
    }
  }

  // ---------- moving an entry to a free name ----------

  function Move(g: Graph, src: Edge, dst: Edge): Graph
    requires IsDir(g, src.dir) && src.name in g[src.dir].kids && IsDir(g, dst.dir)
  {
    PutEntry(Unlink(g, src), dst, g[src.dir].kids[src.name])
  }

  ghost predicate CanMove(g: Graph, src: Edge, dst: Edge) {
    src in Edges(g) && IsDir(g, src.dir) && dst !in Edges(g) && IsDir(g, dst.dir) && ProperName(dst.name)
  }

  lemma MoveKinds(g: Graph, src: Edge, dst: Edge)
    requires CanMove(g, src, dst)
    ensures var h := Move(g, src, dst);
            && h.Keys == g.Keys
            && (forall i :: i in g ==> h[i].kind == g[i].kind && h[i].nlink == g[i].nlink)
            && dst.name in h[dst.dir].kids && h[dst.dir].kids[dst.name] == Target(g, src)
  { }

  lemma MoveKids(g: Graph, src: Edge, dst: Edge)
    requires CanMove(g, src, dst)
    ensures var h := Move(g, src, dst);
            && (forall i, s :: i in h && s in h[i].kids ==>
                Edge(i, s) == dst || (i in g && s in g[i].kids && Edge(i, s) != src))
            && (forall i, s :: i in g && s in g[i].kids && Edge(i, s) != src ==>
                  i in h && s in h[i].kids && h[i].kids[s] == g[i].kids[s])
  { }

  lemma MoveEdges(g: Graph, src: Edge, dst: Edge)
    requires Shaped(g) && CanMove(g, src, dst)
    ensures var h := Move(g, src, dst);
            && Edges(h) == Edges(g) - {src} + {dst}
            && Target(h, dst) == Target(g, src)
            && forall e :: e in Edges(g) - {src} ==> Target(h, e) == Target(g, e)
  {
    MoveKinds(g, src, dst);
    MoveKids(g, src, dst);
    var h := Move(g, src, dst);
    forall e | e in Edges(g) - {src} ensures e in Edges(h) && Target(h, e) == Target(g, e) {
      assert e == Edge(e.dir, e.name);
    }
  }

  lemma MoveInto(g: Graph, src: Edge, dst: Edge)
    requires Shaped(g) && CanMove(g, src, dst)
    ensures var h, n := Move(g, src, dst), Target(g, src);
            && (forall i :: i != n ==> Into(h, i) == Into(g, i))
            && Into(h, n) == Into(g, n) - {src} + {dst}
  {
    MoveEdges(g, src, dst);
  }

  lemma MoveShaped(g: Graph, src: Edge, dst: Edge)
    requires Shaped(g) && CanMove(g, src, dst)
    ensures Shaped(Move(g, src, dst))
  {
    MoveEdges(g, src, dst);
    MoveKinds(g, src, dst);
    MoveKids(g, src, dst);
    var h := Move(g, src, dst);
    forall i | i in h && !h[i].kind.Directory? ensures h[i].kids == map[] {
      assert i != src.dir && i != dst.dir;
    }
  }

  lemma MoveLinks(g: Graph, src: Edge, dst: Edge)
    requires Shaped(g) && LinksCounted(g) && CanMove(g, src, dst)
    ensures LinksCounted(Move(g, src, dst))
  {
    MoveInto(g, src, dst);
    MoveKinds(g, src, dst);
    hide Move, Shaped;
    assert src in Into(g, Target(g, src)) && dst !in Into(g, Target(g, src));
    assert |Into(g, Target(g, src)) - {src}| == |Into(g, Target(g, src))| - 1;
  }

  lemma MoveOneEntry(g: Graph, src: Edge, dst: Edge)
    requires Shaped(g) && OneEntry(g) && CanMove(g, src, dst)
    ensures OneEntry(Move(g, src, dst))
  {
    MoveEdges(g, src, dst);
    MoveKinds(g, src, dst);
    MoveKids(g, src, dst);
    MoveInto(g, src, dst);
    var h := Move(g, src, dst);
    forall a, b | a in Edges(h) && b in Edges(h) && Target(h, a) == Target(h, b) && IsDir(h, Target(h, a))
      ensures a == b
    {
      if a == dst || b == dst {
        var n := Target(g, src);
        forall e | e in Into(g, n) ensures e == src { assert Target(g, e) == Target(g, src); }
        assert Into(h, n) == {dst};
        assert a in Into(h, n) && b in Into(h, n);
      }
    }
  }

  /** Directories outside the moved one keep their path. */
  lemma {:induction false} MoveOutside(g: Graph, src: Edge, dst: Edge, p: Path)
    requires Inv(g) && CanMove(g, src, dst) && Walk(g, ROOT, p).Some?
    requires var j := Walk(g, ROOT, p).value; IsDir(g, j) && j !in Subtree(g, Target(g, src))
    ensures Walk(Move(g, src, dst), ROOT, p) == Walk(g, ROOT, p)
    decreases |p|
  {
    if p != [] {
      hide Inv, Move, Subtree, Walk;
      var d := WalkLast(g, ROOT, p);
      var f := Edge(d, p[|p| - 1]);
      OutsideParent(g, Target(g, src), f);
      MoveOutside(g, src, dst, p[..|p| - 1]);
      MoveStep(g, src, dst, p[..|p| - 1], f);
      Snoc(p);
    }
  }

  lemma MoveStep(g: Graph, src: Edge, dst: Edge, p: Path, f: Edge)
    requires Shaped(g) && CanMove(g, src, dst) && f in Edges(g) && f != src && IsDir(g, f.dir)
    requires Walk(Move(g, src, dst), ROOT, p) == Some(f.dir)
    ensures Walk(Move(g, src, dst), ROOT, p + [f.name]) == Some(Target(g, f))
  {
    MoveKinds(g, src, dst);
    MoveKids(g, src, dst);
    WalkAppend(Move(g, src, dst), ROOT, p, [f.name]);
  }

  /** Directories inside the moved one keep their path below it. */
  lemma {:induction false} MoveInside(g: Graph, src: Edge, dst: Edge, n: nat, p: Path)
    requires Inv(g) && CanMove(g, src, dst) && Walk(g, n, p).Some?
    requires n in Subtree(g, Target(g, src)) && IsDir(g, Walk(g, n, p).value)
    ensures Walk(Move(g, src, dst), n, p) == Walk(g, n, p)
    decreases |p|
  {
    if p != [] {
      var f := Edge(n, p[0]);
      NoCycle(g, src);
      MoveKinds(g, src, dst);
      MoveKids(g, src, dst);
      assert f in Edges(g);
      assert IsDir(g, Target(g, f)) by {
        if p[1..] == [] { assert Walk(g, Target(g, f), p[1..]) == Some(Target(g, f)); }
      }
      SubtreeChild(g, Target(g, src), f);
      MoveInside(g, src, dst, Target(g, f), p[1..]);
    }
  }

  lemma MovedPath(g: Graph, src: Edge, dst: Edge) returns (p: Path)
    requires Inv(g) && CanMove(g, src, dst) && Reaches(g, ROOT, dst.dir)
    requires dst.dir !in Subtree(g, Target(g, src))
    ensures Walk(Move(g, src, dst), ROOT, p) == Some(Target(g, src))
  {
    p :| Walk(g, ROOT, p) == Some(dst.dir);
    MoveOutside(g, src, dst, p);
    MoveKinds(g, src, dst);
    WalkAppend(Move(g, src, dst), ROOT, p, [dst.name]);
    p := p + [dst.name];
  }

  lemma MoveLiveInside(g: Graph, src: Edge, dst: Edge, j: nat)
    requires Inv(g) && CanMove(g, src, dst) && Reaches(g, ROOT, dst.dir)
    requires dst.dir !in Subtree(g, Target(g, src)) && j in Subtree(g, Target(g, src))
    ensures Reaches(Move(g, src, dst), ROOT, j)
  {
    var n := Target(g, src);
    var p := MovedPath(g, src, dst);
    var q: Path :| Walk(g, n, q) == Some(j);
    assert n in Subtree(g, n) by {
      assert Walk(g, n, []) == Some(n);
    }
    MoveInside(g, src, dst, n, q);
    WalkAppend(Move(g, src, dst), ROOT, p, q);
  }

  lemma MoveLiveOutside(g: Graph, src: Edge, dst: Edge, j: nat)
    requires Inv(g) && CanMove(g, src, dst) && Reaches(g, ROOT, dst.dir)
    requires IsDir(g, j) && j !in Subtree(g, Target(g, src))
    ensures j in Move(g, src, dst)
    ensures Reaches(Move(g, src, dst), ROOT, j) || Detached(Move(g, src, dst), j)
  {
    MoveKinds(g, src, dst);
    MoveKids(g, src, dst);
    if Reaches(g, ROOT, j) {
      var p: Path :| Walk(g, ROOT, p) == Some(j);
      MoveOutside(g, src, dst, p);
    } else {
      MoveInto(g, src, dst);
      assert Walk(g, Target(g, src), []) == Some(Target(g, src));
      assert Into(Move(g, src, dst), j) == {};
      forall s | s in Move(g, src, dst)[j].kids ensures false { }
    }
  }

  lemma MoveLive(g: Graph, src: Edge, dst: Edge)
    requires Inv(g) && CanMove(g, src, dst) && Reaches(g, ROOT, dst.dir)
    requires dst.dir !in Subtree(g, Target(g, src))
    ensures Live(Move(g, src, dst))
  {
    var h := Move(g, src, dst);
    MoveKinds(g, src, dst);
    MoveKids(g, src, dst);
    forall j | IsDir(h, j) ensures Reaches(h, ROOT, j) || Detached(h, j) {
      if j in Subtree(g, Target(g, src)) {
        MoveLiveInside(g, src, dst, j);
      } else {
        MoveLiveOutside(g, src, dst, j);
      }
    }
  }

  lemma MoveInv(g: Graph, src: Edge, dst: Edge)
    requires Inv(g) && CanMove(g, src, dst) && Reaches(g, ROOT, dst.dir)
    requires dst.dir !in Subtree(g, Target(g, src))
    ensures Inv(Move(g, src, dst))
  {
    MoveShaped(g, src, dst);
    MoveLinks(g, src, dst);
    MoveOneEntry(g, src, dst);
    MoveLive(g, src, dst);
    MoveInto(g, src, dst);
    assert Target(g, src) != ROOT;
  }

  // ---------- exactly when rename keeps the invariant ----------

  /** A file renamed onto its own entry, or a directory moved into itself or below itself. */
  ghost predicate BadRename(g: Graph, src: Edge, dst: Edge)
    requires src in Edges(g)
  {
    var n := Target(g, src);
    (src == dst && !IsDir(g, n)) || (IsDir(g, n) && dst.dir in Subtree(g, n))
  }

  ghost predicate RenameAllowed(g: Graph, src: Edge, dst: Edge)
    requires Shaped(g)
  {
    && src in Edges(g)
    && IsDir(g, dst.dir) && Reaches(g, ROOT, dst.dir) && ProperName(dst.name)
    && (dst in Edges(g) ==> g[Target(g, dst)].kids == map[])
  }

  /** After a directory is moved below itself no walk from the root gets into it any more. */
  lemma {:induction false} LostSubtree(g: Graph, src: Edge, dst: Edge, p: Path)
    requires Inv(g) && CanMove(g, src, dst) && dst.dir in Subtree(g, Target(g, src))
    requires Walk(Move(g, src, dst), ROOT, p).Some?
    ensures Walk(Move(g, src, dst), ROOT, p).value !in Subtree(g, Target(g, src))
    decreases |p|
  {
    var h, n := Move(g, src, dst), Target(g, src);
    if p == [] {
      RootOutside(g, src);
    } else {
      var d := WalkLast(h, ROOT, p);
      var f := Edge(d, p[|p| - 1]);
      LostSubtree(g, src, dst, p[..|p| - 1]);
      MoveEdges(g, src, dst);
      assert f in Edges(g) && f != src && Target(g, f) == Target(h, f);
      if Target(g, f) in Subtree(g, n) {
        SubtreeParent(g, n, f);
      }
    }
  }

  lemma SelfMoveBreaks(g: Graph, src: Edge, dst: Edge)
    requires Inv(g) && CanMove(g, src, dst) && dst.dir in Subtree(g, Target(g, src))
    ensures !Inv(Move(g, src, dst))
  {
    var h, n := Move(g, src, dst), Target(g, src);
    assert IsDir(g, n) && n in Subtree(g, n) by {
      var q: Path :| Walk(g, n, q) == Some(dst.dir);
      assert Walk(g, n, []) == Some(n);
    }
    if Reaches(h, ROOT, n) {
      var p: Path :| Walk(h, ROOT, p) == Some(n);
      LostSubtree(g, src, dst, p);
    }
    MoveInto(g, src, dst);
    MoveKinds(g, src, dst);
    assert dst in Into(h, n);
    assert !Detached(h, n);
  }

  lemma {:induction false} VacateKeepsWalk(g: Graph, dst: Edge, n: nat, p: Path)
    requires Inv(g) && dst in Edges(g) && Walk(g, n, p) == Some(dst.dir)
    ensures Walk(Cut(g, {dst}), n, p) == Some(dst.dir)
    decreases |p|
  {
    if p != [] {
      assert Walk(g, g[n].kids[p[0]], p[1..]) == Some(dst.dir);
      NoCycle(g, dst);
      assert Edge(n, p[0]) != dst;
      VacateKeepsWalk(g, dst, g[n].kids[p[0]], p[1..]);
    }
  }

  lemma VacateSubtree(g: Graph, dst: Edge, n: nat)
    requires Inv(g) && IsDir(g, dst.dir) && (dst in Edges(g) ==> g[Target(g, dst)].kids == map[])
    ensures Reaches(Vacate(g, dst), n, dst.dir) <==> Reaches(g, n, dst.dir)
    ensures dst.dir in Subtree(Vacate(g, dst), n) <==> dst.dir in Subtree(g, n)
  {
    VacateInv(g, dst);
    if dst in Edges(g) {
      if Reaches(g, n, dst.dir) {
        var p: Path :| Walk(g, n, p) == Some(dst.dir);
        VacateKeepsWalk(g, dst, n, p);
      }
      if Reaches(Cut(g, {dst}), n, dst.dir) {
        var p: Path :| Walk(Cut(g, {dst}), n, p) == Some(dst.dir);
        CutWalk(g, {dst}, n, p);
      }
    }
  }

  lemma RenameOntoSelfGraph(g: Graph, src: Edge)
    requires src in Edges(g) && IsDir(g, src.dir) && Target(g, src) in g && Target(g, src) != src.dir
    ensures Renamed(g, src, src) == DropLink(g, Target(g, src))
  {
    var v := Vacate(g, src);
    assert v[src.dir].kids == g[src.dir].kids - {src.name};
    assert Renamed(g, src, src)[src.dir].kids == g[src.dir].kids;
  }

  lemma RenameOntoSelf(g: Graph, src: Edge)
    requires Inv(g) && RenameAllowed(g, src, src)
    ensures Inv(Renamed(g, src, src)) <==> IsDir(g, Target(g, src))
  {
    var h, n := DropLink(g, Target(g, src)), Target(g, src);
    assert Walk(g, n, []) == Some(n);
    NoCycle(g, src);
    RenameOntoSelfGraph(g, src);
    if !IsDir(g, n) {
      assert src in Into(g, n);
      assert Edges(h) == Edges(g) && Into(h, n) == Into(g, n);
    }
  }

  /** Rename keeps the invariant except in the two bad cases, where it always breaks it. */
  lemma RenameInvIff(g: Graph, src: Edge, dst: Edge)
    requires Inv(g) && RenameAllowed(g, src, dst)
    ensures Inv(Renamed(g, src, dst)) <==> !BadRename(g, src, dst)
  {
    var n := Target(g, src);
    if src == dst {
      NoCycle(g, src);
      RenameOntoSelf(g, src);
    } else {
      var v := Vacate(g, dst);
      VacateInv(g, dst);
      if dst in Edges(g) { CutEdges(g, {dst}); }
      VacateSubtree(g, dst, ROOT);
      VacateSubtree(g, dst, n);
      assert CanMove(v, src, dst) && Target(v, src) == n;
      if dst.dir in Subtree(v, n) {
        SelfMoveBreaks(v, src, dst);
      } else {
        MoveInv(v, src, dst);
      }
    }
  }
}

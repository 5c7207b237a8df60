/** Removing entries: delete, discard and recursive delete on the node graph. */
module MemCut {
  import opened Basics
  import opened Paths
  import opened MemGraph

  function Less(n: nat, k: nat): nat {
    if k <= n then n - k else 0
  }

  function Without(kids: map<string, nat>, gone: set<string>): map<string, nat> {
    kids - gone
  }

  /** Deletes the entries in r and drops the link counts of the files they named, never below zero. */
  ghost function Cut(g: Graph, r: set<Edge>): Graph {
    map i | i in g ::
      if g[i].kind.Directory? then g[i].(kids := map s | s in g[i].kids && Edge(i, s) !in r :: g[i].kids[s])
      else g[i].(nlink := Less(g[i].nlink, |Into(g, i) * r|))
  }

  /** The directories found by walking from n, n included. */
  ghost function Subtree(g: Graph, n: nat): set<nat> {
    set d | d in g && IsDir(g, d) && Reaches(g, n, d)
  }

  ghost function OutOf(g: Graph, s: set<nat>): set<Edge> {
    set e | e in Edges(g) && e.dir in s
  }

  lemma CutEdges(g: Graph, r: set<Edge>)
    requires Shaped(g)
    ensures Edges(Cut(g, r)) == Edges(g) - r
    ensures forall e :: e in Edges(g) - r ==> Target(Cut(g, r), e) == Target(g, e)
    ensures forall i :: Into(Cut(g, r), i) == Into(g, i) - r
    ensures Shaped(Cut(g, r))
  {
    var h := Cut(g, r);
    forall e | e in Edges(g) - r ensures e in Edges(h) && Target(h, e) == Target(g, e) {
      assert e == Edge(e.dir, e.name);
    }
  }

  lemma {:induction false} CutWalk(g: Graph, r: set<Edge>, from: nat, p: Path)
    requires Shaped(g) && Walk(Cut(g, r), from, p).Some?
    ensures Walk(g, from, p) == Walk(Cut(g, r), from, p)
    decreases |p|
  {
    if p != [] {
      CutWalk(g, r, g[from].kids[p[0]], p[1..]);
    }
  }

  lemma SplitCount<T>(i: set<T>, r: set<T>, q: set<T>)
    requires r !! q
    ensures (i - r) * q == i * q
    ensures |i * (r + q)| == |i * r| + |i * q|
  {
    assert i * (r + q) == i * r + i * q;
    assert (i * r) !! (i * q);
  }

  lemma CutComposeLinks(g: Graph, r: set<Edge>, q: set<Edge>, i: nat)
    requires Shaped(g) && r <= Edges(g) && q <= Edges(g) - r && i in g && !IsDir(g, i)
    ensures Less(Less(g[i].nlink, |Into(g, i) * r|), |Into(Cut(g, r), i) * q|)
              == Less(g[i].nlink, |Into(g, i) * (r + q)|)
  {
    CutEdges(g, r);
    assert r !! q;
    SplitCount(Into(g, i), r, q);
  }

  lemma CutComposeAt(g: Graph, r: set<Edge>, q: set<Edge>, i: nat)
    requires Shaped(g) && r <= Edges(g) && q <= Edges(g) - r && i in g
    ensures Cut(Cut(g, r), q)[i] == Cut(g, r + q)[i]
  {
    if IsDir(g, i) {
      assert Cut(Cut(g, r), q)[i].kids == Cut(g, r + q)[i].kids;
    } else {
      CutComposeLinks(g, r, q, i);
    }
  }

  lemma CutCompose(g: Graph, r: set<Edge>, q: set<Edge>)
    requires Shaped(g) && r <= Edges(g) && q <= Edges(g) - r
    ensures Cut(Cut(g, r), q) == Cut(g, r + q)
  {
    forall i | i in g ensures Cut(Cut(g, r), q)[i] == Cut(g, r + q)[i] {
      CutComposeAt(g, r, q, i);
    }
  }

  lemma SubtreeCut(g: Graph, r: set<Edge>, n: nat)
    requires Shaped(g)
    ensures Subtree(Cut(g, r), n) <= Subtree(g, n)
  {
    forall d | d in Subtree(Cut(g, r), n) ensures d in Subtree(g, n) {
      var p: Path :| Walk(Cut(g, r), n, p) == Some(d);
      CutWalk(g, r, n, p);
    }
  }

  /** The directory holding an entry into the subtree of n, other than n's own, is itself in the subtree. */
  lemma SubtreeParent(g: Graph, n: nat, e: Edge)
    requires Inv(g) && e in Edges(g) && Target(g, e) in Subtree(g, n)
    ensures e.dir in Subtree(g, n) || Target(g, e) == n
  {
    var j := Target(g, e);
    var p: Path :| Walk(g, n, p) == Some(j);
    if p != [] {
      var d := WalkLast(g, n, p);
      assert Edge(d, p[|p| - 1]) == e;
    }
  }

  lemma SubtreeChild(g: Graph, n: nat, e: Edge)
    requires e in Edges(g) && e.dir in Subtree(g, n) && IsDir(g, Target(g, e))
    ensures Target(g, e) in Subtree(g, n)
  {
    var p: Path :| Walk(g, n, p) == Some(e.dir);
    WalkAppend(g, n, p, [e.name]);
    assert Walk(g, n, p + [e.name]) == Some(Target(g, e));
  }

  /** No directory lies inside a directory it contains. */
  lemma NoCycle(g: Graph, e: Edge)
    requires Inv(g) && e in Edges(g)
    ensures e.dir !in Subtree(g, Target(g, e))
  {
    var c := Target(g, e);
    if e.dir in Subtree(g, c) {
      var q: Path :| Walk(g, c, q) == Some(e.dir);
      assert !Detached(g, e.dir);
      var p: Path :| Walk(g, ROOT, p) == Some(e.dir);
      WalkAppend(g, ROOT, p, [e.name]);
      WalkAppend(g, ROOT, p + [e.name], q);
      UniquePath(g, p, p + [e.name] + q);
    }
  }

  lemma RootOutside(g: Graph, e: Edge)
    requires Inv(g) && e in Edges(g)
    ensures ROOT !in Subtree(g, Target(g, e))
  {
    var c := Target(g, e);
    if ROOT in Subtree(g, c) {
      var q: Path :| Walk(g, c, q) == Some(ROOT);
      assert e in Into(g, c);
      if q != [] { var d := WalkLast(g, c, q); }
    }
  }

  // ---------- deleting an entry with everything below it ----------

  ghost function TreeEdges(g: Graph, e: Edge): set<Edge>
    requires e in Edges(g)
  {
    {e} + OutOf(g, Subtree(g, Target(g, e)))
  }

  lemma OutsideParent(g: Graph, n: nat, f: Edge)
    requires f in Edges(g) && IsDir(g, f.dir) && IsDir(g, Target(g, f)) && Target(g, f) !in Subtree(g, n)
    ensures f.dir !in Subtree(g, n) && Target(g, f) != n
  {
    if f.dir in Subtree(g, n) { SubtreeChild(g, n, f); }
    assert Walk(g, n, []) == Some(n);
  }

  lemma CutStep(g: Graph, r: set<Edge>, p: Path, f: Edge)
    requires f in Edges(g) && f !in r && IsDir(g, f.dir) && Walk(Cut(g, r), ROOT, p) == Some(f.dir)
    ensures Walk(Cut(g, r), ROOT, p + [f.name]) == Some(Target(g, f))
  {
    WalkAppend(Cut(g, r), ROOT, p, [f.name]);
  }

  lemma {:induction false} OutsideReach(g: Graph, e: Edge, r: set<Edge>, p: Path)
    requires Inv(g) && e in Edges(g) && Walk(g, ROOT, p).Some? && r <= TreeEdges(g, e)
    requires var j := Walk(g, ROOT, p).value; IsDir(g, j) && j !in Subtree(g, Target(g, e))
    ensures Walk(Cut(g, r), ROOT, p) == Walk(g, ROOT, p)
    decreases |p|
  {
    if p != [] {
      hide Inv, Cut, Subtree, Walk;
      var d := WalkLast(g, ROOT, p);
      var f := Edge(d, p[|p| - 1]);
      OutsideParent(g, Target(g, e), f);
      OutsideReach(g, e, r, p[..|p| - 1]);
      CutStep(g, r, p[..|p| - 1], f);
      Snoc(p);
    }
  }

  lemma InsideDetached(g: Graph, e: Edge, j: nat)
    requires Inv(g) && e in Edges(g) && j in Subtree(g, Target(g, e))
    ensures Detached(Cut(g, TreeEdges(g, e)), j)
  {
    var r := TreeEdges(g, e);
    CutEdges(g, r);
    forall f | f in Into(g, j) ensures f in r {
      SubtreeParent(g, Target(g, e), f);
      assert f.dir in Subtree(g, Target(g, e)) || f == e;
    }
    forall s | s in g[j].kids ensures Edge(j, s) in r {
      assert Edge(j, s) in Edges(g);
    }
  }

  lemma CutLinks(g: Graph, r: set<Edge>)
    requires Shaped(g) && LinksCounted(g)
    ensures LinksCounted(Cut(g, r))
  {
    CutEdges(g, r);
    forall i | i in g && !IsDir(g, i) ensures Cut(g, r)[i].nlink == |Into(Cut(g, r), i)| {
      assert Into(g, i) - r == Into(g, i) - (Into(g, i) * r);
    }
  }

  lemma CutOneEntry(g: Graph, r: set<Edge>)
    requires Shaped(g) && OneEntry(g)
    ensures OneEntry(Cut(g, r))
  {
    CutEdges(g, r);
  }

  lemma CutTreeLive(g: Graph, e: Edge)
    requires Inv(g) && e in Edges(g)
    ensures Live(Cut(g, TreeEdges(g, e)))
  {
    var h := Cut(g, TreeEdges(g, e));
    forall j | IsDir(h, j) ensures Reaches(h, ROOT, j) || Detached(h, j) {
      if j in Subtree(g, Target(g, e)) {
        InsideDetached(g, e, j);
      } else if Reaches(g, ROOT, j) {
        var p: Path :| Walk(g, ROOT, p) == Some(j);
        OutsideReach(g, e, TreeEdges(g, e), p);
      } else {
        CutEdges(g, TreeEdges(g, e));
      }
    }
  }

  /** Recursive delete keeps the invariant. */
  lemma CutTreeInv(g: Graph, e: Edge)
    requires Inv(g) && e in Edges(g)
    ensures Inv(Cut(g, TreeEdges(g, e)))
  {
    var r := TreeEdges(g, e);
    CutEdges(g, r);
    CutLinks(g, r);
    CutOneEntry(g, r);
    CutTreeLive(g, e);
  }

  lemma LeafSubtree(g: Graph, c: nat)
    requires c in g && g[c].kids == map[]
    ensures OutOf(g, Subtree(g, c)) == {}
  {
    forall p: Path | Walk(g, c, p).Some? ensures p == [] { }
    assert forall d :: d in Subtree(g, c) ==> d == c;
  }

  /** Deleting one entry keeps the invariant when it names a file or an empty directory. */
  lemma CutLeafInv(g: Graph, e: Edge)
    requires Inv(g) && e in Edges(g) && g[Target(g, e)].kids == map[]
    ensures Inv(Cut(g, {e}))
  {
    LeafSubtree(g, Target(g, e));
    assert TreeEdges(g, e) == {e};
    CutTreeInv(g, e);
  }
}

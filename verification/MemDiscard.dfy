/** The recursive discard, one entry at a time, removes exactly the entries below a directory: cycles included. */
module MemDiscard {
  import opened Basics
  import opened Paths
  import opened MemGraph
  import opened MemCut
  import opened MemRename
  import opened MemOps

  /** Every directory an entry of r leads to, n aside, has lost all its own entries. */
  ghost predicate ClosedCut(g: Graph, r: set<Edge>, n: nat) {
    forall e, f :: e in r && e in Edges(g) && f in Edges(g) && Target(g, e) == f.dir && f.dir != n ==> f in r
  }

  ghost predicate Partial(g: Graph, r: set<Edge>, n: nat) {
    Shaped(g) && IsDir(g, n) && r <= OutOf(g, Subtree(g, n)) && ClosedCut(g, r, n)
  }

  /** The entries gone after entry e of the remaining graph is deleted and its node discarded. */
  ghost function Gone(g: Graph, r: set<Edge>, e: Edge): set<Edge>
    requires e in Edges(Cut(g, r))
  {
    var h := Cut(Cut(g, r), {e});
    r + {e} + OutOf(h, Subtree(h, Target(Cut(g, r), e)))
  }

  lemma GoneGraph(g: Graph, r: set<Edge>, e: Edge)
    requires Shaped(g) && r <= Edges(g) && e in Edges(Cut(g, r))
    ensures var c := Target(Cut(g, r), e);
            c in Unlink(Cut(g, r), e) && Cut(g, Gone(g, r, e)) == Discarded(Unlink(Cut(g, r), e), c)
    ensures Gone(g, r, e) <= Edges(g)
  {
    var gi := Cut(g, r);
    var h, c := Cut(gi, {e}), Target(gi, e);
    CutEdges(g, r);
    CutEdges(gi, {e});
    UnlinkIsCut(gi, e);
    var q := OutOf(h, Subtree(h, c));
    CutCompose(gi, {e}, q);
    assert {e} + q <= Edges(g) - r;
    CutCompose(g, r, {e} + q);
    assert r + ({e} + q) == Gone(g, r, e);
    if !IsDir(gi, c) { LeafSubtree(h, c); CutNothing(h); }
  }

  lemma CutNothing(g: Graph)
    requires Shaped(g)
    ensures Cut(g, {}) == g
  {
    forall i | i in g ensures Cut(g, {})[i] == g[i] {
      if IsDir(g, i) { assert Cut(g, {})[i].kids == g[i].kids; } else { assert Into(g, i) * {} == {}; }
    }
  }

  lemma BelowEntry(g: Graph, n: nat, e: Edge, d: nat)
    requires Shaped(g) && IsDir(g, n) && e in Edges(g) && e.dir == n && d in Subtree(g, Target(g, e))
    ensures d in Subtree(g, n)
  {
    var p: Path :| Walk(g, Target(g, e), p) == Some(d);
    assert Walk(g, n, [e.name] + p) == Some(d) by {
      assert ([e.name] + p)[1..] == p;
    }
  }

  lemma GoneInside(g: Graph, r: set<Edge>, n: nat, e: Edge)
    requires Partial(g, r, n) && e in Edges(Cut(g, r)) && e.dir == n
    ensures Gone(g, r, e) <= OutOf(g, Subtree(g, n))
  {
    var gi := Cut(g, r);
    var h, c := Cut(gi, {e}), Target(gi, e);
    CutEdges(g, r);
    CutEdges(gi, {e});
    assert Walk(g, n, []) == Some(n);
    forall f | f in OutOf(h, Subtree(h, c)) ensures f in OutOf(g, Subtree(g, n)) {
      SubtreeCut(gi, {e}, c);
      SubtreeCut(g, r, c);
      BelowEntry(g, n, e, f.dir);
    }
  }

  lemma GoneClosed(g: Graph, r: set<Edge>, n: nat, e: Edge)
    requires Partial(g, r, n) && e in Edges(Cut(g, r)) && e.dir == n
    ensures ClosedCut(g, Gone(g, r, e), n)
  {
    var gi := Cut(g, r);
    var h, c := Cut(gi, {e}), Target(gi, e);
    CutEdges(g, r);
    CutEdges(gi, {e});
    var r' := Gone(g, r, e);
    forall a, b | a in r' && a in Edges(g) && b in Edges(g) && Target(g, a) == b.dir && b.dir != n ensures b in r' {
      if b !in r {
        assert b in Edges(h);
        assert b.dir in Subtree(h, c) by { GoneBelow(h, c, n, a, b, r, e); }
      }
    }
  }

  lemma GoneBelow(h: Graph, c: nat, n: nat, a: Edge, b: Edge, r: set<Edge>, e: Edge)
    requires Shaped(h) && b in Edges(h)
    requires (a == e && c == b.dir) || (a in OutOf(h, Subtree(h, c)) && Target(h, a) == b.dir)
    ensures b.dir in Subtree(h, c)
  {
    if a == e && c == b.dir {
      assert Walk(h, c, []) == Some(c);
    } else {
      SubtreeChild(h, c, a);
    }
  }

  lemma GonePartial(g: Graph, r: set<Edge>, n: nat, e: Edge)
    requires Partial(g, r, n) && e in Edges(Cut(g, r)) && e.dir == n
    ensures Partial(g, Gone(g, r, e), n)
  {
    GoneInside(g, r, n, e);
    GoneClosed(g, r, n, e);
  }

  lemma {:induction false} AllGone(g: Graph, r: set<Edge>, n: nat, p: Path, f: Edge)
    requires Partial(g, r, n) && (forall e :: e in Edges(g) && e.dir == n ==> e in r)
    requires f in Edges(g) && Walk(g, n, p) == Some(f.dir)
    ensures f in r
    decreases |p|
  {
    if f.dir != n {
      var d := WalkLast(g, n, p);
      AllGone(g, r, n, p[..|p| - 1], Edge(d, p[|p| - 1]));
    }
  }

  /** When n itself is empty everything below it is gone. */
  lemma PartialDone(g: Graph, r: set<Edge>, n: nat)
    requires Partial(g, r, n) && Cut(g, r)[n].kids == map[]
    ensures r == OutOf(g, Subtree(g, n)) && Cut(g, r) == Discarded(g, n)
  {
    CutEdges(g, r);
    assert forall e :: e in Edges(Cut(g, r)) ==> e.dir != n;
    forall f | f in OutOf(g, Subtree(g, n)) ensures f in r {
      var p: Path :| Walk(g, n, p) == Some(f.dir);
      AllGone(g, r, n, p, f);
    }
  }

  lemma UnlinkEdges(g: Graph, e: Edge)
    requires e in Edges(g)
    ensures Edges(Unlink(g, e)) == Edges(g) - {e} && |Edges(Unlink(g, e))| < |Edges(g)|
  {
    assert |Edges(g) - {e}| == |Edges(g)| - 1;
  }

  /** One round of the discard loop. */
  lemma GoneRound(g: Graph, r: set<Edge>, n: nat, e: Edge)
    requires Partial(g, r, n) && e in Edges(Cut(g, r)) && e.dir == n
    ensures var gi, r' := Cut(g, r), Gone(g, r, e);
            && Target(gi, e) in Unlink(gi, e) && Cut(g, r') == Discarded(Unlink(gi, e), Target(gi, e))
            && Partial(g, r', n) && |Edges(Cut(g, r'))| < |Edges(gi)|
  {
    GoneGraph(g, r, e);
    GonePartial(g, r, n, e);
    CutEdges(g, r);
    CutEdges(g, Gone(g, r, e));
    assert Edges(Cut(g, Gone(g, r, e))) <= Edges(Cut(g, r)) - {e};
    Fewer(Edges(Cut(g, Gone(g, r, e))), Edges(Cut(g, r)), e);
  }

  lemma {:induction false} Smaller<T>(a: set<T>, b: set<T>)
    requires a <= b
    ensures |a| <= |b|
  {
    if a != {} {
      var x :| x in a;
      Smaller(a - {x}, b - {x});
    }
  }

  lemma Fewer<T>(a: set<T>, b: set<T>, x: T)
    requires x in b && a <= b - {x}
    ensures |a| < |b|
  {
    Smaller(a, b - {x});
  }
}

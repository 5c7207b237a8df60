/** The node graph of the in-memory filesystem as a value, its invariant, and the edits the operations make. */
module MemGraph {
  import opened Basics
  import opened Paths

  newtype byte = x: int | 0 <= x < 256

  datatype Kind = Regular | Directory | Symlink | Fifo

  /** A node without its identity; directory entries name inode numbers. */
  datatype Rec = Rec(kind: Kind, nlink: nat, kids: map<string, nat>, target: Raw, data: seq<byte>)

  type Graph = map<nat, Rec>

  /** One directory entry: the directory's inode number and the entry's name. */
  datatype Edge = Edge(dir: nat, name: string)

  /** New numbers inodes from 1 and makes the root directory first. */
  const ROOT: nat := 1

  ghost function Edges(g: Graph): set<Edge> {
    set d, s | d in g && s in g[d].kids :: Edge(d, s)
  }

  ghost function Target(g: Graph, e: Edge): nat
    requires e in Edges(g)
  {
    g[e.dir].kids[e.name]
  }

  /** The directory entries naming node i. */
  ghost function Into(g: Graph, i: nat): set<Edge> {
    set e | e in Edges(g) && Target(g, e) == i
  }

  predicate IsDir(g: Graph, i: nat) {
    i in g && g[i].kind.Directory?
  }

  /** What holds of any node graph the operations build, bad renames included. */
  ghost predicate Shaped(g: Graph) {
    && IsDir(g, ROOT)
    && (forall i :: i in g && !g[i].kind.Directory? ==> g[i].kids == map[])
    && (forall e :: e in Edges(g) ==> Target(g, e) in g && ProperName(e.name))
  }

  /** Follows directory entries only. */
  function Walk(g: Graph, from: nat, names: Path): Option<nat>
    decreases |names|
  {
    if names == [] then Some(from)
    else if IsDir(g, from) && names[0] in g[from].kids then Walk(g, g[from].kids[names[0]], names[1..])
    else None
  }

  ghost predicate Reaches(g: Graph, from: nat, i: nat) {
    exists p: Path :: Walk(g, from, p) == Some(i)
  }

  /** A removed directory: nothing in it, no entry names it. */
  ghost predicate Detached(g: Graph, i: nat)
    requires i in g
  {
    g[i].kids == map[] && Into(g, i) == {}
  }

  ghost predicate OneEntry(g: Graph) {
    forall e, f :: e in Edges(g) && f in Edges(g) && Target(g, e) == Target(g, f) && IsDir(g, Target(g, e)) ==> e == f
  }

  ghost predicate Live(g: Graph) {
    forall i :: IsDir(g, i) ==> Reaches(g, ROOT, i) || Detached(g, i)
  }

  ghost predicate LinksCounted(g: Graph) {
    forall i :: i in g && !IsDir(g, i) ==> g[i].nlink == |Into(g, i)|
  }

  /**
   * The filesystem invariant: directories form a tree under the root (removed ones are empty and unnamed)
   * and the link count of every other node is the number of entries naming it.
   */
  ghost predicate Inv(g: Graph) {
    && Shaped(g)
    && Into(g, ROOT) == {}
    && OneEntry(g)
    && Live(g)
    && LinksCounted(g)
  }

  // ---------- walking ----------

  lemma {:induction false} WalkAppend(g: Graph, from: nat, p: Path, q: Path)
    ensures Walk(g, from, p + q) == match Walk(g, from, p) case Some(i) => Walk(g, i, q) case None => None
    decreases |p|
  {
    if p == [] {
      assert p + q == q;
    } else if IsDir(g, from) && p[0] in g[from].kids {
      assert (p + q)[1..] == p[1..] + q;
      WalkAppend(g, g[from].kids[p[0]], p[1..], q);
    }
  }

  lemma {:induction false} WalkStays(g: Graph, from: nat, p: Path)
    requires Shaped(g) && from in g && Walk(g, from, p).Some?
    ensures Walk(g, from, p).value in g && Proper(p)
    decreases |p|
  {
    if p != [] {
      assert Edge(from, p[0]) in Edges(g);
      WalkStays(g, g[from].kids[p[0]], p[1..]);
    }
  }

  /** The last step of a non-empty walk is a directory entry. */
  lemma WalkLast(g: Graph, from: nat, p: Path) returns (d: nat)
    requires p != [] && Walk(g, from, p).Some?
    ensures Walk(g, from, p[..|p| - 1]) == Some(d) && IsDir(g, d) && p[|p| - 1] in g[d].kids
    ensures Walk(g, from, p).value == g[d].kids[p[|p| - 1]]
    ensures Edge(d, p[|p| - 1]) in Into(g, Walk(g, from, p).value)
  {
    var a, b := p[..|p| - 1], [p[|p| - 1]];
    assert p == a + b;
    WalkAppend(g, from, a, b);
    d := Walk(g, from, a).value;
    assert Edge(d, b[0]) in Edges(g);
  }

  /** Directories form a tree: a directory has one path from the root. */
  lemma {:induction false} UniquePath(g: Graph, p: Path, q: Path)
    requires Inv(g)
    requires Walk(g, ROOT, p).Some? && Walk(g, ROOT, p) == Walk(g, ROOT, q)
    requires IsDir(g, Walk(g, ROOT, p).value)
    ensures p == q
    decreases |p|
  {
    var i := Walk(g, ROOT, p).value;
    if p == [] {
      if q != [] { var d := WalkLast(g, ROOT, q); }
    } else {
      var d := WalkLast(g, ROOT, p);
      if q != [] {
        var e := WalkLast(g, ROOT, q);
        assert Edge(d, p[|p| - 1]) == Edge(e, q[|q| - 1]);
        UniquePath(g, p[..|p| - 1], q[..|q| - 1]);
        assert p == p[..|p| - 1] + [p[|p| - 1]];
        assert q == q[..|q| - 1] + [q[|q| - 1]];
      }
    }
  }

  // ---------- adding entries ----------

  /** h has every entry of g, with the same target; only new entries are added. */
  ghost predicate Extends(g: Graph, h: Graph) {
    && (forall i :: i in g ==> i in h && h[i].kind == g[i].kind && h[i].target == g[i].target)
    && (forall i, s :: i in g && s in g[i].kids ==> s in h[i].kids && h[i].kids[s] == g[i].kids[s])
  }

  lemma {:induction false} WalkExtends(g: Graph, h: Graph, from: nat, p: Path)
    requires Extends(g, h) && Walk(g, from, p).Some?
    ensures Walk(h, from, p) == Walk(g, from, p)
    decreases |p|
  {
    if p != [] {
      WalkExtends(g, h, g[from].kids[p[0]], p[1..]);
    }
  }

  /** parent.children[base] = new node. */
  function AddNode(g: Graph, d: nat, base: string, i: nat, rec: Rec): Graph
    requires d in g
  {
    g[i := rec][d := g[d].(kids := g[d].kids[base := i])]
  }

  /** h is g with one more entry e; entries keep their targets and nodes their kinds. */
  ghost predicate OneMore(g: Graph, h: Graph, e: Edge) {
    && Extends(g, h)
    && e in Edges(h) && e !in Edges(g)
    && (forall i, s :: i in h && s in h[i].kids && Edge(i, s) != e ==> i in g && s in g[i].kids)
  }

  lemma OneMoreEdges(g: Graph, h: Graph, e: Edge)
    requires OneMore(g, h, e)
    ensures Edges(h) == Edges(g) + {e}
    ensures forall f :: f in Edges(g) ==> Target(h, f) == Target(g, f)
    ensures forall i :: Into(h, i) == if i == Target(h, e) then Into(g, i) + {e} else Into(g, i)
  {
    forall f | f in Edges(g) ensures f in Edges(h) && Target(h, f) == Target(g, f) {
      assert f == Edge(f.dir, f.name);
    }
  }

  lemma OneMoreOneEntry(g: Graph, h: Graph, e: Edge)
    requires OneMore(g, h, e) && OneEntry(g) && Shaped(g)
    requires IsDir(h, Target(h, e)) ==> Into(g, Target(h, e)) == {}
    ensures OneEntry(h)
  {
    OneMoreEdges(g, h, e);
    forall a, b | a in Edges(h) && b in Edges(h) && Target(h, a) == Target(h, b) && IsDir(h, Target(h, a))
      ensures a == b
    {
      assert a in Into(h, Target(h, a)) && b in Into(h, Target(h, a));
      if a != e && b != e {
        assert a in Edges(g) && Target(g, a) in g;
      }
    }
  }

  lemma OneMoreLive(g: Graph, h: Graph, e: Edge)
    requires OneMore(g, h, e) && Live(g) && Reaches(g, ROOT, e.dir)
    requires forall i :: IsDir(h, i) ==> i == Target(h, e) || IsDir(g, i)
    requires IsDir(h, e.dir)
    ensures Live(h)
  {
    OneMoreEdges(g, h, e);
    forall j | IsDir(h, j) ensures Reaches(h, ROOT, j) || Detached(h, j) {
      if j == Target(h, e) {
        var p: Path :| Walk(g, ROOT, p) == Some(e.dir);
        WalkExtends(g, h, ROOT, p);
        WalkAppend(h, ROOT, p, [e.name]);
        assert Walk(h, ROOT, p + [e.name]) == Some(j);
      } else if Reaches(g, ROOT, j) {
        var p: Path :| Walk(g, ROOT, p) == Some(j);
        WalkExtends(g, h, ROOT, p);
      } else {
        assert e.dir != j;
      }
    }
  }

  lemma OneMoreShaped(g: Graph, h: Graph, e: Edge)
    requires OneMore(g, h, e) && Shaped(g) && ProperName(e.name) && Target(h, e) in h
    requires forall i :: i in h && !IsDir(h, i) ==> h[i].kids == map[]
    ensures Shaped(h)
  {
    OneMoreEdges(g, h, e);
  }

  lemma OneMoreLinks(g: Graph, h: Graph, e: Edge)
    requires OneMore(g, h, e) && LinksCounted(g)
    requires forall i :: i in h && i != Target(h, e) ==> i in g && h[i].nlink == g[i].nlink
    requires var t := Target(h, e);
             t in h ==> if t in g then h[t].nlink == g[t].nlink + 1 else h[t].nlink == 1 && Into(g, t) == {}
    ensures LinksCounted(h)
  {
    OneMoreEdges(g, h, e);
    forall i | i in h && !IsDir(h, i) ensures h[i].nlink == |Into(h, i)| {
      assert e !in Into(g, i);
    }
  }

  lemma AddNodeOneMore(g: Graph, d: nat, base: string, i: nat, rec: Rec)
    requires d in g && base !in g[d].kids && i !in g && rec.kids == map[]
    ensures OneMore(g, AddNode(g, d, base, i, rec), Edge(d, base))
  { }

  lemma AddNodeInv(g: Graph, d: nat, base: string, i: nat, rec: Rec)
    requires Inv(g) && IsDir(g, d) && Reaches(g, ROOT, d) && base !in g[d].kids && ProperName(base)
    requires i !in g && rec.kids == map[] && rec.nlink == 1
    ensures Inv(AddNode(g, d, base, i, rec)) && Extends(g, AddNode(g, d, base, i, rec))
  {
    var h, e := AddNode(g, d, base, i, rec), Edge(d, base);
    AddNodeOneMore(g, d, base, i, rec);
    OneMoreEdges(g, h, e);
    assert Into(g, i) == {};
    OneMoreShaped(g, h, e);
    OneMoreOneEntry(g, h, e);
    OneMoreLive(g, h, e);
    OneMoreLinks(g, h, e);
  }

  /** parent.children[base] = node; node.nlink++. */
  function AddLink(g: Graph, d: nat, base: string, i: nat): Graph
    requires d in g && i in g && i != d
  {
    g[d := g[d].(kids := g[d].kids[base := i])][i := g[i].(nlink := g[i].nlink + 1)]
  }

  lemma AddLinkOneMore(g: Graph, d: nat, base: string, i: nat)
    requires d in g && i in g && i != d && base !in g[d].kids
    ensures var h := AddLink(g, d, base, i);
            && OneMore(g, h, Edge(d, base)) && Target(h, Edge(d, base)) == i && h.Keys == g.Keys
            && h[i].nlink == g[i].nlink + 1 && (forall j :: j in g && j != i ==> h[j].nlink == g[j].nlink)
            && forall j :: j in g && j != d ==> h[j].kids == g[j].kids
  { }

  lemma AddLinkInv(g: Graph, d: nat, base: string, i: nat)
    requires Inv(g) && IsDir(g, d) && Reaches(g, ROOT, d) && base !in g[d].kids && ProperName(base)
    requires i in g && !IsDir(g, i)
    ensures Inv(AddLink(g, d, base, i)) && Extends(g, AddLink(g, d, base, i))
  {
    var h, e := AddLink(g, d, base, i), Edge(d, base);
    AddLinkOneMore(g, d, base, i);
    OneMoreEdges(g, h, e);
    OneMoreShaped(g, h, e);
    OneMoreOneEntry(g, h, e);
    OneMoreLive(g, h, e);
    OneMoreLinks(g, h, e);
  }
}

/** The filesystem object: nodes are heap objects updated in place; every method is proved against MemOps. */
module MemFs {
  import opened Basics
  import opened Paths
  import opened MemGraph
  import opened MemCut
  import opened MemRename
  import opened MemDiscard
  import opened MemLookup
  import opened MemOps
  import opened MemFiles
  import opened MemRuns

  class Node {
    const kind: Kind
    const ino: nat
    var nlink: nat
    var data: seq<byte>
    var target: Raw
    var children: map<string, Node>

    constructor (kind: Kind, ino: nat)
      ensures this.kind == kind && this.ino == ino
      ensures nlink == 1 && data == [] && target == NO_TARGET && children == map[]
    {
      this.kind, this.ino := kind, ino;
      nlink, data, target, children := 1, [], NO_TARGET, map[];
    }

    function Record(): Rec
      reads this
    {
      Rec(kind, nlink, Kids(children), target, data)
    }
  }

  function Kids(children: map<string, Node>): map<string, nat> {
    map s | s in children :: children[s].ino
  }

  lemma KidsPut(children: map<string, Node>, base: string, n: Node)
    ensures Kids(children[base := n]) == Kids(children)[base := n.ino]
  { }

  lemma KidsDrop(children: map<string, Node>, base: string)
    ensures Kids(children - {base}) == Kids(children) - {base}
  { }

  datatype Entry = Entry(node: Node, path: Path)
  /** What OpenFile hands out: a file object, or the FIFO node whose pipe is to be opened. */
  datatype OpenResult = FileHandle(file: RegularFile) | PipeNode(node: Node)

  datatype ParentEntry = ParentEntry(node: Node, path: Path, base: string)

  /** An open regular file: its own offset on a shared node. */
  class RegularFile {
    const fs: FS
    const node: Node
    const readable: bool
    const writable: bool
    const append: bool
    var offset: nat
    var closed: bool

    constructor (fs: FS, node: Node, h: Handle)
      ensures this.fs == fs && this.node == node && State() == h
    {
      this.fs, this.node := fs, node;
      readable, writable, append, offset, closed := h.readable, h.writable, h.append, h.offset, h.closed;
    }

    function State(): Handle
      reads this
    {
      Handle(offset, readable, writable, append, closed)
    }

    method Read(n: nat) returns (r: IoResult)
      modifies this
      ensures (State(), r) == ReadFile(old(State()), node.data, n)
    {
      if closed {
        return IoErr(Closed);
      }
      if !readable {
        return IoErr(BadFD);
      }
      if offset >= |node.data| {
        return IoErr(EOF);
      }
      var count := if |node.data| - offset < n then |node.data| - offset else n;
      r := Bytes(node.data[offset..offset + count]);
      offset := offset + count;
    }

    method Write(p: seq<byte>) returns (r: IoResult)
      requires fs.Valid() && fs.Has(node)
      modifies this, node`data
      ensures (State(), node.data, r) == WriteFileAt(old(State()), old(node.data), p)
      ensures fs.Valid() && fs.nodes == old(fs.nodes) && fs.nextIno == old(fs.nextIno)
      ensures node.ino in old(fs.Graph()) && fs.Graph() == SetData(old(fs.Graph()), node.ino, node.data)
    {
      hide FS.Valid, Kids, SetData, FS.Graph, WriteAt;
      fs.SameData(node);
      if closed {
        return IoErr(Closed);
      }
      if !writable {
        return IoErr(BadFD);
      }
      if append {
        offset := |node.data|;
      }
      CopyIn(p);
      offset := offset + |p|;
      r := Count(|p|);
    }

    /** Grow the node's bytes to hold the write, then copy the bytes in at the offset. */
    method CopyIn(p: seq<byte>)
      requires fs.Valid() && fs.Has(node)
      modifies node`data
      ensures node.data == WriteAt(old(node.data), offset, p)
      ensures fs.Valid() && fs.nodes == old(fs.nodes)
      ensures node.ino in old(fs.Graph()) && fs.Graph() == SetData(old(fs.Graph()), node.ino, node.data)
    {
      var end := offset + |p|;
      var grown := node.data;
      if end > |node.data| {
        grown := node.data + Zeros(end - |node.data|);
      }
      fs.StoreData(node, grown[..offset] + p + grown[end..]);
    }

    method Close()
      modifies this
      ensures State() == old(State()).(closed := true)
    {
      closed := true;
    }
  }

  class FS {
    const root: Path
    const rootNode: Node
    var nextIno: nat
    ghost var nodes: map<nat, Node>  // every node ever made, by inode number

    ghost predicate Has(n: Node)
      reads this`nodes
    {
      n.ino in nodes && nodes[n.ino] == n
    }

    ghost predicate Valid()
      reads this, nodes.Values
    {
      && Proper(root)
      && Has(rootNode) && rootNode.ino == ROOT && rootNode.kind.Directory?
      && (forall i :: i in nodes ==> nodes[i].ino == i && i < nextIno)
      && (forall i :: i in nodes ==> NodeOk(nodes[i]))
    }

    ghost predicate NodeOk(n: Node)
      reads this`nodes, n
    {
      && (!n.kind.Directory? ==> n.children == map[])
      && (forall s :: s in n.children ==> Has(n.children[s]) && ProperName(s))
    }

    ghost function Graph(): Graph
      reads this`nodes, nodes.Values
    {
      map i | i in nodes :: nodes[i].Record()
    }

    ghost function View(): Fs
      reads this, nodes.Values
    {
      Fs(root, Graph(), nextIno)
    }

    lemma ViewBuilt()
      requires Valid()
      ensures Built(View())
    {
      var g := Graph();
      forall e | e in Edges(g) ensures Target(g, e) in g && ProperName(e.name) {
        ChildHas(nodes[e.dir], e.name);
      }
    }

    lemma ChildHas(n: Node, c: string)
      requires Valid() && Has(n) && c in n.children
      ensures Has(n.children[c]) && ProperName(c) && n.ino in Graph() && Graph()[n.ino] == n.Record()
    {
      assert NodeOk(nodes[n.ino]);
    }

    /** Two nodes of one filesystem with the same inode number are the same node: what SameFile relies on. */
    lemma SameInodeSameNode(m: Node, n: Node)
      requires Valid() && m in nodes.Values && n in nodes.Values
      ensures m.ino == n.ino <==> m == n
    { }

    constructor (root: Path)
      requires Proper(root)
      ensures Valid() && this.root == root && View() == New(root)
      ensures fresh(nodes.Values)
    {
      this.root := root;
      var n := new Node(Directory, ROOT);
      rootNode := n;
      nextIno := ROOT + 1;
      nodes := map[ROOT := n];
      new;
      assert Graph()[ROOT] == NewRec(Directory, NO_TARGET);
    }

    ghost predicate Agrees(r: Res<Entry>, l: Res<Found>)
      reads this
    {
      if r.Fail? then l == Fail(r.err)
      else Has(r.value.node) && l == Ok(Found(r.value.node.ino, r.value.path))
    }

    ghost function Looked(path: Path, follow: bool, depth: nat): Res<Found>
      requires Valid() && root <= path
      reads this, nodes.Values
    {
      ViewBuilt();
      Lookup(root, Graph(), path, follow, depth)
    }

    ghost function Followed(cwd: Path, target: Raw, rest: Path, follow: bool, depth: nat): Res<Found>
      requires Valid()
      reads this, nodes.Values
    {
      match LinkTarget(root, cwd, target, rest)
      case None => Fail(Permission)
      case Some(t) => Looked(t, follow, depth + 1)
    }

    /** The symlink case of the lookup loop: resolve the target, put the remaining parts below it, start over. */
    method FollowLink(currentPath: Path, link: Node, rest: Path, followFinal: bool, depth: nat) returns (r: Res<Entry>)
      requires Valid() && depth <= MAX_DEPTH
      ensures Agrees(r, Followed(currentPath, link.target, rest, followFinal, depth))
      decreases MAX_DEPTH + 1 - depth, 0
    {
      var targetPath := ResolvePath(root, currentPath, link.target);
      if targetPath.None? {
        return Fail(Permission);
      }
      if rest != [] {
        targetPath := ResolvePath(root, targetPath.value, Raw(false, rest));
        if targetPath.None? {
          return Fail(Permission);
        }
      }
      r := LookupPathLocked(targetPath.value, followFinal, depth + 1);
    }

    /** What the lookup still has to find from part i on. */
    ghost function Rest(cur: Node, cwd: Path, parts: Path, i: nat, follow: bool, depth: nat): Res<Found>
      requires Valid() && Has(cur) && i <= |parts| && depth <= MAX_DEPTH
      reads this, nodes.Values
    {
      ViewBuilt();
      Find(root, Graph(), cur.ino, cwd, parts[i..], follow, depth)
    }

    lemma RestStart(path: Path, follow: bool, depth: nat)
      requires Valid() && root <= path
      ensures Has(rootNode)
      ensures Looked(path, follow, depth) ==
              if depth > MAX_DEPTH then Fail(TooManySymlinks)
              else if path == root then Ok(Found(rootNode.ino, root))
              else Rest(rootNode, root, path[|root|..], 0, follow, depth)
    {
      ViewBuilt();
      assert path[|root|..][0..] == path[|root|..];
      LookupStart(root, Graph(), path, follow, depth);
    }

    lemma RestRound(cur: Node, cwd: Path, parts: Path, i: nat, follow: bool, depth: nat)
      requires Valid() && Has(cur) && i <= |parts| && depth <= MAX_DEPTH
      ensures var r := Rest(cur, cwd, parts, i, follow, depth);
              if i == |parts| then r == Ok(Found(cur.ino, cwd))
              else if !cur.kind.Directory? then r == Fail(NotDirectory)
              else if parts[i] !in cur.children then r == Fail(NotExist)
              else
                var child := cur.children[parts[i]];
                && Has(child)
                && if child.kind.Symlink? && (i < |parts| - 1 || follow) then
                     r == Followed(cwd, child.target, parts[i + 1..], follow, depth)
                   else r == Rest(child, cwd + [parts[i]], parts, i + 1, follow, depth)
    {
      ViewBuilt();
      if i == |parts| {
        assert parts[i..] == [];
      } else {
        FindAt(root, Graph(), cur.ino, cwd, parts, i, follow, depth);
        if parts[i] in cur.children { ChildHas(cur, parts[i]); }
      }
    }

    method LookupPathLocked(path: Path, followFinal: bool, depth: nat) returns (r: Res<Entry>)
      requires Valid() && root <= path
      ensures Agrees(r, Looked(path, followFinal, depth))
      decreases MAX_DEPTH + 1 - depth, 1
    {
      hide Looked, Rest, Followed, Valid;
      RestStart(path, followFinal, depth);
      if depth > MAX_DEPTH {
        return Fail(TooManySymlinks);
      }
      if path == root {
        return Ok(Entry(rootNode, root));
      }
      var parts := path[|root|..];
      var current, currentPath := rootNode, root;
      var i := 0;
      while i < |parts|
        invariant 0 <= i <= |parts| && Has(current)
        invariant Looked(path, followFinal, depth) == Rest(current, currentPath, parts, i, followFinal, depth)
      {
        RestRound(current, currentPath, parts, i, followFinal, depth);
        if !current.kind.Directory? {
          return Fail(NotDirectory);
        }
        if parts[i] !in current.children {
          return Fail(NotExist);
        }
        var child := current.children[parts[i]];
        var last := i == |parts| - 1;
        if child.kind.Symlink? && (!last || followFinal) {
          r := FollowLink(currentPath, child, parts[i + 1..], followFinal, depth);
          return;
        }
        current, currentPath := child, currentPath + [parts[i]];
        i := i + 1;
      }
      RestRound(current, currentPath, parts, i, followFinal, depth);
      return Ok(Entry(current, currentPath));
    }

    /** The directory and last name of a path, the last symlink not followed. */
    ghost function ParentOf(path: Path): Res<Parent>
      requires Valid() && root <= path
      reads this, nodes.Values
    {
      ViewBuilt();
      LookupParent(root, Graph(), path)
    }

    method LookupParentLocked(path: Path) returns (r: Res<ParentEntry>)
      requires Valid() && root <= path
      ensures if r.Fail? then ParentOf(path) == Fail(r.err)
              else Has(r.value.node) && r.value.node.kind.Directory? &&
                   ParentOf(path) == Ok(Parent(r.value.node.ino, r.value.path, r.value.base))
    {
      hide Lookup;
      ViewBuilt();
      if path == root {
        return Fail(Permission);
      }
      var parent := LookupPathLocked(path[..|path| - 1], true, 0);
      if parent.Fail? {
        return Fail(parent.err);
      }
      if !parent.value.node.kind.Directory? {
        return Fail(NotDirectory);
      }
      return Ok(ParentEntry(parent.value.node, parent.value.path, path[|path| - 1]));
    }

    /** A fresh node; nothing names it yet. */
    method NewNodeLocked(kind: Kind) returns (n: Node)
      modifies this`nextIno
      ensures fresh(n) && n.kind == kind && n.ino == old(nextIno) && nextIno == old(nextIno) + 1
      ensures n.Record() == NewRec(kind, NO_TARGET) && n.children == map[]
    {
      n := new Node(kind, nextIno);
      nextIno := nextIno + 1;
    }

    // ---------- single updates ----------

    /** Only node n may have changed, and it still has only known children. */
    twostate predicate OnlyChanged(n: Node)
      reads this, nodes.Values
    {
      && old(Valid()) && n in old(nodes).Values && nodes == old(nodes) && nextIno == old(nextIno) && NodeOk(n)
      && forall i :: i in nodes && nodes[i] != n ==> unchanged(nodes[i])
    }

    twostate lemma ChangedGraph(n: Node)
      requires OnlyChanged(n)
      ensures n.ino in old(Graph()) && Graph() == old(Graph())[n.ino := n.Record()]
    {
      hide Kids;
      assert old(Has(n));
    }

    twostate lemma ChangedValid(n: Node)
      requires OnlyChanged(n)
      ensures Valid()
    {
      forall i | i in nodes ensures NodeOk(nodes[i]) {
        if nodes[i] != n { assert old(NodeOk(nodes[i])); }
      }
    }

    method DeleteChild(parent: Node, base: string)
      requires Valid() && Has(parent)
      modifies parent`children
      ensures Valid() && nodes == old(nodes)
      ensures parent.ino in old(Graph()) && Graph() == Unlink(old(Graph()), Edge(parent.ino, base))
      ensures parent.children == old(parent.children) - {base}
    {
      assert NodeOk(parent);
      KidsDrop(parent.children, base);
      parent.children := parent.children - {base};
      ChangedValid(parent);
      ChangedGraph(parent);
    }

    method PutChild(parent: Node, base: string, node: Node)
      requires Valid() && Has(parent) && Has(node) && parent.kind.Directory? && ProperName(base)
      modifies parent`children
      ensures Valid() && nodes == old(nodes)
      ensures parent.ino in old(Graph()) && Graph() == PutEntry(old(Graph()), Edge(parent.ino, base), node.ino)
      ensures parent.children == old(parent.children)[base := node]
    {
      assert NodeOk(parent);
      KidsPut(parent.children, base, node);
      parent.children := parent.children[base := node];
      ChangedValid(parent);
      ChangedGraph(parent);
    }

    method SetLinks(node: Node, n: nat)
      requires Valid() && Has(node)
      modifies node`nlink
      ensures Valid() && nodes == old(nodes)
      ensures node.ino in old(Graph()) && Graph() == old(Graph())[node.ino := old(Graph())[node.ino].(nlink := n)]
    {
      assert NodeOk(node);
      node.nlink := n;
      ChangedValid(node);
      ChangedGraph(node);
    }

    method StoreData(node: Node, data: seq<byte>)
      requires Valid() && Has(node)
      modifies node`data
      ensures node.data == data
      ensures Valid() && nodes == old(nodes)
      ensures node.ino in old(Graph()) && Graph() == SetData(old(Graph()), node.ino, data)
    {
      assert NodeOk(node);
      node.data := data;
      ChangedValid(node);
      ChangedGraph(node);
    }

    lemma SameData(node: Node)
      requires Valid() && Has(node)
      ensures node.ino in Graph() && SetData(Graph(), node.ino, node.data) == Graph()
    {
      assert Graph()[node.ino] == node.Record();
    }

    /** Takes a fresh node into the graph; nothing names it yet. */
    method Adopt(node: Node)
      requires Valid() && node.ino !in nodes && node !in nodes.Values && node.ino < nextIno && node.children == map[]
      modifies this`nodes
      ensures Valid() && nodes == old(nodes)[node.ino := node]
      ensures Graph() == old(Graph())[node.ino := node.Record()]
    {
      hide Kids, Valid;
      nodes := nodes[node.ino := node];
      AdoptedValid(node);
      assert forall i :: i in old(nodes) ==> nodes[i] == old(nodes)[i];
    }

    twostate lemma AdoptedValid(new node: Node)
      requires old(Valid()) && node.ino !in old(nodes) && node.ino < nextIno && node.children == map[]
      requires nextIno == old(nextIno) && nodes == old(nodes)[node.ino := node]
      requires forall i :: i in old(nodes) ==> unchanged(old(nodes)[i])
      ensures Valid()
    {
      forall i | i in nodes ensures NodeOk(nodes[i]) {
        if i != node.ino { assert old(NodeOk(nodes[i])); }
      }
    }

    // ---------- the operations ----------

    /** The parent directory and last name a path resolves to, as the state functions see it. */
    ghost function Placed(path: Path): Res<Edge>
      requires Valid() && root <= path
      reads this, nodes.Values
    {
      ViewBuilt();
      Place(View(), path)
    }

    method FindPlace(path: Path) returns (r: Res<ParentEntry>)
      requires Valid() && root <= path
      ensures if r.Fail? then Placed(path) == Fail(r.err)
              else Has(r.value.node) && r.value.node.kind.Directory? &&
                   Placed(path) == Ok(Edge(r.value.node.ino, r.value.base))
                       && (Proper(path) ==> ProperName(r.value.base))
    {
      r := LookupParentLocked(path);
      ViewBuilt();
      assert Placed(path) == match ParentOf(path) case Ok(p) => Ok(Edge(p.node, p.base)) case Fail(e) => Fail(e);
      if r.Ok? && Proper(path) { PlaceName(View(), path); }
    }

    /** parent.children[base] = a new node. */
    method AddChild(parent: Node, base: string, kind: Kind, target: Raw) returns (node: Node)
      requires Valid() && Has(parent) && parent.kind.Directory? && ProperName(base)
      modifies this, parent`children
      ensures Valid() && nodes == old(nodes)[old(nextIno) := node] && fresh(node) && Has(node)
                && node.ino == old(nextIno)
      ensures parent.ino in old(Graph())
      ensures View() == Fs(root, AddNode(old(Graph()), parent.ino, base, old(nextIno), NewRec(kind, target)),
                old(nextIno) + 1)
    {
      hide Kids, AddNode, PutEntry;
      node := NewNodeLocked(kind);
      node.target := target;
      assert node.Record() == NewRec(kind, target);
      assert Graph() == old(Graph()) && Valid();
      Adopt(node);
      PutChild(parent, base, node);
      AddNodeIsPut(old(Graph()), parent.ino, base, old(nextIno), NewRec(kind, target));
    }

    ghost function Made(name: Raw, kind: Kind, target: Raw, rootErr: Err): Outcome<()>
      requires Valid()
      reads this, nodes.Values
    {
      ViewBuilt();
      Make(View(), name, kind, target, rootErr)
    }

    ghost function Located(name: Raw, rootErr: Err): Res<Edge>
      requires Valid()
      reads this, nodes.Values
    {
      ViewBuilt();
      Locate(View(), name, rootErr)
    }

    method LocateName(name: Raw, rootErr: Err) returns (r: Res<ParentEntry>)
      requires Valid()
      ensures if r.Fail? then Located(name, rootErr) == Fail(r.err)
              else Has(r.value.node) && r.value.node.kind.Directory? && ProperName(r.value.base) &&
                   Located(name, rootErr) == Ok(Edge(r.value.node.ino, r.value.base))
    {
      ViewBuilt();
      var path := ResolvePath(root, root, name);
      if path.None? {
        return Fail(Permission);
      }
      if path.value == root {
        return Fail(rootErr);
      }
      NameProper(View(), name);
      r := FindPlace(path.value);
    }

    lemma MadeCases(name: Raw, kind: Kind, target: Raw, rootErr: Err)
      requires Valid()
      ensures match Located(name, rootErr)
              case Fail(e) => Made(name, kind, target, rootErr) == Outcome(View(), Fail(e))
              case Ok(e) =>
                && e.dir in Graph()
                && Made(name, kind, target, rootErr) ==
                   if e.name in Graph()[e.dir].kids then Outcome(View(), Fail(Exist))
                   else Outcome(Fs(root, AddNode(Graph(), e.dir, e.name, nextIno, NewRec(kind, target)), nextIno + 1),
                       Ok(()))
    {
      ViewBuilt();
    }

    /** Mkdir, Mkfifo and Symlink differ in the node made and in the error for the root path. */
    method MakeNode(name: Raw, kind: Kind, target: Raw, rootErr: Err) returns (r: Res<()>)
      requires Valid()
      modifies this, nodes.Values
      ensures Valid() && fresh(nodes.Values - old(nodes.Values))
      ensures Outcome(View(), r) == old(Made(name, kind, target, rootErr))
    {
      hide Made, Located, Valid, AddNode;
      MadeCases(name, kind, target, rootErr);
      var p := LocateName(name, rootErr);
      if p.Fail? {
        return Fail(p.err);
      }
      var parent, base := p.value.node, p.value.base;
      if base in parent.children {
        return Fail(Exist);
      }
      var node := AddChild(parent, base, kind, target);
      r := Ok(());
    }

    method Mkdir(name: Raw) returns (r: Res<()>)
      requires Valid()
      modifies this, nodes.Values
      ensures Valid() && fresh(nodes.Values - old(nodes.Values))
      ensures Outcome(View(), r) == old(Made(name, Directory, NO_TARGET, Exist))
    {
      r := MakeNode(name, Directory, NO_TARGET, Exist);
    }

    method Mkfifo(name: Raw) returns (r: Res<()>)
      requires Valid()
      modifies this, nodes.Values
      ensures Valid() && fresh(nodes.Values - old(nodes.Values))
      ensures Outcome(View(), r) == old(Made(name, Fifo, NO_TARGET, Exist))
    {
      r := MakeNode(name, Fifo, NO_TARGET, Exist);
    }

    method MakeSymlink(oldname: Raw, newname: Raw) returns (r: Res<()>)
      requires Valid()
      modifies this, nodes.Values
      ensures Valid() && fresh(nodes.Values - old(nodes.Values))
      ensures Outcome(View(), r) == old(Made(newname, Symlink, oldname, Permission))
    {
      r := MakeNode(newname, Symlink, oldname, Permission);
    }

    // ---------- discarding ----------

    ghost function DiscardedGraph(node: Node): Graph
      requires Valid() && Has(node)
      reads this, nodes.Values
    {
      Discarded(Graph(), node.ino)
    }

    method DropNode(node: Node)
      requires Valid() && Has(node)
      modifies node`nlink
      ensures Valid() && nodes == old(nodes)
      ensures node.ino in old(Graph()) && Graph() == DropLink(old(Graph()), node.ino)
    {
      if !node.kind.Directory? && node.nlink > 0 {
        SetLinks(node, node.nlink - 1);
      } else {
        assert Graph()[node.ino] == node.Record();
        assert Graph() == old(Graph())[node.ino := node.Record()];
      }
    }

    /** discardNodeLocked(node, true): each round deletes one entry and discards its node the same way. */
    method DiscardTree(node: Node)
      requires Valid() && Has(node)
      modifies nodes.Values
      ensures Valid() && nodes == old(nodes) && Graph() == old(DiscardedGraph(node))
      decreases |Edges(Graph())|
    {
      if !node.kind.Directory? {
        DropNode(node);
        return;
      }
      ViewBuilt();
      ghost var g, r: set<Edge>, n := Graph(), {}, node.ino;
      CutNothing(g);
      while node.children != map[]
        invariant Valid() && nodes == old(nodes) && Partial(g, r, n) && Graph() == Cut(g, r)
        decreases |Edges(Graph())|
      {
        var name :| name in node.children;
        r := DiscardOne(node, name, g, r);
      }
      PartialDone(g, r, n);
    }

    method DiscardOne(node: Node, name: string, ghost g: Graph, ghost r: set<Edge>) returns (ghost r': set<Edge>)
      requires Valid() && Has(node) && name in node.children
      requires Partial(g, r, node.ino) && Graph() == Cut(g, r)
      modifies nodes.Values
      ensures Valid() && nodes == old(nodes) && Partial(g, r', node.ino) && Graph() == Cut(g, r')
      ensures |Edges(Graph())| < |Edges(old(Graph()))|
      decreases |Edges(Graph())|, 0
    {
      hide Valid, Kids, Discarded, Cut, Edges, Partial, Gone;
      var child := node.children[name];
      ghost var e := ChildEdge(node, name);
      GoneRound(g, r, node.ino, e);
      UnlinkEdges(Graph(), e);
      DeleteChild(node, name);
      DiscardTree(child);
      r' := Gone(g, r, e);
    }

    lemma ChildEdge(node: Node, name: string) returns (e: Edge)
      requires Valid() && Has(node) && name in node.children
      ensures e == Edge(node.ino, name) && e in Edges(Graph())
      ensures Target(Graph(), e) == node.children[name].ino && Has(node.children[name]) && node in nodes.Values
    {
      e := Edge(node.ino, name);
      ChildHas(node, name);
    }

    // ---------- removing, renaming, linking ----------

    ghost function Removed(name: Raw): Outcome<()>
      requires Valid()
      reads this, nodes.Values
    {
      ViewBuilt();
      Remove(View(), name)
    }

    lemma RemovedCases(name: Raw)
      requires Valid()
      ensures match Located(name, Permission)
              case Fail(e) => Removed(name) == Outcome(View(), Fail(e))
              case Ok(e) =>
                && e.dir in Graph()
                && if e.name !in Graph()[e.dir].kids then Removed(name) == Outcome(View(), Fail(NotExist))
                   else
                     var i := Graph()[e.dir].kids[e.name];
                     && i in Graph() && i in Unlink(Graph(), e)
                     && Removed(name) == if Graph()[i].kids != map[] then Outcome(View(), Fail(NotEmpty))
                                         else Outcome(Fs(root, DropLink(Unlink(Graph(), e), i), nextIno), Ok(()))
    {
      ViewBuilt();
      var l := Located(name, Permission);
      if l.Ok? && l.value.name in Graph()[l.value.dir].kids { assert l.value in Edges(Graph()); }
    }

    lemma EmptyKids(n: Node)
      requires Valid() && Has(n)
      ensures n.ino in Graph() && (Graph()[n.ino].kids == map[] <==> n.children == map[])
      ensures Graph()[n.ino].kind == n.kind && n in nodes.Values
      ensures !n.kind.Directory? ==> n.children == map[]
    {
      assert NodeOk(n);
      assert Graph()[n.ino] == n.Record();
      if n.children != map[] {
        var c :| c in n.children;
        assert c in Kids(n.children);
      }
    }

    method RemoveName(name: Raw) returns (r: Res<()>)
      requires Valid()
      modifies nodes.Values
      ensures Valid() && nodes == old(nodes) && Outcome(View(), r) == old(Removed(name))
    {
      hide Removed, Located, Valid, Kids, DropLink, Unlink;
      RemovedCases(name);
      var p := LocateName(name, Permission);
      if p.Fail? {
        return Fail(p.err);
      }
      var parent, base := p.value.node, p.value.base;
      ParentKids(parent);
      if base !in parent.children {
        return Fail(NotExist);
      }
      ChildHas(parent, base);
      var node := parent.children[base];
      EmptyKids(node);
      if node.kind.Directory? && node.children != map[] {
        return Fail(NotEmpty);
      }
      RemoveEntry(parent, base);
      r := Ok(());
    }

    /** delete(parent.children, base) and the non-recursive discard. */
    method RemoveEntry(parent: Node, base: string)
      requires Valid() && Has(parent) && base in parent.children
      modifies nodes.Values
      ensures Valid() && nodes == old(nodes)
      ensures var e, i := Edge(parent.ino, base), old(parent.children[base].ino);
              e.dir in old(Graph()) && i in Unlink(old(Graph()), e) && Graph() == DropLink(Unlink(old(Graph()), e), i)
    {
      hide Valid, Kids;
      var child := parent.children[base];
      ghost var e := ChildEdge(parent, base);
      DeleteChild(parent, base);
      DropNode(child);
    }

    /** delete(parent.children, base) and the recursive discard. */
    method RemoveEntryTree(parent: Node, base: string)
      requires Valid() && Has(parent) && base in parent.children
      modifies nodes.Values
      ensures Valid() && nodes == old(nodes)
      ensures var e, i := Edge(parent.ino, base), old(parent.children[base].ino);
              e.dir in old(Graph()) && i in Unlink(old(Graph()), e) && Graph() == Discarded(Unlink(old(Graph()), e), i)
    {
      hide Valid, Kids, Discarded;
      var child := parent.children[base];
      ghost var e := ChildEdge(parent, base);
      DeleteChild(parent, base);
      DiscardTree(child);
    }

    lemma ParentKids(n: Node)
      requires Valid() && Has(n)
      ensures n.ino in Graph() && forall c :: c in n.children <==> c in Graph()[n.ino].kids
      ensures forall c :: c in n.children ==> Graph()[n.ino].kids[c] == n.children[c].ino
    {
      assert Graph()[n.ino] == n.Record();
    }

    ghost function RemovedAll(name: Raw): Outcome<()>
      requires Valid()
      reads this, nodes.Values
    {
      ViewBuilt();
      RemoveAll(View(), name)
    }

    lemma RemovedAllCases(name: Raw)
      requires Valid()
      ensures Has(rootNode)
      ensures ResolvePath(root, root, name) == Some(root) ==>
                RemovedAll(name) == Outcome(Fs(root, DiscardedGraph(rootNode), nextIno), Ok(()))
      ensures ResolvePath(root, root, name) != Some(root) ==>
                match Located(name, Permission)
                case Fail(e) => RemovedAll(name) == Outcome(View(), if e == NotExist then Ok(()) else Fail(e))
                case Ok(e) =>
                  && e.dir in Graph()
                  && if e.name !in Graph()[e.dir].kids then RemovedAll(name) == Outcome(View(), Ok(()))
                     else
                       var i := Graph()[e.dir].kids[e.name];
                       && i in Unlink(Graph(), e)
                       && RemovedAll(name) == Outcome(Fs(root, Discarded(Unlink(Graph(), e), i), nextIno), Ok(()))
    {
      ViewBuilt();
      var l := Located(name, Permission);
      if l.Ok? && l.value.name in Graph()[l.value.dir].kids { assert l.value in Edges(Graph()); }
    }

    method RemoveTree(name: Raw) returns (r: Res<()>)
      requires Valid()
      modifies nodes.Values
      ensures Valid() && nodes == old(nodes) && Outcome(View(), r) == old(RemovedAll(name))
    {
      hide RemovedAll, Located, Valid, Kids, Discarded, Unlink, ResolvePath;
      RemovedAllCases(name);
      if ResolvePath(root, root, name) == Some(root) {
        hide ResolvePath;
        DiscardTree(rootNode);
        return Ok(());
      }
      var p := LocateName(name, Permission);
      if p.Fail? {
        return if p.err == NotExist then Ok(()) else Fail(p.err);
      }
      var parent, base := p.value.node, p.value.base;
      ParentKids(parent);
      if base !in parent.children {
        return Ok(());
      }
      RemoveEntryTree(parent, base);
      r := Ok(());
    }

    // ---------- renaming and linking ----------

    ghost function RenamedTo(oldname: Raw, newname: Raw): Outcome<()>
      requires Valid()
      reads this, nodes.Values
    {
      ViewBuilt();
      Rename(View(), oldname, newname)
    }

    ghost function RenamedInto(oldParent: Node, oldBase: string, newname: Raw): Outcome<()>
      requires Valid() && Has(oldParent) && oldParent.kind.Directory? && oldBase in oldParent.children
      reads this, nodes.Values
    {
      ViewBuilt();
      ParentKids(oldParent);
      EmptyKids(oldParent);
      RenameInto(View(), Edge(oldParent.ino, oldBase), newname)
    }

    lemma RenamedCases(oldname: Raw, newname: Raw)
      requires Valid()
      ensures var m, o := RenamedTo(oldname, newname), Located(oldname, Permission);
              if ResolvePath(root, root, oldname).None? || ResolvePath(root, root, newname).None? then
                m == Outcome(View(), Fail(Permission))
              else
                match o
                case Fail(e) => m == Outcome(View(), Fail(e))
                case Ok(src) =>
                  && IsDir(Graph(), src.dir)
                  && if src.name !in Graph()[src.dir].kids then m == Outcome(View(), Fail(NotExist))
                     else Built(View()) && m == RenameInto(View(), src, newname)
    {
      hide RenameInto;
      ViewBuilt();
    }

    lemma RenamedIntoCases(oldParent: Node, oldBase: string, newname: Raw)
      requires Valid() && Has(oldParent) && oldParent.kind.Directory? && oldBase in oldParent.children
      ensures var m, src := RenamedInto(oldParent, oldBase, newname), Edge(oldParent.ino, oldBase);
              match Located(newname, Permission)
              case Fail(e) => m == Outcome(View(), Fail(e))
              case Ok(dst) =>
                && IsDir(Graph(), src.dir) && src.name in Graph()[src.dir].kids && IsDir(Graph(), dst.dir)
                && (dst.name in Graph()[dst.dir].kids ==> Graph()[dst.dir].kids[dst.name] in Graph())
                && m == if dst.name in Graph()[dst.dir].kids && Graph()[Graph()[dst.dir].kids[dst.name]].kids != map[]
                        then Outcome(View(), Fail(NotEmpty))
                        else Outcome(Fs(root, Renamed(Graph(), src, dst), nextIno), Ok(()))
    {
      hide Renamed;
      ViewBuilt();
      ParentKids(oldParent);
      EmptyKids(oldParent);
      var n := Located(newname, Permission);
      if n.Ok? && n.value.name in Graph()[n.value.dir].kids { assert n.value in Edges(Graph()); }
    }

    method RenameName(oldname: Raw, newname: Raw) returns (r: Res<()>)
      requires Valid()
      modifies nodes.Values
      ensures Valid() && nodes == old(nodes) && Outcome(View(), r) == old(RenamedTo(oldname, newname))
    {
      hide RenamedTo, Located, Valid, Kids, RenameInto, ResolvePath;
      RenamedCases(oldname, newname);
      if ResolvePath(root, root, oldname).None? || ResolvePath(root, root, newname).None? {
        return Fail(Permission);
      }
      var o := LocateName(oldname, Permission);
      if o.Fail? {
        return Fail(o.err);
      }
      ParentKids(o.value.node);
      if o.value.base !in o.value.node.children {
        return Fail(NotExist);
      }
      r := MoveInto(o.value.node, o.value.base, newname);
    }

    /** Rename once the old entry is found: find the new place, check what is there, move. */
    method MoveInto(oldParent: Node, oldBase: string, newname: Raw) returns (r: Res<()>)
      requires Valid() && Has(oldParent) && oldParent.kind.Directory? && oldBase in oldParent.children
      modifies nodes.Values
      ensures Valid() && nodes == old(nodes) && Outcome(View(), r) == old(RenamedInto(oldParent, oldBase, newname))
    {
      hide RenamedInto, Located, Valid, Kids, Renamed;
      RenamedIntoCases(oldParent, oldBase, newname);
      var n := LocateName(newname, Permission);
      if n.Fail? {
        return Fail(n.err);
      }
      var newParent, newBase := n.value.node, n.value.base;
      ParentKids(newParent);
      if newBase in newParent.children {
        ChildHas(newParent, newBase);
        var existing := newParent.children[newBase];
        EmptyKids(existing);
        if existing.kind.Directory? && existing.children != map[] {
          return Fail(NotEmpty);
        }
      }
      MoveEntry(oldParent, oldBase, newParent, newBase);
      r := Ok(());
    }

    /** The updates of a rename that passed its checks. */
    method MoveEntry(oldParent: Node, oldBase: string, newParent: Node, newBase: string)
      requires Valid() && Has(oldParent) && Has(newParent) && newParent.kind.Directory? && ProperName(newBase)
      requires oldBase in oldParent.children
      modifies nodes.Values
      ensures Valid() && nodes == old(nodes)
      ensures var g, src, dst := old(Graph()), Edge(oldParent.ino, oldBase), Edge(newParent.ino, newBase);
              && IsDir(g, src.dir) && src.name in g[src.dir].kids && IsDir(g, dst.dir)
              && (dst.name in g[dst.dir].kids ==> g[dst.dir].kids[dst.name] in g)
              && Graph() == Renamed(g, src, dst)
    {
      hide Valid, Kids, Unlink, DropLink, PutEntry;
      EmptyKids(oldParent);
      EmptyKids(newParent);
      ParentKids(oldParent);
      ParentKids(newParent);
      ChildHas(oldParent, oldBase);
      var node := oldParent.children[oldBase];
      if newBase in newParent.children {
        ChildHas(newParent, newBase);
        RemoveEntry(newParent, newBase);
      }
      assert Graph() == Vacate(old(Graph()), Edge(newParent.ino, newBase));
      DeleteChild(oldParent, oldBase);
      PutChild(newParent, newBase, node);
    }

    ghost function Linked(oldname: Raw, newname: Raw): Outcome<()>
      requires Valid()
      reads this, nodes.Values
    {
      ViewBuilt();
      Link(View(), oldname, newname)
    }

    ghost function LinkedInto(node: Node, newpath: Path): Outcome<()>
      requires Valid() && Has(node) && !node.kind.Directory? && root <= newpath
      reads this, nodes.Values
    {
      ViewBuilt();
      EmptyKids(node);
      LinkInto(View(), node.ino, newpath)
    }

    lemma LinkedCases(oldname: Raw, newname: Raw)
      requires Valid()
      ensures var m, o, n := Linked(oldname, newname), ResolvePath(root, root, oldname),
                ResolvePath(root, root, newname);
              if o.None? || n.None? || n.value == root then m == Outcome(View(), Fail(Permission))
              else
                && root <= o.value && root <= n.value && Proper(n.value)
                && match Looked(o.value, true, 0)
                   case Fail(e) => m == Outcome(View(), Fail(e))
                   case Ok(f) =>
                     && Built(View()) && f.node in Graph()
                     && m == if IsDir(Graph(), f.node) then Outcome(View(), Fail(Permission))
                         else LinkInto(View(), f.node, n.value)
    {
      hide LinkInto;
      ViewBuilt();
      if ResolvePath(root, root, newname).Some? { NameProper(View(), newname); }
    }

    lemma LinkedIntoCases(node: Node, newpath: Path)
      requires Valid() && Has(node) && !node.kind.Directory? && root <= newpath
      ensures match Placed(newpath)
              case Fail(e) => LinkedInto(node, newpath) == Outcome(View(), Fail(e))
              case Ok(e) =>
                && e.dir in Graph() && e.dir != node.ino && node.ino in Graph()
                && LinkedInto(node, newpath) ==
                   if e.name in Graph()[e.dir].kids then Outcome(View(), Fail(Exist))
                   else Outcome(Fs(root, AddLink(Graph(), e.dir, e.name, node.ino), nextIno), Ok(()))
    {
      ViewBuilt();
      EmptyKids(node);
    }

    method LinkName(oldname: Raw, newname: Raw) returns (r: Res<()>)
      requires Valid()
      modifies nodes.Values
      ensures Valid() && nodes == old(nodes) && Outcome(View(), r) == old(Linked(oldname, newname))
    {
      hide Linked, Looked, Valid, Kids, LinkInto, ResolvePath;
      LinkedCases(oldname, newname);
      var oldpath, newpath := ResolvePath(root, root, oldname), ResolvePath(root, root, newname);
      if oldpath.None? || newpath.None? || newpath.value == root {
        return Fail(Permission);
      }
      var oldNode := LookupPathLocked(oldpath.value, true, 0);
      if oldNode.Fail? {
        return Fail(oldNode.err);
      }
      EmptyKids(oldNode.value.node);
      if oldNode.value.node.kind.Directory? {
        return Fail(Permission);
      }
      r := LinkNode(oldNode.value.node, newpath.value);
    }

    /** Link once the old node is found. */
    method LinkNode(node: Node, newpath: Path) returns (r: Res<()>)
      requires Valid() && Has(node) && !node.kind.Directory? && root <= newpath && Proper(newpath)
      modifies nodes.Values
      ensures Valid() && nodes == old(nodes) && Outcome(View(), r) == old(LinkedInto(node, newpath))
    {
      hide LinkedInto, Placed, Valid, Kids, AddLink;
      LinkedIntoCases(node, newpath);
      var p := FindPlace(newpath);
      if p.Fail? {
        return Fail(p.err);
      }
      ParentKids(p.value.node);
      if p.value.base in p.value.node.children {
        return Fail(Exist);
      }
      LinkEntry(p.value.node, p.value.base, node);
      r := Ok(());
    }

    /** parent.children[base] = node; node.nlink++ */
    method LinkEntry(parent: Node, base: string, node: Node)
      requires Valid() && Has(parent) && Has(node) && parent.kind.Directory? && !node.kind.Directory?
                && ProperName(base)
      modifies nodes.Values
      ensures Valid() && nodes == old(nodes)
      ensures parent.ino in old(Graph()) && node.ino in old(Graph()) && node.ino != parent.ino
      ensures Graph() == AddLink(old(Graph()), parent.ino, base, node.ino)
    {
      hide Valid, Kids, AddLink, PutEntry, CountLink;
      EmptyKids(parent);
      EmptyKids(node);
      AddLinkIsPut(Graph(), parent.ino, base, node.ino);
      PutChild(parent, base, node);
      AddOneLink(node);
    }

    /** node.nlink++ */
    method AddOneLink(node: Node)
      requires Valid() && Has(node)
      modifies node`nlink
      ensures Valid() && nodes == old(nodes)
      ensures node.ino in old(Graph()) && Graph() == CountLink(old(Graph()), node.ino)
    {
      LinkCount(node);
      SetLinks(node, node.nlink + 1);
    }

    lemma LinkCount(node: Node)
      requires Valid() && Has(node)
      ensures node.ino in Graph() && Graph()[node.ino].nlink == node.nlink && Graph()[node.ino].data == node.data
      ensures Graph()[node.ino].kind == node.kind && Graph()[node.ino].target == node.target && node in nodes.Values
    {
      assert Graph()[node.ino] == node.Record();
    }

    // ---------- opening ----------

    ghost function CreatedPath(path: Path, depth: nat): Res<Path>
      requires Valid() && root <= path
      reads this, nodes.Values
    {
      ViewBuilt();
      CreatePath(View(), path, depth)
    }

    lemma CreatedPathDeep(path: Path, depth: nat)
      requires Valid() && root <= path
      ensures depth > MAX_DEPTH ==> CreatedPath(path, depth) == Fail(TooManySymlinks)
    { }

    lemma CreatedPathParent(path: Path, depth: nat)
      requires Valid() && root <= path && depth <= MAX_DEPTH && ParentOf(path).Fail?
      ensures CreatedPath(path, depth) == Fail(ParentOf(path).err)
    { }

    lemma CreatedPathHere(path: Path, depth: nat, parent: Node, base: string, dp: Path)
      requires Valid() && root <= path && depth <= MAX_DEPTH && Has(parent)
      requires ParentOf(path) == Ok(Parent(parent.ino, dp, base))
      requires base !in parent.children || !parent.children[base].kind.Symlink?
      ensures CreatedPath(path, depth) == Ok(path)
    {
      ParentKids(parent);
      if base in parent.children {
        ChildHas(parent, base);
        LinkCount(parent.children[base]);
      }
    }

    lemma CreatedPathLink(path: Path, depth: nat, parent: Node, base: string, dp: Path)
      requires Valid() && root <= path && depth <= MAX_DEPTH && Has(parent)
      requires ParentOf(path) == Ok(Parent(parent.ino, dp, base))
      requires base in parent.children && parent.children[base].kind.Symlink?
      ensures match ResolvePath(root, dp, parent.children[base].target)
              case None => CreatedPath(path, depth) == Fail(Permission)
              case Some(t) => root <= t && CreatedPath(path, depth) == CreatedPath(t, depth + 1)
    {
      ParentKids(parent);
      ChildHas(parent, base);
      LinkCount(parent.children[base]);
    }

    method ResolveCreatePathLocked(path: Path, depth: nat) returns (r: Res<Path>)
      requires Valid() && root <= path
      ensures r == CreatedPath(path, depth)
      decreases MAX_DEPTH + 1 - depth
    {
      hide *;
      CreatedPathDeep(path, depth);
      if depth > MAX_DEPTH {
        return Fail(TooManySymlinks);
      }
      var p := LookupParentLocked(path);
      if p.Fail? {
        CreatedPathParent(path, depth);
        return Fail(p.err);
      }
      var parent, base := p.value.node, p.value.base;
      if base !in parent.children || !parent.children[base].kind.Symlink? {
        CreatedPathHere(path, depth, parent, base, p.value.path);
        return Ok(path);
      }
      CreatedPathLink(path, depth, parent, base, p.value.path);
      var targetPath := ResolvePath(root, p.value.path, parent.children[base].target);
      if targetPath.None? {
        return Fail(Permission);
      }
      r := ResolveCreatePathLocked(targetPath.value, depth + 1);
    }

    ghost function OpenedAs(name: Raw, f: Flags): Outcome<Opened>
      requires Valid()
      reads this, nodes.Values
    {
      ViewBuilt();
      OpenFile(View(), name, f)
    }

    ghost function OpenedNode(node: Node, f: Flags): Outcome<Opened>
      requires Valid() && Has(node)
      reads this, nodes.Values
    {
      ViewBuilt();
      LinkCount(node);
      OpenNode(View(), node.ino, f)
    }

    ghost function OpenedMissing(path: Path, f: Flags): Outcome<Opened>
      requires Valid() && root <= path
      reads this, nodes.Values
    {
      ViewBuilt();
      OpenMissing(View(), path, f)
    }

    /** r is what the state functions say was opened, on this filesystem's own nodes. */
    ghost predicate Opens(r: Res<OpenResult>, m: Outcome<Opened>)
      reads this, nodes.Values, if r.Ok? && r.value.FileHandle? then {r.value.file} else {}
    {
      && View() == m.fs
      && match r
         case Fail(e) => m.res == Fail(e)
         case Ok(PipeNode(n)) => Has(n) && m.res == Ok(Pipe(n.ino))
         case Ok(FileHandle(h)) => h.fs == this && Has(h.node) && m.res == Ok(File(h.node.ino, h.State()))
    }

    lemma OpensFail(e: Err, m: Outcome<Opened>)
      requires m == Outcome(View(), Fail(e))
      ensures Opens(Fail(e), m)
    { }

    lemma OpensFile(h: RegularFile, m: Outcome<Opened>)
      requires h.fs == this && Has(h.node) && m == Outcome(View(), Ok(File(h.node.ino, h.State())))
      ensures Opens(Ok(FileHandle(h)), m)
    { }

    lemma OpensPipe(n: Node, m: Outcome<Opened>)
      requires Has(n) && m == Outcome(View(), Ok(Pipe(n.ino)))
      ensures Opens(Ok(PipeNode(n)), m)
    { }

    lemma OpenedCases(name: Raw, f: Flags)
      requires Valid()
      ensures var m, path := OpenedAs(name, f), ResolvePath(root, root, name);
              if path.None? then m == Outcome(View(), Fail(Permission))
              else
                && root <= path.value && Proper(path.value)
                && match Looked(path.value, true, 0)
                   case Ok(found) => found.node in Graph() && m == OpenNode(View(), found.node, f)
                   case Fail(e) =>
                     if e != NotExist || !f.create then m == Outcome(View(), Fail(e))
                     else m == OpenedMissing(path.value, f)
    {
      hide OpenNode, OpenMissing;
      ViewBuilt();
      if ResolvePath(root, root, name).Some? { NameProper(View(), name); }
    }

    method OpenFileName(name: Raw, f: Flags) returns (r: Res<OpenResult>)
      requires Valid()
      modifies this, nodes.Values
      ensures Valid() && fresh(nodes.Values - old(nodes.Values))
      ensures Opens(r, old(OpenedAs(name, f)))
      ensures r.Ok? && r.value.FileHandle? ==> fresh(r.value.file)
    {
      hide OpenedAs, OpenedMissing, Looked, Valid, Kids, OpenNode, ResolvePath;
      OpenedCases(name, f);
      var path := ResolvePath(root, root, name);
      if path.None? {
        return Fail(Permission);
      }
      var found := LookupPathLocked(path.value, true, 0);
      if found.Ok? {
        r := OpenExisting(found.value.node, f);
        return;
      }
      if found.err != NotExist || !f.create {
        return Fail(found.err);
      }
      r := OpenNew(path.value, f);
    }

    method OpenExisting(node: Node, f: Flags) returns (r: Res<OpenResult>)
      requires Valid() && Has(node)
      modifies node`data
      ensures Valid() && nodes == old(nodes)
      ensures Opens(r, old(OpenedNode(node, f)))
      ensures r.Ok? && r.value.FileHandle? ==> fresh(r.value.file)
    {
      hide Valid, Kids, SetData, Opens;
      ghost var m := OpenedNode(node, f);
      LinkCount(node);
      SameData(node);
      if f.create && f.excl {
        OpensFail(Exist, m);
        return Fail(Exist);
      }
      if node.kind.Directory? {
        OpensFail(IsDirectory, m);
        return Fail(IsDirectory);
      }
      if node.kind.Fifo? {
        OpensPipe(node, m);
        return Ok(PipeNode(node));
      }
      if Truncates(f) {
        StoreData(node, []);
      }
      var h := new RegularFile(this, node, OpenHandle(node.data, f, f.write || f.rdwr));
      OpensFile(h, m);
      r := Ok(FileHandle(h));
    }

    lemma OpenedMissingAt(path: Path, f: Flags)
      requires Valid() && root <= path && Proper(path)
      ensures match CreatedPath(path, 0)
              case Fail(e) => OpenedMissing(path, f) == Outcome(View(), Fail(e))
              case Ok(c) => root <= c && Proper(c) && OpenedMissing(path, f) == CreatedAt(c, f)
    {
      ViewBuilt();
      if CreatedPath(path, 0).Ok? { CreatePathProper(View(), path, 0); }
    }

    ghost function CreatedAt(path: Path, f: Flags): Outcome<Opened>
      requires Valid() && root <= path
      reads this, nodes.Values
    {
      ViewBuilt();
      CreateAt(View(), path, f)
    }

    lemma CreatedAtPlace(path: Path, f: Flags)
      requires Valid() && root <= path
      ensures match Placed(path)
              case Fail(e) => CreatedAt(path, f) == Outcome(View(), Fail(e))
              case Ok(e) =>
                && e.dir in Graph()
                && CreatedAt(path, f) ==
                   if e.name in Graph()[e.dir].kids then Outcome(View(), Fail(Exist))
                   else Outcome(Fs(root, AddNode(Graph(), e.dir, e.name, nextIno, NewRec(Regular, NO_TARGET)),
                       nextIno + 1),
                                Ok(File(nextIno, OpenHandle([], f, true))))
    {
      ViewBuilt();
    }

    method OpenNew(path: Path, f: Flags) returns (r: Res<OpenResult>)
      requires Valid() && root <= path && Proper(path)
      modifies this, nodes.Values
      ensures Valid() && fresh(nodes.Values - old(nodes.Values))
      ensures Opens(r, old(OpenedMissing(path, f)))
      ensures r.Ok? && r.value.FileHandle? ==> fresh(r.value.file)
    {
      hide OpenedMissing, CreatedPath, CreatedAt, Valid, Kids, Opens;
      OpenedMissingAt(path, f);
      var createPath := ResolveCreatePathLocked(path, 0);
      if createPath.Fail? {
        OpensFail(createPath.err, OpenedMissing(path, f));
        return Fail(createPath.err);
      }
      r := CreateFile(createPath.value, f);
    }

    method CreateFile(path: Path, f: Flags) returns (r: Res<OpenResult>)
      requires Valid() && root <= path && Proper(path)
      modifies this, nodes.Values
      ensures Valid() && fresh(nodes.Values - old(nodes.Values))
      ensures Opens(r, old(CreatedAt(path, f)))
      ensures r.Ok? && r.value.FileHandle? ==> fresh(r.value.file)
    {
      hide CreatedAt, Placed, Valid, Kids, AddNode, Opens;
      ghost var m := CreatedAt(path, f);
      CreatedAtPlace(path, f);
      var p := FindPlace(path);
      if p.Fail? {
        OpensFail(p.err, m);
        return Fail(p.err);
      }
      ParentKids(p.value.node);
      if p.value.base in p.value.node.children {
        OpensFail(Exist, m);
        return Fail(Exist);
      }
      var h := NewFile(p.value.node, p.value.base, f);
      OpensFile(h, m);
      r := Ok(FileHandle(h));
    }

    /** A new empty file entered under parent, and a handle on it that can write. */
    method NewFile(parent: Node, base: string, f: Flags) returns (h: RegularFile)
      requires Valid() && Has(parent) && parent.kind.Directory? && ProperName(base)
      modifies this, parent`children
      ensures Valid() && fresh(nodes.Values - old(nodes.Values)) && fresh(h)
      ensures h.fs == this && Has(h.node) && h.node.ino == old(nextIno) && h.State() == OpenHandle([], f, true)
      ensures parent.ino in old(Graph())
      ensures View() == Fs(root, AddNode(old(Graph()), parent.ino, base, old(nextIno), NewRec(Regular, NO_TARGET)),
                old(nextIno) + 1)
    {
      hide Valid, Kids, AddNode;
      var node := AddChild(parent, base, Regular, NO_TARGET);
      h := new RegularFile(this, node, OpenHandle([], f, true));
    }

    // ---------- MkdirAll and WriteFile ----------

    /** What the component walk from `cur` still does. */
    ghost function Walked(cur: Node, cwd: Path, parts: Path, i: nat): Outcome<()>
      requires Valid() && Has(cur) && cur.kind.Directory? && i <= |parts| && Proper(parts)
      reads this, nodes.Values
    {
      ViewBuilt();
      LinkCount(cur);
      MkdirWalk(View(), cur.ino, cwd, parts[i..])
    }

    lemma WalkedDone(cur: Node, cwd: Path, parts: Path)
      requires Valid() && Has(cur) && cur.kind.Directory? && Proper(parts)
      ensures Walked(cur, cwd, parts, |parts|) == Outcome(View(), Ok(()))
    {
      assert parts[|parts|..] == [];
    }

    lemma WalkedThere(cur: Node, cwd: Path, parts: Path, i: nat)
      requires Valid() && Has(cur) && cur.kind.Directory? && i < |parts| && Proper(parts)
      requires parts[i] in cur.children && !cur.children[parts[i]].kind.Symlink?
      ensures Has(cur.children[parts[i]])
      ensures var child := cur.children[parts[i]];
              Walked(cur, cwd, parts, i) ==
              if child.kind.Directory? then Walked(child, cwd + [parts[i]], parts, i + 1)
                  else Outcome(View(), Fail(NotDirectory))
    {
      ViewBuilt();
      ParentKids(cur);
      ChildHas(cur, parts[i]);
      LinkCount(cur.children[parts[i]]);
      assert parts[i..][1..] == parts[i + 1..];
    }

    lemma WalkedLink(cur: Node, cwd: Path, parts: Path, i: nat)
      requires Valid() && Has(cur) && cur.kind.Directory? && i < |parts| && Proper(parts)
      requires parts[i] in cur.children && cur.children[parts[i]].kind.Symlink?
      ensures match ResolvePath(root, cwd, cur.children[parts[i]].target)
              case None => Walked(cur, cwd, parts, i) == Outcome(View(), Fail(Permission))
              case Some(t) =>
                && root <= t
                && match Looked(t, true, 0)
                   case Fail(e) => Walked(cur, cwd, parts, i) == Outcome(View(), Fail(e))
                   case Ok(f) =>
                     && f.node in nodes
                     && if nodes[f.node].kind.Directory? then Walked(cur, cwd, parts, i)
                         == Walked(nodes[f.node], f.path, parts, i + 1)
                        else Walked(cur, cwd, parts, i) == Outcome(View(), Fail(NotDirectory))
    {
      ViewBuilt();
      ParentKids(cur);
      ChildHas(cur, parts[i]);
      LinkCount(cur.children[parts[i]]);
      assert parts[i..][1..] == parts[i + 1..];
    }

    ghost predicate NewDir(s: Fs, cur: Node, c: string)
      requires Valid() && Has(cur)
      reads this, nodes.Values
    {
      && cur.ino in Graph()
      && s == Fs(root, AddNode(Graph(), cur.ino, c, nextIno, NewRec(Directory, NO_TARGET)), nextIno + 1)
    }

    lemma WalkedMissing(cur: Node, cwd: Path, parts: Path, i: nat, s: Fs)
      requires Valid() && Has(cur) && cur.kind.Directory? && i < |parts| && Proper(parts)
      requires parts[i] !in cur.children && NewDir(s, cur, parts[i])
      ensures Built(s) && IsDir(s.g, nextIno)
      ensures Walked(cur, cwd, parts, i) == MkdirWalk(s, nextIno, cwd + [parts[i]], parts[i + 1..])
    {
      ViewBuilt();
      ParentKids(cur);
      LinkCount(cur);
      assert parts[i..][1..] == parts[i + 1..];
      AddNodeBuilt(View(), Edge(cur.ino, parts[i]), Directory, NO_TARGET);
    }

    /** A missing part: make the directory and go on below it. */
    method AddDirectory(cur: Node, cwd: Path, parts: Path, i: nat) returns (child: Node)
      requires Valid() && Has(cur) && cur.kind.Directory? && i < |parts| && Proper(parts) && parts[i] !in cur.children
      modifies this, nodes.Values
      ensures Valid() && fresh(nodes.Values - old(nodes.Values)) && Has(child) && child.kind.Directory?
      ensures Walked(child, cwd + [parts[i]], parts, i + 1) == old(Walked(cur, cwd, parts, i))
    {
      hide Kids, AddNode, MkdirWalk;
      ghost var s := Fs(root, AddNode(Graph(), cur.ino, parts[i], nextIno, NewRec(Directory, NO_TARGET)), nextIno + 1);
      WalkedMissing(cur, cwd, parts, i, s);
      child := AddChild(cur, parts[i], Directory, NO_TARGET);
      LinkCount(child);
    }

    ghost function MadeAll(name: Raw): Outcome<()>
      requires Valid()
      reads this, nodes.Values
    {
      ViewBuilt();
      MkdirAll(View(), name)
    }

    lemma MadeAllCases(name: Raw)
      requires Valid()
      ensures Has(rootNode) && rootNode.kind.Directory?
      ensures var m, path := MadeAll(name), ResolvePath(root, root, name);
              if path.None? then m == Outcome(View(), Fail(Permission))
              else
                && root <= path.value && Proper(path.value)
                && m == if path.value == root then Outcome(View(), Ok(()))
                    else Walked(rootNode, root, path.value[|root|..], 0)
    {
      ViewBuilt();
      hide MkdirWalk;
      var path := ResolvePath(root, root, name);
      if path.Some? {
        NameProper(View(), name);
        assert path.value[|root|..][0..] == path.value[|root|..];
      }
    }

    method MkdirAllName(name: Raw) returns (r: Res<()>)
      requires Valid()
      modifies this, nodes.Values
      ensures Valid() && fresh(nodes.Values - old(nodes.Values))
      ensures Outcome(View(), r) == old(MadeAll(name))
    {
      hide MadeAll, Walked, Looked, Valid, Kids, ResolvePath;
      MadeAllCases(name);
      ghost var m := MadeAll(name);
      var path := ResolvePath(root, root, name);
      if path.None? {
        return Fail(Permission);
      }
      if path.value == root {
        return Ok(());
      }
      var parts := path.value[|root|..];
      var current, currentPath := rootNode, root;
      var i := 0;
      while i < |parts|
        invariant 0 <= i <= |parts| && Proper(parts)
        invariant Valid() && fresh(nodes.Values - old(nodes.Values)) && Has(current) && current.kind.Directory?
        invariant Walked(current, currentPath, parts, i) == m
      {
        if parts[i] !in current.children {
          current := AddDirectory(current, currentPath, parts, i);
          currentPath := currentPath + [parts[i]];
        } else if current.children[parts[i]].kind.Symlink? {
          var child := current.children[parts[i]];
          WalkedLink(current, currentPath, parts, i);
          var targetPath := ResolvePath(root, currentPath, child.target);
          if targetPath.None? {
            return Fail(Permission);
          }
          var target := LookupPathLocked(targetPath.value, true, 0);
          if target.Fail? {
            return Fail(target.err);
          }
          if !target.value.node.kind.Directory? {
            return Fail(NotDirectory);
          }
          current, currentPath := target.value.node, target.value.path;
        } else {
          WalkedThere(current, currentPath, parts, i);
          if !current.children[parts[i]].kind.Directory? {
            return Fail(NotDirectory);
          }
          current, currentPath := current.children[parts[i]], currentPath + [parts[i]];
        }
        i := i + 1;
      }
      WalkedDone(current, currentPath, parts);
      r := Ok(());
    }

    ghost function WrittenTo(name: Raw, data: seq<byte>): Outcome<Opened>
      requires Valid()
      reads this, nodes.Values
    {
      ViewBuilt();
      WriteFile(View(), name, data)
    }

    lemma WrittenToCases(name: Raw, data: seq<byte>)
      requires Valid()
      ensures var m, o := WrittenTo(name, data), OpenedAs(name, WRITE_FLAGS);
              && m.res == o.res
              && m.fs == if o.res.Ok? && o.res.value.File? then WriteNode(o.fs, o.res.value.node, o.res.value.handle,
                  data) else o.fs
      ensures var o := OpenedAs(name, WRITE_FLAGS); o.res.Ok? && o.res.value.File? ==>
                o.res.value.handle.writable && !o.res.value.handle.closed
    {
      ViewBuilt();
    }

    /** WriteFile on a regular file; on a FIFO it hands the node back for its pipe to be written. */
    method WriteFileName(name: Raw, data: seq<byte>) returns (r: Res<OpenResult>)
      requires Valid()
      modifies this, nodes.Values
      ensures Valid() && fresh(nodes.Values - old(nodes.Values))
      ensures View() == old(WrittenTo(name, data)).fs
      ensures match r
              case Fail(e) => old(WrittenTo(name, data)).res == Fail(e)
              case Ok(PipeNode(n)) => old(WrittenTo(name, data)).res == Ok(Pipe(n.ino))
              case Ok(FileHandle(h)) => Has(h.node) && h.closed && old(WrittenTo(name, data)).res.Ok?
                                        && old(WrittenTo(name, data)).res.value.File?
                                        && old(WrittenTo(name, data)).res.value.node == h.node.ino
    {
      hide OpenedAs, WrittenTo, Kids, WriteFileAt;
      WrittenToCases(name, data);
      r := OpenFileName(name, WRITE_FLAGS);
      if r.Ok? && r.value.FileHandle? {
        LinkCount(r.value.file.node);
        WriteAll(r.value.file, data);
      }
    }

    /** file.Write(data), then the deferred Close. */
    method WriteAll(file: RegularFile, data: seq<byte>)
      requires Valid() && file.fs == this && Has(file.node)
      modifies file, file.node`data
      ensures Valid() && nodes == old(nodes) && nextIno == old(nextIno) && file.closed
      ensures View() == WriteNode(old(View()), file.node.ino, old(file.State()), data)
    {
      hide Kids, WriteFileAt, Valid;
      LinkCount(file.node);
      var n := file.Write(data);
      file.Close();
    }
  }
}

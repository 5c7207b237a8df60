/** Path lookup as steps from one path to the next: a reference for every result, errors included. */
module MemSteps {
  import opened Basics
  import opened Paths
  import opened MemGraph
  import opened MemLookup

  /** The first k names below the root lead along directory entries to d. */
  ghost predicate Along(root: Path, g: Graph, path: Path, k: nat, d: nat) {
    root <= path && |root| + k <= |path| && Walk(g, ROOT, path[|root|..|root| + k]) == Some(d)
  }

  /** There is a name after the first k, and d is a directory with an entry of that name. */
  ghost predicate Has(root: Path, g: Graph, path: Path, k: nat, d: nat) {
    Along(root, g, path, k, d) && |root| + k < |path| && IsDir(g, d) && path[|root| + k] in g[d].kids
  }

  /** That entry is a symlink, and one that has to be followed. */
  ghost predicate Follows(root: Path, g: Graph, path: Path, follow: bool, k: nat, d: nat) {
    && Has(root, g, path, k, d) && IsLink(g, g[d].kids[path[|root| + k]])
    && (follow || |root| + k + 1 < |path|)
  }

  /** Its target, resolved where the symlink stands; None outside the root. */
  ghost function Target(root: Path, g: Graph, path: Path, k: nat, d: nat): Option<Path>
    requires Has(root, g, path, k, d) && IsLink(g, g[d].kids[path[|root| + k]])
  {
    ResolvePath(root, path[..|root| + k], g[g[d].kids[path[|root| + k]]].target)
  }

  /** A symlink takes the path to t: its target and the names after it. */
  ghost predicate Hops(root: Path, g: Graph, path: Path, follow: bool, k: nat, d: nat, t: Path) {
    && Follows(root, g, path, follow, k, d) && Target(root, g, path, k, d).Some?
    && t == Target(root, g, path, k, d).value + path[|root| + k + 1..]
  }

  /** The path goes no further than d, for one of three reasons. */
  ghost predicate Stops(root: Path, g: Graph, path: Path, follow: bool, k: nat, d: nat, e: Err) {
    && Along(root, g, path, k, d) && |root| + k < |path|
    && if !IsDir(g, d) then !IsLink(g, d) && e == NotDirectory
       else if path[|root| + k] !in g[d].kids then e == NotExist
       else Follows(root, g, path, follow, k, d) && Target(root, g, path, k, d).None? && e == Permission
  }

  /** The path leads along directory entries to i, which is not a symlink to follow. */
  ghost predicate Comes(root: Path, g: Graph, path: Path, follow: bool, i: nat) {
    root <= path && Along(root, g, path, |path| - |root|, i) && !(follow && IsLink(g, i))
  }

  /** What following the path comes to when n symlinks are one too many. */
  ghost predicate Leads(root: Path, g: Graph, path: Path, follow: bool, n: nat, r: Res<Found>)
    decreases n
  {
    if n == 0 then r == Fail(TooManySymlinks)
    else
      || (exists i :: Comes(root, g, path, follow, i) && r == Ok(Found(i, path)))
      || (exists k, d, e :: Stops(root, g, path, follow, k, d, e) && r == Fail(e))
      || (exists k, d, t :: Hops(root, g, path, follow, k, d, t) && Leads(root, g, t, follow, n - 1, r))
  }

  lemma AlongNext(root: Path, g: Graph, path: Path, k: nat, d: nat)
    requires Shaped(g) && Has(root, g, path, k, d)
    ensures Along(root, g, path, k + 1, g[d].kids[path[|root| + k]]) && g[d].kids[path[|root| + k]] in g
  {
    var p, c := path[|root|..|root| + k], path[|root| + k];
    assert path[|root|..|root| + k + 1] == p + [c];
    WalkAppend(g, ROOT, p, [c]);
    assert Edge(d, c) in Edges(g);
  }

  lemma {:induction false} FindLeads(root: Path, g: Graph, path: Path, k: nat, cur: nat, follow: bool, depth: nat)
    requires Shaped(g) && Proper(root) && Proper(path) && depth <= 40 && cur in g && Along(root, g, path, k, cur)
    requires IsLink(g, cur) ==> !follow && |root| + k == |path|
    ensures Leads(root, g, path, follow, 41 - depth,
                  Find(root, g, cur, path[..|root| + k], path[|root| + k..], follow, depth))
    decreases 41 - depth, 0, |path| - k
  {
    hide Shaped, Along, ResolvePath, Leads;
    AlongLength(root, g, path, k, cur);
    var m := |root| + k;
    if m == |path| {
      assert path[..m] == path && path[m..] == [];
      LeadsHere(root, g, path, follow, 41 - depth, cur);
    } else {
      FindAt(root, g, cur, path[..m], path, m, follow, depth);
      var c := path[m];
      if !IsDir(g, cur) || c !in g[cur].kids {
        LeadsNowhere(root, g, path, follow, 41 - depth, k, cur, if IsDir(g, cur) then NotExist else NotDirectory);
      } else {
        AlongNext(root, g, path, k, cur);
        var child := g[cur].kids[c];
        assert path[..m] + [c] == path[..m + 1];
        if IsLink(g, child) && (m < |path| - 1 || follow) {
          FollowedLeads(root, g, path, k, cur, follow, depth);
        } else {
          FindLeads(root, g, path, k + 1, child, follow, depth);
        }
      }
    }
  }

  lemma AlongLength(root: Path, g: Graph, path: Path, k: nat, d: nat)
    requires Along(root, g, path, k, d)
    ensures root <= path && |root| + k <= |path|
  { }

  lemma LeadsHere(root: Path, g: Graph, path: Path, follow: bool, n: nat, i: nat)
    requires n > 0 && |root| <= |path| && Along(root, g, path, |path| - |root|, i) && !(follow && IsLink(g, i))
    ensures Leads(root, g, path, follow, n, Ok(Found(i, path)))
  {
    assert Comes(root, g, path, follow, i);
  }

  lemma LeadsNowhere(root: Path, g: Graph, path: Path, follow: bool, n: nat, k: nat, d: nat, e: Err)
    requires n > 0 && Stops(root, g, path, follow, k, d, e)
    ensures Leads(root, g, path, follow, n, Fail(e))
  { }

  lemma LeadsOn(root: Path, g: Graph, path: Path, follow: bool, n: nat, k: nat, d: nat, t: Path, r: Res<Found>)
    requires n > 0 && Hops(root, g, path, follow, k, d, t) && Leads(root, g, t, follow, n - 1, r)
    ensures Leads(root, g, path, follow, n, r)
  { }

  /** Joining the remaining names on to a symlink's target does not take the path outside the root again. */
  lemma TargetJoined(root: Path, cwd: Path, target: Raw, rest: Path)
    requires Proper(cwd) && Proper(rest)
    ensures LinkTarget(root, cwd, target, rest)
            == match ResolvePath(root, cwd, target) case None => None case Some(u) => Some(u + rest)
    ensures var u := ResolvePath(root, cwd, target); u.Some? ==> root <= u.value + rest && Proper(u.value + rest)
  {
    hide CleanOnto;
    ResolvedIsProper(root, cwd, target);
    var u := ResolvePath(root, cwd, target);
    if u.Some? {
      CleanOfProper(u.value, rest);
      assert rest == [] ==> u.value + rest == u.value;
    }
  }

  lemma {:induction false} FollowedLeads(root: Path, g: Graph, path: Path, k: nat, cur: nat, follow: bool, depth: nat)
    requires Shaped(g) && Proper(root) && Proper(path) && depth <= 40 && Follows(root, g, path, follow, k, cur)
    requires cur in g && |root| + k < |path| && root <= path
    ensures Leads(root, g, path, follow, 41 - depth,
                  Find(root, g, cur, path[..|root| + k], path[|root| + k..], follow, depth))
    decreases 41 - depth, 0, |path| - k, 0
  {
    hide Shaped, Along, ResolvePath, Leads, LinkTarget;
    var m := |root| + k;
    FindAt(root, g, cur, path[..m], path, m, follow, depth);
    TargetJoined(root, path[..m], g[g[cur].kids[path[m]]].target, path[m + 1..]);
    var u := Target(root, g, path, k, cur);
    if u.None? {
      LeadsNowhere(root, g, path, follow, 41 - depth, k, cur, Permission);
    } else {
      var t := u.value + path[m + 1..];
      LookupLeads(root, g, t, follow, depth + 1);
      LeadsOn(root, g, path, follow, 41 - depth, k, cur, t, Lookup(root, g, t, follow, depth + 1));
    }
  }

  lemma {:induction false} LookupLeads(root: Path, g: Graph, path: Path, follow: bool, depth: nat)
    requires Shaped(g) && Proper(root) && Proper(path) && root <= path && depth <= 41
    ensures Leads(root, g, path, follow, 41 - depth, Lookup(root, g, path, follow, depth))
    decreases 41 - depth, 1, 0
  {
    LookupStart(root, g, path, follow, depth);
    if depth <= 40 {
      assert path[|root|..|root| + 0] == [] && path[..|root|] == root;
      assert Along(root, g, path, 0, ROOT);
      FindLeads(root, g, path, 0, ROOT, follow, depth);
      if path == root { LeadsHere(root, g, path, follow, 41 - depth, ROOT); }
    }
  }

  // ---------- the steps leave no choice ----------

  /** Along a path there is one place at which it ends, stops or hops. */
  ghost predicate Event(root: Path, g: Graph, path: Path, follow: bool, k: nat, d: nat) {
    && Along(root, g, path, k, d)
    && (|root| + k == |path| ==> !(follow && IsLink(g, d)))
    && (|root| + k < |path| ==>
          if IsDir(g, d) then path[|root| + k] !in g[d].kids || Follows(root, g, path, follow, k, d) else !IsLink(g, d))
  }

  lemma {:induction false} OneEvent(root: Path, g: Graph, path: Path, follow: bool, k: nat, d: nat, k': nat, d': nat)
    requires Shaped(g) && k <= k'
    requires Event(root, g, path, follow, k, d) && Event(root, g, path, follow, k', d')
    ensures k == k' && d == d'
  {
    hide Shaped;
    var m := |root| + k;
    var p, q := path[|root|..m], path[m..|root| + k'];
    assert path[|root|..|root| + k'] == p + q;
    WalkAppend(g, ROOT, p, q);
    if |q| > 0 { WalksOn(g, d, q); }
  }

  /** A walk goes on from a directory, and ends where it meets a symlink. */
  lemma WalksOn(g: Graph, d: nat, q: Path)
    requires q != [] && Walk(g, d, q).Some?
    ensures IsDir(g, d) && q[0] in g[d].kids
    ensures IsLink(g, g[d].kids[q[0]]) ==> |q| == 1 && Walk(g, d, q) == Some(g[d].kids[q[0]])
  { }

  lemma {:induction false} LeadsUnique(root: Path, g: Graph, path: Path, follow: bool, n: nat, r: Res<Found>,
                                       r': Res<Found>)
    requires Shaped(g) && Leads(root, g, path, follow, n, r) && Leads(root, g, path, follow, n, r')
    ensures r == r'
    decreases n
  {
    hide Shaped, Along, ResolvePath, Leads;
    if n == 0 {
      LeadsNone(root, g, path, follow, r);
      LeadsNone(root, g, path, follow, r');
    } else {
      var k, d := LeadsAt(root, g, path, follow, n, r);
      var k', d' := LeadsAt(root, g, path, follow, n, r');
      if k <= k' {
        OneEvent(root, g, path, follow, k, d, k', d');
      } else {
        OneEvent(root, g, path, follow, k', d', k, d);
      }
      AlongLength(root, g, path, k, d);
      if |root| + k < |path| && Follows(root, g, path, follow, k, d) && Target(root, g, path, k, d).Some? {
        LeadsUnique(root, g, Target(root, g, path, k, d).value + path[|root| + k + 1..], follow, n - 1, r, r');
      }
    }
  }

  lemma LeadsNone(root: Path, g: Graph, path: Path, follow: bool, r: Res<Found>)
    requires Leads(root, g, path, follow, 0, r)
    ensures r == Fail(TooManySymlinks)
  { }

  /** What r has to be when the path ends, stops or hops at name k. */
  ghost predicate LeadsBy(root: Path, g: Graph, path: Path, follow: bool, n: nat, r: Res<Found>, k: nat, d: nat) {
    && n > 0 && Event(root, g, path, follow, k, d)
    && if |root| + k == |path| then r == Ok(Found(d, path))
       else if !Follows(root, g, path, follow, k, d) then r == Fail(if IsDir(g, d) then NotExist else NotDirectory)
       else match Target(root, g, path, k, d)
         case None => r == Fail(Permission)
         case Some(u) => Leads(root, g, u + path[|root| + k + 1..], follow, n - 1, r)
  }

  lemma ComesBy(root: Path, g: Graph, path: Path, follow: bool, n: nat, i: nat)
    requires n > 0 && Comes(root, g, path, follow, i)
    ensures LeadsBy(root, g, path, follow, n, Ok(Found(i, path)), |path| - |root|, i)
  {
    hide Leads;
  }

  lemma StopsBy(root: Path, g: Graph, path: Path, follow: bool, n: nat, k: nat, d: nat, e: Err)
    requires n > 0 && Stops(root, g, path, follow, k, d, e)
    ensures LeadsBy(root, g, path, follow, n, Fail(e), k, d)
  {
    hide Leads, ResolvePath;
  }

  lemma HopsBy(root: Path, g: Graph, path: Path, follow: bool, n: nat, k: nat, d: nat, t: Path, r: Res<Found>)
    requires n > 0 && Hops(root, g, path, follow, k, d, t) && Leads(root, g, t, follow, n - 1, r)
    ensures LeadsBy(root, g, path, follow, n, r, k, d)
  {
    hide Leads, ResolvePath;
  }

  lemma LeadsAt(root: Path, g: Graph, path: Path, follow: bool, n: nat, r: Res<Found>) returns (k: nat, d: nat)
    requires n > 0 && Leads(root, g, path, follow, n, r)
    ensures LeadsBy(root, g, path, follow, n, r, k, d)
  {
    hide Comes, Stops, Hops, LeadsBy;
    if i :| Comes(root, g, path, follow, i) && r == Ok(Found(i, path)) {
      ComesLength(root, g, path, follow, i);
      k, d := |path| - |root|, i;
      ComesBy(root, g, path, follow, n, i);
    } else if a, b, e :| Stops(root, g, path, follow, a, b, e) && r == Fail(e) {
      k, d := a, b;
      StopsBy(root, g, path, follow, n, k, d, e);
    } else {
      var a, b, t :| Hops(root, g, path, follow, a, b, t) && Leads(root, g, t, follow, n - 1, r);
      k, d := a, b;
      HopsBy(root, g, path, follow, n, k, d, t, r);
    }
  }

  lemma ComesLength(root: Path, g: Graph, path: Path, follow: bool, i: nat)
    requires Comes(root, g, path, follow, i)
    ensures |root| <= |path|
  { }

  /**
   * Lookup returns exactly what the steps come to: the node at the end of a path, or the reason the path stops, after
   * at most 40 symlinks, and "too many symlinks" at the 41st.
   */
  lemma LookupIff(root: Path, g: Graph, path: Path, follow: bool, r: Res<Found>)
    requires Shaped(g) && Proper(root) && Proper(path) && root <= path
    ensures Lookup(root, g, path, follow, 0) == r <==> Leads(root, g, path, follow, 41, r)
  {
    hide Shaped, Leads, Lookup;
    LookupLeads(root, g, path, follow, 0);
    if Leads(root, g, path, follow, 41, r) {
      LeadsUnique(root, g, path, follow, 41, r, Lookup(root, g, path, follow, 0));
    }
  }

  // ---------- longer paths ----------

  lemma StopsLonger(root: Path, g: Graph, path: Path, c: string, follow: bool, k: nat, d: nat, e: Err)
    requires Stops(root, g, path, true, k, d, e)
    ensures Stops(root, g, path + [c], follow, k, d, e)
  {
    hide ResolvePath;
    var m := |root| + k;
    assert (path + [c])[|root|..m] == path[|root|..m] && (path + [c])[..m] == path[..m];
  }

  lemma HopsLonger(root: Path, g: Graph, path: Path, c: string, follow: bool, k: nat, d: nat, t: Path)
    requires Hops(root, g, path, true, k, d, t)
    ensures Hops(root, g, path + [c], follow, k, d, t + [c])
  {
    hide ResolvePath;
    var m := |root| + k;
    assert (path + [c])[|root|..m] == path[|root|..m] && (path + [c])[..m] == path[..m];
    assert (path + [c])[m + 1..] == path[m + 1..] + [c];
  }

  /** With one more name a path fails where and as it did, or runs out of symlinks before. */
  lemma {:induction false} LongerFails(root: Path, g: Graph, path: Path, c: string, follow: bool, n: nat, m: nat,
                                       e: Err, r: Res<Found>)
    requires Shaped(g) && m <= n && Leads(root, g, path, true, n, Fail(e)) && Leads(root, g, path + [c], follow, m, r)
    ensures r == Fail(e) || r == Fail(TooManySymlinks)
    decreases n
  {
    hide Shaped, Stops, Hops, Comes;
    if m > 0 {
      if k, d, e' :| Stops(root, g, path, true, k, d, e') && e' == e {
        StopsLonger(root, g, path, c, follow, k, d, e);
        LeadsNowhere(root, g, path + [c], follow, m, k, d, e);
        LeadsUnique(root, g, path + [c], follow, m, r, Fail(e));
      } else {
        var k, d, t :| Hops(root, g, path, true, k, d, t) && Leads(root, g, t, true, n - 1, Fail(e));
        HopsLonger(root, g, path, c, follow, k, d, t);
        LeadsAfter(root, g, path + [c], follow, m, k, d, t + [c], r);
        LongerFails(root, g, t, c, follow, n - 1, m - 1, e, r);
      }
    }
  }

  lemma LeadsAfter(root: Path, g: Graph, path: Path, follow: bool, n: nat, k: nat, d: nat, t: Path, r: Res<Found>)
    requires Shaped(g) && n > 0 && Hops(root, g, path, follow, k, d, t) && Leads(root, g, path, follow, n, r)
    ensures Leads(root, g, t, follow, n - 1, r)
  {
    hide Shaped, Along, ResolvePath, Leads;
    var k', d' := LeadsAt(root, g, path, follow, n, r);
    if k <= k' {
      OneEvent(root, g, path, follow, k, d, k', d');
    } else {
      OneEvent(root, g, path, follow, k', d', k, d);
    }
  }

  /** The lookup of a path whose parent's fails: it fails for the same reason, or runs out of symlinks before. */
  lemma ParentFails(root: Path, g: Graph, path: Path, follow: bool, depth: nat)
    requires Shaped(g) && Proper(root) && Proper(path) && root <= path && path != root && depth <= 41
    ensures root <= path[..|path| - 1]
    ensures match Lookup(root, g, path[..|path| - 1], true, 0)
            case Fail(e) => Lookup(root, g, path, follow, depth) in {Fail(e), Fail(TooManySymlinks)}
            case Ok(f) =>
              !IsDir(g, f.node) ==> Lookup(root, g, path, follow, depth) in {Fail(NotDirectory), Fail(TooManySymlinks)}
  {
    hide Shaped, Leads, Lookup, Proper, Resolves, Canonical;
    var up, c := path[..|path| - 1], path[|path| - 1];
    ProperPrefix(root, path);
    assert path == up + [c];
    LookupLeads(root, g, path, follow, depth);
    match Lookup(root, g, up, true, 0)
    case Fail(e) =>
      LookupLeads(root, g, up, true, 0);
      LongerFails(root, g, up, c, follow, 41, 41 - depth, e, Lookup(root, g, path, follow, depth));
    case Ok(f) =>
      if !IsDir(g, f.node) {
        var h := LookupResolves(root, g, up, true, 0);
        ResolvesCanonical(root, g, up, true, h, f.node, f.path);
        BelowFile(root, g, up, c, follow, depth, h, f.node, f.path);
      }
  }

  lemma ProperPrefix(root: Path, path: Path)
    requires Proper(path) && root <= path && path != root
    ensures root <= path[..|path| - 1] && Proper(path[..|path| - 1]) && ProperName(path[|path| - 1])
  { }

  lemma BelowFile(root: Path, g: Graph, up: Path, c: string, follow: bool, depth: nat, h: nat, i: nat, p: Path)
    requires Shaped(g) && Proper(root) && Proper(up) && ProperName(c) && depth <= 41
    requires Resolves(root, g, up, true, h, i, p) && Canonical(root, g, i, p) && !IsDir(g, i) && !IsLink(g, i)
    ensures root <= up
    ensures Lookup(root, g, up + [c], follow, depth) in {Fail(NotDirectory), Fail(TooManySymlinks)}
  {
    hide Shaped, Leads, Lookup, Resolves;
    ResolvesRootOnly(root, g, up, true, h, i, p);
    Restart(root, g, up, [c], follow, depth, h, i, p);
    if depth + h > 40 {
      LookupDeep(root, g, p + [c], follow, depth + h);
    } else {
      var k := |p| - |root|;
      assert (p + [c])[|root|..|root| + k] == p[|root|..];
      assert Stops(root, g, p + [c], follow, k, i, NotDirectory);
      LeadsNowhere(root, g, p + [c], follow, 41 - (depth + h), k, i, NotDirectory);
      LookupLeads(root, g, p + [c], follow, depth + h);
      LeadsUnique(root, g, p + [c], follow, 41 - (depth + h), Lookup(root, g, p + [c], follow, depth + h),
                  Fail(NotDirectory));
    }
  }
}

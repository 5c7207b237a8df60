/** Shell environments as chains of frames: lookup, assignment with dynamic scoping, and the flattened copy. */
module Environs {
  import opened Basics

  datatype Kind = Unknown | Text | NameRef | Indexed | Associative | KeepValue

  /** A variable; `value` stands for the fields its kind selects. */
  datatype Var = Var(isSet: bool, local: bool, exported: bool, readOnly: bool, kind: Kind, value: string)

  const NOTHING := Var(false, false, false, false, Unknown, "")

  type Values = map<string, Var>

  /** No parent, an environment that is only read, or an overlay on a parent. */
  datatype Env = Nil | Base(vars: Values) | Frame(values: Values, func: bool, parent: Env)

  function In(vars: Values, name: string): Var {
    if name in vars then vars[name] else NOTHING
  }

  function Get(env: Env, name: string): Var {
    match env
    case Nil => NOTHING
    case Base(vars) => In(vars, name)
    case Frame(values, _, parent) => if name in values then values[name] else Get(parent, name)
  }

  /** Why a Set fails: the variable is read-only, or what is to be written is no overlay. */
  datatype Failure = ReadOnly | NotWritable
  datatype Written = Ok(env: Env) | Err(why: Failure)

  /** A Set here belongs to the parent: in a function, for a name neither declared local now nor local already. */
  predicate Delegates(env: Env, name: string, vr: Var)
    requires env.Frame?
  {
    env.func && !vr.local && !In(env.values, name).local
  }

  /** The variable a Set in this frame takes as the one before. */
  function Previous(env: Env, name: string): Var
    requires env.Frame?
  {
    if name in env.values then env.values[name] else Get(env.parent, name)
  }

  function Stored(prev: Var, vr: Var): Var {
    var kept := if vr.kind == KeepValue then vr.(kind := prev.kind, value := prev.value) else vr;
    kept.(local := prev.local || vr.local)
  }

  function Set(env: Env, name: string, vr: Var): Written {
    if !env.Frame? then Err(NotWritable)
    else if Delegates(env, name, vr) then
      match Set(env.parent, name, vr)
      case Ok(p) => Ok(env.(parent := p))
      case Err(why) => Err(why)
    else
      var prev := Previous(env, name);
      if vr.kind != KeepValue && prev.readOnly then Err(ReadOnly)
      else Ok(env.(values := env.values[name := Stored(prev, vr)]))
  }

  // ---------- which frame a Set changes ----------

  function Depth(env: Env): nat {
    if env.Frame? then 1 + Depth(env.parent) else 0
  }

  function At(env: Env, i: nat): (e: Env)
    requires i <= Depth(env)
    ensures e.Frame? <==> i < Depth(env)
  {
    if i == 0 then env else At(env.parent, i - 1)
  }

  predicate LocalAt(env: Env, i: nat, name: string)
    requires i < Depth(env)
  {
    In(At(env, i).values, name).local
  }

  predicate FuncAt(env: Env, i: nat)
    requires i < Depth(env)
  {
    At(env, i).func
  }

  /**
   * The frame a Set writes to: the current one for a declared local, else the innermost that is no function's or has
   * the name local.
   */
  ghost predicate IsTarget(env: Env, i: nat, name: string, local: bool) {
    && i < Depth(env)
    && (local ==> i == 0)
    && (!local ==> !FuncAt(env, i) || LocalAt(env, i, name))
    && forall j :: 0 <= j < i ==> FuncAt(env, j) && !LocalAt(env, j, name)
  }

  predicate SameFrame(a: Env, b: Env) {
    a.Frame? && b.Frame? && a.values == b.values && a.func == b.func
  }

  /** All other frames are the same, and this one differs at the name alone. */
  ghost predicate OnlyAt(env: Env, after: Env, i: nat, name: string, v: Var) {
    && Depth(after) == Depth(env) && i < Depth(env)
    && (forall j :: 0 <= j < Depth(env) && j != i ==> SameFrame(At(env, j), At(after, j)))
    && At(after, i).func == At(env, i).func
    && At(after, i).values == At(env, i).values[name := v]
    && At(after, Depth(env)) == At(env, Depth(env))
  }

  /**
   * A Set of a name either finds its one target frame and stores the variable there, or fails for a reason found
   * there.
   */
  lemma {:induction false} SetTarget(env: Env, name: string, vr: Var) returns (i: nat)
    ensures Set(env, name, vr).Ok? ==>
              IsTarget(env, i, name, vr.local)
                  && OnlyAt(env, Set(env, name, vr).env, i, name, Stored(Previous(At(env, i), name), vr))
    ensures Set(env, name, vr) == Err(ReadOnly) ==>
              IsTarget(env, i, name, vr.local) && Previous(At(env, i), name).readOnly && vr.kind != KeepValue
    ensures Set(env, name, vr) == Err(NotWritable) ==> forall j :: !IsTarget(env, j, name, vr.local)
  {
    i := 0;
    if env.Frame? {
      if Delegates(env, name, vr) {
        var k := SetTarget(env.parent, name, vr);
        i := k + 1;
        TargetUp(env, name, vr);
        var r := Set(env.parent, name, vr);
        if r.Ok? { OnlyUp(env, r.env, k, name, Stored(Previous(At(env.parent, k), name), vr)); }
      }
    }
  }

  lemma TargetUp(env: Env, name: string, vr: Var)
    requires env.Frame? && Delegates(env, name, vr)
    ensures forall k: nat :: IsTarget(env.parent, k, name, vr.local) ==> IsTarget(env, k + 1, name, vr.local)
    ensures forall j: nat :: IsTarget(env, j, name, vr.local) ==> j > 0 && IsTarget(env.parent, j - 1, name, vr.local)
  {
    forall k: nat | IsTarget(env.parent, k, name, vr.local) ensures IsTarget(env, k + 1, name, vr.local) {
      forall j | 0 <= j < k + 1 ensures FuncAt(env, j) && !LocalAt(env, j, name) {
        if j > 0 { assert FuncAt(env.parent, j - 1) && !LocalAt(env.parent, j - 1, name); }
      }
    }
    forall j: nat | IsTarget(env, j, name, vr.local) ensures j > 0 && IsTarget(env.parent, j - 1, name, vr.local) {
      forall h | 0 <= h < j - 1 ensures FuncAt(env.parent, h) && !LocalAt(env.parent, h, name) {
        assert FuncAt(env, h + 1) && !LocalAt(env, h + 1, name);
      }
    }
  }

  lemma OnlyUp(env: Env, p: Env, k: nat, name: string, v: Var)
    requires env.Frame? && OnlyAt(env.parent, p, k, name, v)
    ensures OnlyAt(env, env.(parent := p), k + 1, name, v)
  {
    var after := env.(parent := p);
    forall j | 0 <= j < Depth(env) && j != k + 1 ensures SameFrame(At(env, j), At(after, j)) {
      if j > 0 { assert At(env, j) == At(env.parent, j - 1) && At(after, j) == At(p, j - 1); }
    }
  }

  /** The target is unique. */
  lemma TargetUnique(env: Env, i: nat, j: nat, name: string, local: bool)
    requires IsTarget(env, i, name, local) && IsTarget(env, j, name, local)
    ensures i == j
  { }

  /** The nearest frame that holds a name decides; without one, what is only read below the frames. */
  lemma {:induction false} GetNearest(env: Env, name: string, i: nat)
    requires i <= Depth(env) && forall j :: 0 <= j < i ==> name !in At(env, j).values
    ensures i < Depth(env) && name in At(env, i).values ==> Get(env, name) == At(env, i).values[name]
    ensures i == Depth(env) ==> Get(env, name) == match At(env, i) case Nil => NOTHING case Base(vars) =>
                                  if name in vars then vars[name] else NOTHING
    decreases i
  {
    if i > 0 {
      assert name !in At(env, 0).values;
      forall j | 0 <= j < i - 1 ensures name !in At(env.parent, j).values { assert name !in At(env, j + 1).values; }
      GetNearest(env.parent, name, i - 1);
    }
  }

  /** The variable a Set stores over `prev`: local once local, and with the value there was if that is to be kept. */
  function Over(prev: Var, vr: Var): Var {
    Var(vr.isSet, prev.local || vr.local, vr.exported, vr.readOnly,
        if vr.kind == KeepValue then prev.kind else vr.kind, if vr.kind == KeepValue then prev.value else vr.value)
  }

  /**
   * What a Set does at its target: over a read-only variable, which may be one the frame only inherits, it changes
   * nothing unless it keeps the value, and else it stores the variable there.
   */
  lemma {:induction false} SetAt(env: Env, name: string, vr: Var, i: nat)
    requires IsTarget(env, i, name, vr.local)
    ensures var frame := At(env, i);
            var prev := if name in frame.values then frame.values[name] else Get(frame.parent, name);
            if prev.readOnly && vr.kind != KeepValue then Set(env, name, vr) == Err(ReadOnly)
            else Set(env, name, vr).Ok? && OnlyAt(env, Set(env, name, vr).env, i, name, Over(prev, vr))
    decreases i
  {
    hide Get, Stored;
    var prev := Previous(At(env, i), name);
    StoredOver(prev, vr);
    if i > 0 {
      assert FuncAt(env, 0) && !LocalAt(env, 0, name);
      TargetUp(env, name, vr);
      SetAt(env.parent, name, vr, i - 1);
      var r := Set(env.parent, name, vr);
      if r.Ok? { OnlyUp(env, r.env, i - 1, name, Over(prev, vr)); }
    }
  }

  lemma StoredOver(prev: Var, vr: Var)
    ensures Stored(prev, vr) == Over(prev, vr)
  { }

  /** Without a target, as where there is no overlay or a function stands on none, a Set fails. */
  lemma NoTarget(env: Env, name: string, vr: Var)
    requires forall i :: !IsTarget(env, i, name, vr.local)
    ensures Set(env, name, vr) == Err(NotWritable)
  {
    hide Set;
    var i := SetTarget(env, name, vr);
    match Set(env, name, vr)
    case Ok(_) =>
    case Err(ReadOnly) =>
    case Err(NotWritable) =>
  }

  // ---------- what lookups see ----------

  /** Function frames hold local variables only. */
  ghost predicate Scoped(env: Env) {
    env.Frame? ==> (env.func ==> forall n :: n in env.values ==> env.values[n].local) && Scoped(env.parent)
  }

  /** After a Set every other name reads as before, the name reads as what was stored, and scoping is kept. */
  lemma {:induction false} SetLookups(env: Env, name: string, vr: Var)
    requires Scoped(env) && Set(env, name, vr).Ok?
    ensures var after := Set(env, name, vr).env;
            && Scoped(after)
            && (forall n :: n != name ==> Get(after, n) == Get(env, n))
            && Get(after, name).isSet == vr.isSet && Get(after, name).exported == vr.exported
            && Get(after, name).readOnly == vr.readOnly && (vr.local ==> Get(after, name).local)
            && (vr.kind != KeepValue ==> Get(after, name).kind == vr.kind && Get(after, name).value == vr.value)
            && (vr.kind == KeepValue ==> Get(after, name).kind == Get(env, name).kind)
            && (vr.kind == KeepValue ==> Get(after, name).value == Get(env, name).value)
  {
    if Delegates(env, name, vr) {
      SetLookups(env.parent, name, vr);
      assert name !in env.values;
    }
  }

  /** A frame that is no function's, such as a subshell's, never changes its parent. */
  lemma SubshellKeepsParent(env: Env, name: string, vr: Var)
    requires env.Frame? && !env.func && Set(env, name, vr).Ok?
    ensures Set(env, name, vr).env.parent == env.parent
  { }

  /** Leaving a function after a Set: a local is forgotten, and anything else is as if set in the caller. */
  lemma ReturnFrom(env: Env, name: string, vr: Var)
    requires env.Frame? && env.func && Set(env, name, vr).Ok?
    ensures var after := Set(env, name, vr).env.parent;
            if vr.local || In(env.values, name).local then after == env.parent
            else Set(env.parent, name, vr) == Ok(after)
  { }

  // ---------- the flattened copy of a background subshell ----------

  /** An order in which the frame's variables may be visited: each once. */
  ghost predicate Listing(values: Values, list: seq<(string, Var)>) {
    && (forall i :: 0 <= i < |list| ==> list[i].0 in values && values[list[i].0] == list[i].1)
    && (forall i, j :: 0 <= i < j < |list| ==> list[i].0 != list[j].0)
    && (forall n :: n in values ==> exists i :: 0 <= i < |list| && list[i].0 == n)
  }

  /** What Each calls its function with: the parent's variables, then the frame's own in some order. */
  ghost predicate Visits(env: Env, list: seq<(string, Var)>)
    decreases env
  {
    match env
    case Nil => list == []
    case Base(vars) => Listing(vars, list)
    case Frame(values, _, parent) =>
      exists k :: 0 <= k <= |list| && Visits(parent, list[..k]) && Listing(values, list[k..])
  }

  /** newOverlayEnviron in the background: each visited variable is Set in a frame of its own; failures are ignored. */
  function Flatten(list: seq<(string, Var)>): Env
    ensures Flatten(list).Frame? && !Flatten(list).func && Flatten(list).parent == Nil
  {
    if list == [] then Frame(map[], false, Nil)
    else
      var before := Flatten(list[..|list| - 1]);
      var r := Set(before, list[|list| - 1].0, list[|list| - 1].1);
      if r.Ok? then r.env else before
  }

  /** Stored variables always have their own value. */
  ghost predicate NoKeep(env: Env) {
    match env
    case Nil => true
    case Base(vars) => forall n :: n in vars ==> vars[n].kind != KeepValue
    case Frame(values, _, parent) => (forall n :: n in values ==> values[n].kind != KeepValue) && NoKeep(parent)
  }

  lemma {:induction false} SetNoKeep(env: Env, name: string, vr: Var)
    requires NoKeep(env) && Set(env, name, vr).Ok?
    ensures NoKeep(Set(env, name, vr).env)
  {
    if Delegates(env, name, vr) {
      SetNoKeep(env.parent, name, vr);
    } else {
      GetNoKeep(env, name);
      GetNoKeep(env.parent, name);
    }
  }

  lemma {:induction false} GetNoKeep(env: Env, name: string)
    requires NoKeep(env)
    ensures Get(env, name).kind != KeepValue
  {
    if env.Frame? { GetNoKeep(env.parent, name); }
  }

  /** The same variable but for being local. */
  predicate Alike(a: Var, b: Var) {
    a.(local := b.local) == b
  }

  /** The variable a background copy keeps for a name: the outermost read-only one, else the innermost. */
  function Kept(env: Env, name: string): Var {
    match env
    case Nil => NOTHING
    case Base(vars) => In(vars, name)
    case Frame(values, _, parent) =>
      if name in values && !Kept(parent, name).readOnly then values[name] else Kept(parent, name)
  }

  lemma FlattenStep(list: seq<(string, Var)>, name: string)
    requires list != [] && list[|list| - 1].1.kind != KeepValue
    ensures var last := list[|list| - 1];
            var before := Get(Flatten(list[..|list| - 1]), name);
            var after := Get(Flatten(list), name);
            if last.0 == name && !before.readOnly then Alike(after, last.1) else after == before
  { }

  lemma {:induction false} FlattenOver(a: seq<(string, Var)>, b: seq<(string, Var)>, values: Values, name: string)
    requires forall i :: 0 <= i < |b| ==> b[i].0 in values && values[b[i].0] == b[i].1 && b[i].1.kind != KeepValue
    requires forall i, j :: 0 <= i < j < |b| ==> b[i].0 != b[j].0
    ensures var before := Get(Flatten(a), name);
            var after := Get(Flatten(a + b), name);
            if (exists i :: 0 <= i < |b| && b[i].0 == name) && !before.readOnly then Alike(after, values[name])
                else after == before
    decreases |b|
  {
    hide Flatten, Get, Set;
    if b == [] {
      assert a + b == a;
    } else {
      var n := |b| - 1;
      assert (a + b)[..|a| + n] == a + b[..n];
      FlattenOver(a, b[..n], values, name);
      FlattenStep(a + b, name);
      if exists i :: 0 <= i < |b| && b[i].0 == name {
        var i :| 0 <= i < |b| && b[i].0 == name;
        if i < n { assert b[..n][i].0 == name; }
      }
    }
  }

  lemma FlattenNone(name: string)
    ensures Get(Flatten([]), name) == NOTHING
  { }

  /** The visited frame's variables on top of a copy of its parent's. */
  lemma FlattenFrame(values: Values, func: bool, parent: Env, a: seq<(string, Var)>, b: seq<(string, Var)>,
                     name: string)
    requires NoKeep(Frame(values, func, parent)) && Listing(values, b)
    requires Alike(Get(Flatten(a), name), Kept(parent, name))
    ensures Alike(Get(Flatten(a + b), name), Kept(Frame(values, func, parent), name))
  {
    hide Flatten, Get, Set;
    FlattenOver(a, b, values, name);
    if name in values { assert exists i :: 0 <= i < |b| && b[i].0 == name; }
  }

  /**
   * Whatever the order of visits, the copy has for every name exactly the variable Kept says, apart from being local.
   */
  lemma {:induction false} FlattenKeeps(env: Env, list: seq<(string, Var)>, name: string)
    requires NoKeep(env) && Visits(env, list)
    ensures Alike(Get(Flatten(list), name), Kept(env, name))
    decreases env
  {
    hide Flatten, Get, Set, Listing, Alike;
    match env
    case Nil =>
      FlattenNone(name);
      AlikeSame(NOTHING);
    case Base(vars) =>
      FlattenNone(name);
      AlikeSame(NOTHING);
      FlattenFrame(vars, false, Nil, [], list, name);
      assert [] + list == list;
    case Frame(values, func, parent) =>
      var k :| 0 <= k <= |list| && Visits(parent, list[..k]) && Listing(values, list[k..]);
      FlattenKeeps(parent, list[..k], name);
      FlattenFrame(values, func, parent, list[..k], list[k..], name);
      assert list[..k] + list[k..] == list;
  }

  lemma AlikeSame(v: Var)
    ensures Alike(v, v)
  { }

  // ---------- when the copy agrees ----------

  /** The variable of the name that frame i, or at the end of the chain what is only read, holds itself. */
  function HeldAt(env: Env, i: nat, name: string): Var
    requires i <= Depth(env)
  {
    match At(env, i)
    case Nil => NOTHING
    case Base(vars) => In(vars, name)
    case Frame(values, _, _) => In(values, name)
  }

  ghost predicate NoReadOnly(env: Env, name: string) {
    forall i :: 0 <= i <= Depth(env) ==> !HeldAt(env, i, name).readOnly
  }

  ghost predicate OutermostReadOnly(env: Env, i: nat, name: string) {
    && i <= Depth(env) && HeldAt(env, i, name).readOnly
    && forall j :: i < j <= Depth(env) ==> !HeldAt(env, j, name).readOnly
  }

  /** No frame has a read-only variable of the name, or the outermost such variable is like the innermost variable. */
  ghost predicate CopySafe(env: Env, name: string) {
    || NoReadOnly(env, name)
    || (exists i: nat :: OutermostReadOnly(env, i, name) && Alike(HeldAt(env, i, name), Get(env, name)))
  }

  /** Kept, frame by frame. */
  lemma {:induction false} KeptIs(env: Env, name: string) returns (i: nat)
    ensures Kept(env, name).readOnly ==> OutermostReadOnly(env, i, name) && Kept(env, name) == HeldAt(env, i, name)
    ensures !Kept(env, name).readOnly ==> Kept(env, name) == Get(env, name) && NoReadOnly(env, name)
  {
    i := 0;
    if env.Frame? {
      var k := KeptIs(env.parent, name);
      forall j | 0 < j <= Depth(env) ensures HeldAt(env, j, name) == HeldAt(env.parent, j - 1, name) { }
      if Kept(env.parent, name).readOnly { i := k + 1; }
    }
  }

  lemma OutermostUnique(env: Env, i: nat, j: nat, name: string)
    requires OutermostReadOnly(env, i, name) && OutermostReadOnly(env, j, name)
    ensures i == j
  { }

  lemma AlikeTrans(a: Var, b: Var, c: Var)
    requires Alike(a, b)
    ensures Alike(a, c) <==> Alike(b, c)
  { }

  /** A background copy gives a name the chain's variable, whatever the order of visits, exactly when that is safe. */
  lemma FlattenAgreesIff(env: Env, list: seq<(string, Var)>, name: string)
    requires NoKeep(env) && Visits(env, list)
    ensures Alike(Get(Flatten(list), name), Get(env, name)) <==> CopySafe(env, name)
  {
    hide Flatten, Get, Visits, HeldAt, OutermostReadOnly, NoReadOnly, Alike, Kept, NoKeep;
    FlattenKeeps(env, list, name);
    AlikeTrans(Get(Flatten(list), name), Kept(env, name), Get(env, name));
    var i := KeptIs(env, name);
    AlikeSame(Get(env, name));
    forall j: nat | OutermostReadOnly(env, j, name) ensures !NoReadOnly(env, name) { IsReadOnly(env, j, name); }
    forall j: nat | OutermostReadOnly(env, i, name) && OutermostReadOnly(env, j, name) ensures i == j {
      OutermostUnique(env, i, j, name);
    }
  }

  lemma IsReadOnly(env: Env, i: nat, name: string)
    requires OutermostReadOnly(env, i, name)
    ensures !NoReadOnly(env, name)
  { }

  /** Without read-only variables a background copy gives every name the chain's variable. */
  lemma FlattenAgrees(env: Env, list: seq<(string, Var)>, name: string)
    requires NoKeep(env) && Visits(env, list) && NoReadOnly(env, name)
    ensures Alike(Get(Flatten(list), name), Get(env, name))
  {
    hide Flatten, Get, Visits, NoReadOnly, Alike, NoKeep;
    FlattenAgreesIff(env, list, name);
  }

  /**
   * The failing chain: a read-only variable that a function declares local and exported, keeping its value. The copy
   * for a background subshell has the variable without the export.
   */
  lemma CopyLosesExport() returns (env: Env, list: seq<(string, Var)>)
    ensures var outer := Frame(map["x" := Var(true, false, false, true, Text, "1")], false, Base(map[]));
            Set(Frame(map[], true, outer), "x", Var(true, true, true, true, KeepValue, "")) == Ok(env)
    ensures NoKeep(env) && Visits(env, list)
    ensures Get(env, "x").exported && !Get(Flatten(list), "x").exported && !CopySafe(env, "x")
  {
    var a, b := Var(true, false, false, true, Text, "1"), Var(true, true, true, true, Text, "1");
    var outer := Frame(map["x" := a], false, Base(map[]));
    env := Frame(map["x" := b], true, outer);
    list := [("x", a), ("x", b)];
    assert Visits(Base(map[]), []);
    assert [("x", a)][..0] == [] && [("x", a)][0..] == [("x", a)];
    assert Listing(map["x" := a], [("x", a)]) by { assert [("x", a)][0].0 == "x"; }
    assert Visits(outer, [("x", a)]);
    assert list[..1] == [("x", a)] && list[1..] == [("x", b)];
    assert Listing(map["x" := b], list[1..]) by { assert list[1..][0].0 == "x"; }
    assert NoKeep(outer) && NoKeep(env) by { assert NoKeep(Base(map[])); }
    FlattenKeeps(env, list, "x");
    FlattenAgreesIff(env, list, "x");
  }
}

/** The overlay object: a mutable frame that delegates to its parent. */
module OverlayEnviron {
  import opened Basics
  import Environs
  import opened Vars = Environs

  class Overlay {
    var values: Values
    const funcScope: bool
    const parent: Overlay?
    const base: Option<Values>  // what is read when there is no overlay below
    ghost const Repr: set<Overlay>

    /** The chain of parents is finite and without repetition. */
    ghost predicate Valid()
      decreases Repr
    {
      && this in Repr
      && (parent != null ==>
            parent in Repr && parent.Repr <= Repr && this !in parent.Repr && base == None && parent.Valid())
    }

    ghost function State(): Env
      requires Valid()
      reads Repr
      decreases Repr
    {
      Frame(values, funcScope,
            if parent != null then parent.State() else if base.Some? then Base(base.value) else Nil)
    }

    /** An empty frame over another one; a function's frame when `funcScope`. */
    constructor Over(parent: Overlay, funcScope: bool)
      requires parent.Valid()
      ensures Valid() && Repr == {this} + parent.Repr && State() == Frame(map[], funcScope, parent.State())
    {
      this.values, this.funcScope, this.parent, this.base := map[], funcScope, parent, None;
      this.Repr := {this} + parent.Repr;
    }

    /** An empty frame over variables that are only read, or over none. */
    constructor On(base: Option<Values>)
      ensures Valid() && Repr == {this} && State() == Frame(map[], false, if base.Some? then Base(base.value) else Nil)
    {
      this.values, this.funcScope, this.parent, this.base := map[], false, null, base;
      this.Repr := {this};
    }

    method Get(name: string) returns (v: Var)
      requires Valid()
      ensures v == Environs.Get(State(), name)
      decreases Repr
    {
      if name in values {
        return values[name];
      }
      if parent != null {
        v := parent.Get(name);
      } else if base != None {
        v := In(base.value, name);
      } else {
        v := NOTHING;
      }
    }

    method Set(name: string, vr: Var) returns (failure: Option<Failure>)
      requires Valid()
      modifies Repr
      ensures match Environs.Set(old(State()), name, vr)
              case Ok(after) => failure == None && State() == after
              case Err(why) => failure == Some(why) && State() == old(State())
      decreases Repr
    {
      hide Environs.Set, Environs.Get, Stored;
      SetRules(State(), name, vr);
      var prev := In(values, name);
      if funcScope && !vr.local && !prev.local {
        if parent == null {
          return Some(NotWritable);
        }
        failure := parent.Set(name, vr);
        return;
      }
      if name !in values {
        if parent != null {
          prev := parent.Get(name);
        } else if base != None {
          prev := In(base.value, name);
          BaseGet(base.value, name);
        } else {
          BaseGet(map[], name);
        }
      }
      failure := Write(name, prev, vr);
    }

    /** The part of Set that writes this frame. */
    method Write(name: string, prev: Var, vr: Var) returns (failure: Option<Failure>)
      modifies this`values
      ensures failure == (if vr.kind != KeepValue && prev.readOnly then Some(ReadOnly) else None)
      ensures values == if failure == None then old(values)[name := Stored(prev, vr)] else old(values)
    {
      var v := vr;
      if vr.kind == KeepValue {
        v := v.(kind := prev.kind, value := prev.value);
      } else if prev.readOnly {
        return Some(ReadOnly);
      }
      if !v.isSet {
        if prev.local {
          v := v.(local := true);
          values := values[name := v];
          return None;
        }
        values := values - {name};
      }
      v := v.(local := prev.local || v.local);
      values := values[name := v];
      failure := None;
    }

    /** What Each passes to its function, while that asks for more. */
    method Each() returns (list: seq<(string, Var)>)
      requires Valid()
      ensures Visits(State(), list)
      decreases Repr
    {
      var below: seq<(string, Var)> := [];
      if parent != null {
        below := parent.Each();
      } else if base != None {
        below := ListOf(base.value);
      }
      var own := ListOf(values);
      list := below + own;
      assert list[..|below|] == below && list[|below|..] == own;
    }
  }

  lemma SetRules(env: Env, name: string, vr: Var)
    requires env.Frame?
    ensures Delegates(env, name, vr) && !env.parent.Frame? ==> Environs.Set(env, name, vr) == Err(NotWritable)
    ensures Delegates(env, name, vr) && env.parent.Frame? ==>
              var r := Environs.Set(env.parent, name, vr);
              Environs.Set(env, name, vr) == if r.Ok? then Ok(env.(parent := r.env)) else r
    ensures !Delegates(env, name, vr) ==>
              var prev := Previous(env, name);
              Environs.Set(env, name, vr) == if vr.kind != KeepValue && prev.readOnly then Err(ReadOnly)
                                             else Ok(env.(values := env.values[name := Stored(prev, vr)]))
  { }

  lemma BaseGet(vars: Values, name: string)
    ensures Environs.Get(Base(vars), name) == In(vars, name) && Environs.Get(Nil, name) == NOTHING
  { }

  method ListOf(values: Values) returns (list: seq<(string, Var)>)
    ensures Listing(values, list)
  {
    list := [];
    var todo := values.Keys;
    while todo != {}
      invariant todo <= values.Keys
      invariant forall i :: 0 <= i < |list| ==>
                list[i].0 in values && values[list[i].0] == list[i].1 && list[i].0 !in todo
      invariant forall i, j :: 0 <= i < j < |list| ==> list[i].0 != list[j].0
      invariant forall n :: n in values ==> n in todo || exists i :: 0 <= i < |list| && list[i].0 == n
      decreases |todo|
    {
      var n :| n in todo;
      ghost var before := list;
      list := list + [(n, values[n])];
      todo := todo - {n};
      assert list[|before|].0 == n;
      forall m | m in values && m !in todo ensures exists i :: 0 <= i < |list| && list[i].0 == m {
        if m != n {
          var i :| 0 <= i < |before| && before[i].0 == m;
          assert list[i].0 == m;
        }
      }
    }
  }

  /** newOverlayEnviron: a copy for a background subshell, a frame on top for any other. */
  method NewOverlay(parent: Overlay, background: bool) returns (o: Overlay, ghost list: seq<(string, Var)>)
    requires parent.Valid()
    ensures o.Valid() && fresh(o)
    ensures !background ==> o.State() == Frame(map[], false, parent.State()) && o.Repr == {o} + parent.Repr
    ensures background ==> Visits(parent.State(), list) && o.State() == Flatten(list) && fresh(o.Repr)
  {
    list := [];
    if !background {
      o := new Overlay.Over(parent, false);
      return;
    }
    o := new Overlay.On(None);
    var vars := parent.Each();
    list := vars;
    var i := 0;
    while i < |vars|
      invariant 0 <= i <= |vars| && o.Valid() && fresh(o.Repr)
      invariant o.State() == Flatten(vars[..i])
    {
      assert vars[..i + 1][..i] == vars[..i];
      var failure := o.Set(vars[i].0, vars[i].1);
      i := i + 1;
    }
    assert vars[..i] == vars;
  }
}

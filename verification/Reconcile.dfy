/** Reconciling running workers with the agents that should run. */
module Reconcile {
  import opened Basics

  /** A runnable agent; `config` stands for everything else its fingerprint depends on. */
  datatype Record = Record(ns: string, id: string, config: nat)

  /** A started worker: what it was started for, and whether it was cancelled or has finished. */
  datatype Handle = Handle(key: string, fingerprint: string, cancelled: bool, finished: bool)

  /** Every handle ever started, in order, and the map from keys to handles. */
  datatype State = State(handles: seq<Handle>, workers: map<string, nat>)

  type Print = Record -> string

  function WorkerKey(r: Record): string {
    r.ns + ":" + r.id
  }

  // ---------- the steps ----------

  /** What the store lists, by key; a later record replaces an earlier one of the same key. */
  function Desired(records: seq<Record>): map<string, Record> {
    if records == [] then map[]
    else
      var last := records[|records| - 1];
      Desired(records[..|records| - 1])[WorkerKey(last) := last]
  }

  predicate Wf(s: State) {
    forall k :: k in s.workers ==> s.workers[k] < |s.handles| && s.handles[s.workers[k]].key == k
  }

  /** reapWorkers: finished workers leave the map. */
  function Reap(s: State): State
    requires Wf(s)
  {
    s.(workers := map k | k in s.workers && !s.handles[s.workers[k]].finished :: s.workers[k])
  }

  /** A worker to keep: still wanted, and started with the fingerprint it should have. */
  predicate Keep(s: State, k: string, desired: map<string, Record>, fp: Print)
    requires Wf(s) && k in s.workers
  {
    k in desired && fp(desired[k]) == s.handles[s.workers[k]].fingerprint
  }

  function Cancel(h: Handle): Handle {
    h.(cancelled := true)
  }

  /** The handle at index i is cancelled when its key's worker is not kept. */
  function Pruned(s: State, desired: map<string, Record>, fp: Print, i: nat): Handle
    requires Wf(s) && i < |s.handles|
  {
    var h := s.handles[i];
    if h.key in s.workers && s.workers[h.key] == i && !Keep(s, h.key, desired, fp) then Cancel(h) else h
  }

  /** The loop over the current workers: cancel and drop what is not to be kept. */
  function Prune(s: State, desired: map<string, Record>, fp: Print): State
    requires Wf(s)
  {
    State(seq(|s.handles|, i requires 0 <= i < |s.handles| => Pruned(s, desired, fp, i)),
          map k | k in s.workers && Keep(s, k, desired, fp) :: s.workers[k])
  }

  predicate HasWorker(s: State, k: string, fingerprint: string)
    requires Wf(s)
  {
    k in s.workers && s.handles[s.workers[k]].fingerprint == fingerprint
  }

  function Start(s: State, k: string, fingerprint: string): State {
    State(s.handles + [Handle(k, fingerprint, false, false)], s.workers[k := |s.handles|])
  }

  datatype Synced = Synced(s: State, failed: bool)

  /** The loop over the desired records in some order: start what is missing; the first failure ends it. */
  function StartAll(s: State, keys: seq<string>, desired: map<string, Record>, fp: Print,
                    starts: Record -> bool): Synced
    requires Wf(s) && forall i :: 0 <= i < |keys| ==> keys[i] in desired
    decreases |keys|
  {
    if keys == [] then Synced(s, false)
    else
      var k := keys[0];
      if HasWorker(s, k, fp(desired[k])) then StartAll(s, keys[1..], desired, fp, starts)
      else if !starts(desired[k]) then Synced(s, true)
      else StartAll(Start(s, k, fp(desired[k])), keys[1..], desired, fp, starts)
  }

  /** The keys of a map, each once, in the order a loop over it takes. */
  predicate Order(keys: seq<string>, desired: map<string, Record>) {
    && (forall i :: 0 <= i < |keys| ==> keys[i] in desired)
    && (forall i, j :: 0 <= i < j < |keys| ==> keys[i] != keys[j])
    && (forall k :: k in desired ==> k in keys)
  }

  lemma ReapWf(s: State)
    requires Wf(s)
    ensures Wf(Reap(s))
  { }

  lemma PruneWf(s: State, desired: map<string, Record>, fp: Print)
    requires Wf(s)
    ensures Wf(Prune(s, desired, fp))
  { }

  /** SyncOnce, which looks at fingerprints while pruning and again while starting. */
  function SyncLooks(s: State, records: seq<Record>, keys: seq<string>, fp: Print, next: Print,
                     starts: Record -> bool): Synced
    requires Wf(s) && Order(keys, Desired(records))
  {
    ReapWf(s);
    PruneWf(Reap(s), Desired(records), fp);
    StartAll(Prune(Reap(s), Desired(records), fp), keys, Desired(records), next, starts)
  }

  /** SyncOnce where environment lookups give the same fingerprints throughout. */
  function Sync(s: State, records: seq<Record>, keys: seq<string>, fp: Print, starts: Record -> bool): Synced
    requires Wf(s) && Order(keys, Desired(records))
  {
    SyncLooks(s, records, keys, fp, fp, starts)
  }

  // ---------- no worker is lost ----------

  /** The handle is where it can still be cancelled, or has been, or is done. */
  predicate Accounted(s: State, i: nat)
    requires i < |s.handles|
  {
    var h := s.handles[i];
    (h.key in s.workers && s.workers[h.key] == i) || h.cancelled || h.finished
  }

  ghost predicate Owned(s: State) {
    Wf(s) && forall i :: 0 <= i < |s.handles| ==> Accounted(s, i)
  }

  lemma ReapOwned(s: State)
    requires Owned(s)
    ensures Owned(Reap(s))
  {
    forall i | 0 <= i < |s.handles| ensures Accounted(Reap(s), i) { assert Accounted(s, i); }
  }

  lemma PruneOwned(s: State, desired: map<string, Record>, fp: Print)
    requires Owned(s)
    ensures Owned(Prune(s, desired, fp))
  {
    var t := Prune(s, desired, fp);
    forall i | 0 <= i < |t.handles| ensures Accounted(t, i) {
      assert Accounted(s, i);
      assert t.handles[i] == Pruned(s, desired, fp, i);
    }
  }

  /** Starting keeps every handle accounted for exactly when it replaces no worker that is still running. */
  lemma StartOwnedIff(s: State, k: string, fingerprint: string)
    requires Owned(s)
    ensures Owned(Start(s, k, fingerprint)) <==>
            (k in s.workers ==> s.handles[s.workers[k]].cancelled || s.handles[s.workers[k]].finished)
  {
    var t := Start(s, k, fingerprint);
    forall i | 0 <= i < |s.handles| ensures Accounted(s, i) && t.handles[i] == s.handles[i] { }
    assert Accounted(t, |s.handles|);
    if k in s.workers {
      var i := s.workers[k];
      assert Accounted(t, i) <==> s.handles[i].cancelled || s.handles[i].finished;
    }
  }

  /** Every worker present has the fingerprint its record has now. */
  ghost predicate Current(s: State, desired: map<string, Record>, fp: Print)
    requires Wf(s)
  {
    forall k :: k in s.workers ==> k in desired && s.handles[s.workers[k]].fingerprint == fp(desired[k])
  }

  lemma {:induction false} StartAllOwned(s: State, keys: seq<string>, desired: map<string, Record>, fp: Print,
                                         starts: Record -> bool)
    requires Owned(s) && Current(s, desired, fp) && forall i :: 0 <= i < |keys| ==> keys[i] in desired
    ensures var r := StartAll(s, keys, desired, fp, starts).s; Owned(r) && Current(r, desired, fp)
    decreases |keys|
  {
    if keys != [] {
      var k := keys[0];
      if HasWorker(s, k, fp(desired[k])) {
        StartAllOwned(s, keys[1..], desired, fp, starts);
      } else if starts(desired[k]) {
        StartOwnedIff(s, k, fp(desired[k]));
        StartAllOwned(Start(s, k, fp(desired[k])), keys[1..], desired, fp, starts);
      }
    }
  }

  lemma PruneCurrent(s: State, desired: map<string, Record>, fp: Print)
    requires Wf(s)
    ensures Wf(Prune(s, desired, fp)) && Current(Prune(s, desired, fp), desired, fp)
  {
    var t := Prune(s, desired, fp);
    forall k | k in t.workers ensures t.handles[t.workers[k]].fingerprint == fp(desired[k]) {
      assert t.handles[t.workers[k]] == Pruned(s, desired, fp, t.workers[k]);
    }
  }

  // ---------- what a call does ----------

  lemma {:induction false} StartAllKeys(s: State, keys: seq<string>, desired: map<string, Record>, fp: Print,
                                        starts: Record -> bool)
    requires Wf(s) && Current(s, desired, fp) && forall i :: 0 <= i < |keys| ==> keys[i] in desired
    ensures var r := StartAll(s, keys, desired, fp, starts);
            && (forall k :: k in s.workers ==> k in r.s.workers && r.s.workers[k] == s.workers[k])
            && (!r.failed ==> forall k :: k in keys ==> k in r.s.workers)
            && |s.handles| <= |r.s.handles| && r.s.handles[..|s.handles|] == s.handles
    decreases |keys|
  {
    if keys != [] {
      var k := keys[0];
      if HasWorker(s, k, fp(desired[k])) {
        StartAllKeys(s, keys[1..], desired, fp, starts);
      } else if starts(desired[k]) {
        var t := Start(s, k, fp(desired[k]));
        StartAllKeys(t, keys[1..], desired, fp, starts);
        var r := StartAll(t, keys[1..], desired, fp, starts).s;
        assert r.handles[..|s.handles|] == r.handles[..|t.handles|][..|s.handles|];
      }
    }
  }

  /**
   * After a successful call the workers are exactly the desired keys, each started with its record's present
   * fingerprint.
   */
  lemma SyncExact(s: State, records: seq<Record>, keys: seq<string>, fp: Print, starts: Record -> bool)
    requires Owned(s) && Order(keys, Desired(records))
    ensures var r := Sync(s, records, keys, fp, starts);
            && Owned(r.s)
            && Current(r.s, Desired(records), fp)
            && (!r.failed ==> r.s.workers.Keys == Desired(records).Keys)
  {
    hide Prune, Reap, Desired, StartAll;
    var d := Desired(records);
    ReapWf(s);
    ReapOwned(s);
    PruneOwned(Reap(s), d, fp);
    PruneCurrent(Reap(s), d, fp);
    StartAllOwned(Prune(Reap(s), d, fp), keys, d, fp, starts);
    StartAllKeys(Prune(Reap(s), d, fp), keys, d, fp, starts);
  }

  lemma ReapSame(s: State)
    requires Wf(s) && forall k :: k in s.workers ==> !s.handles[s.workers[k]].finished
    ensures Reap(s) == s
  {
    assert Reap(s).workers == s.workers;
  }

  lemma PruneSame(s: State, desired: map<string, Record>, fp: Print)
    requires Wf(s) && Current(s, desired, fp)
    ensures Prune(s, desired, fp) == s
  {
    var t := Prune(s, desired, fp);
    assert t.workers == s.workers;
    assert t.handles == s.handles;
  }

  lemma {:induction false} StartNothing(s: State, keys: seq<string>, desired: map<string, Record>, fp: Print,
                                        starts: Record -> bool)
    requires Wf(s) && Current(s, desired, fp)
    requires forall i :: 0 <= i < |keys| ==> keys[i] in desired && keys[i] in s.workers
    ensures StartAll(s, keys, desired, fp, starts) == Synced(s, false)
    decreases |keys|
  {
    if keys != [] { StartNothing(s, keys[1..], desired, fp, starts); }
  }

  /** A second call, nothing having changed or finished, starts and cancels nothing, whatever order it takes. */
  lemma SyncTwice(s: State, records: seq<Record>, keys: seq<string>, again: seq<string>, fp: Print,
                  starts: Record -> bool, starts2: Record -> bool)
    requires Owned(s) && Order(keys, Desired(records)) && Order(again, Desired(records))
    requires var r := Sync(s, records, keys, fp, starts);
             !r.failed && forall i :: 0 <= i < |r.s.handles| ==> Live(r.s, i)
    ensures Wf(Sync(s, records, keys, fp, starts).s)
    ensures var r := Sync(s, records, keys, fp, starts).s; Sync(r, records, again, fp, starts2) == Synced(r, false)
  {
    hide Prune, Reap, Desired, StartAll, Order;
    SyncExact(s, records, keys, fp, starts);
    var r := Sync(s, records, keys, fp, starts).s;
    forall k | k in r.workers ensures !r.handles[r.workers[k]].finished { assert Live(r, r.workers[k]); }
    ReapSame(r);
    PruneSame(r, Desired(records), fp);
    OrderKeys(again, Desired(records));
    StartNothing(r, again, Desired(records), fp, starts2);
  }

  /** The handle, if its worker is in the map, has not finished. */
  predicate Live(s: State, i: nat)
    requires i < |s.handles|
  {
    s.handles[i].key in s.workers && s.workers[s.handles[i].key] == i ==> !s.handles[i].finished
  }

  lemma OrderKeys(keys: seq<string>, desired: map<string, Record>)
    requires Order(keys, desired)
    ensures forall i :: 0 <= i < |keys| ==> keys[i] in desired
  { }

  // ---------- every reachable state ----------

  /** What can happen: a worker finishes, a reconciliation in some order, or stopping them all. */
  datatype Event =
    | Finishes(i: nat)
    | Syncs(records: seq<Record>, keys: seq<string>, fp: Print, starts: Record -> bool)
    | Stops

  predicate Possible(s: State, e: Event) {
    match e
    case Finishes(i) => i < |s.handles|
    case Syncs(records, keys, _, _) => Order(keys, Desired(records))
    case Stops => true
  }

  /** stopAll: forget the workers, cancel them and wait for each to finish. */
  function StopAll(s: State): State
    requires Wf(s)
  {
    State(seq(|s.handles|, i requires 0 <= i < |s.handles| => Stopped(s, i)), map[])
  }

  function Stopped(s: State, i: nat): Handle
    requires i < |s.handles|
  {
    var h := s.handles[i];
    if h.key in s.workers && s.workers[h.key] == i then h.(cancelled := true, finished := true) else h
  }

  function After(s: State, e: Event): State
    requires Wf(s) && Possible(s, e)
  {
    match e
    case Finishes(i) => s.(handles := s.handles[i := s.handles[i].(finished := true)])
    case Syncs(records, keys, fp, starts) => Sync(s, records, keys, fp, starts).s
    case Stops => StopAll(s)
  }

  lemma EventOwned(s: State, e: Event)
    requires Owned(s) && Possible(s, e)
    ensures Owned(After(s, e))
  {
    match e
    case Finishes(i) =>
      var t := After(s, e);
      forall j | 0 <= j < |t.handles| ensures Accounted(t, j) { assert Accounted(s, j); }
    case Syncs(records, keys, fp, starts) => SyncExact(s, records, keys, fp, starts);
    case Stops =>
      var t := StopAll(s);
      forall j | 0 <= j < |t.handles| ensures Accounted(t, j) {
        assert Accounted(s, j);
        assert t.handles[j] == Stopped(s, j);
      }
  }

  ghost predicate IsRun(ss: seq<State>, events: seq<Event>) {
    && |ss| == |events| + 1 && ss[0] == State([], map[])
    && forall i :: 0 <= i < |events| ==> Wf(ss[i]) && Possible(ss[i], events[i]) && ss[i + 1] == After(ss[i], events[i])
  }

  /**
   * Whatever happens and however often starting fails, every handle ever started is in the map, cancelled or finished.
   */
  lemma {:induction false} NoneLost(ss: seq<State>, events: seq<Event>, n: nat)
    requires IsRun(ss, events) && n <= |events|
    ensures Owned(ss[n])
  {
    hide After, Possible, Owned;
    if n > 0 {
      NoneLost(ss, events, n - 1);
      EventOwned(ss[n - 1], events[n - 1]);
    } else {
      NewOwned();
    }
  }

  lemma NewOwned()
    ensures Owned(State([], map[]))
  { }

  // ---------- fingerprints that change during a call ----------

  predicate Running(s: State, k: string)
    requires Wf(s) && k in s.workers
  {
    !s.handles[s.workers[k]].cancelled && !s.handles[s.workers[k]].finished
  }

  /** The loop gets as far as its i-th key, and there starts a worker over one that runs with another fingerprint. */
  predicate Loses(s: State, keys: seq<string>, i: nat, desired: map<string, Record>, fp: Print, starts: Record -> bool)
    requires Wf(s) && forall j :: 0 <= j < |keys| ==> keys[j] in desired
  {
    && i < |keys|
    && (forall j :: 0 <= j <= i ==> HasWorker(s, keys[j], fp(desired[keys[j]])) || starts(desired[keys[j]]))
    && keys[i] in s.workers && !HasWorker(s, keys[i], fp(desired[keys[i]])) && Running(s, keys[i])
  }

  /** A handle that is lost stays lost. */
  lemma {:induction false} StaysLost(s: State, keys: seq<string>, desired: map<string, Record>, fp: Print,
                                     starts: Record -> bool)
    requires Wf(s) && !Owned(s) && forall i :: 0 <= i < |keys| ==> keys[i] in desired
    ensures !Owned(StartAll(s, keys, desired, fp, starts).s)
    decreases |keys|
  {
    if keys != [] {
      var k := keys[0];
      if HasWorker(s, k, fp(desired[k])) {
        StaysLost(s, keys[1..], desired, fp, starts);
      } else if starts(desired[k]) {
        var t := Start(s, k, fp(desired[k]));
        var i :| 0 <= i < |s.handles| && !Accounted(s, i);
        assert !Accounted(t, i);
        StaysLost(t, keys[1..], desired, fp, starts);
      }
    }
  }

  lemma {:induction false} StartAllOwnedIff(s: State, keys: seq<string>, desired: map<string, Record>, fp: Print,
                                            starts: Record -> bool)
    requires Owned(s) && forall i :: 0 <= i < |keys| ==> keys[i] in desired
    requires forall i, j :: 0 <= i < j < |keys| ==> keys[i] != keys[j]
    ensures Owned(StartAll(s, keys, desired, fp, starts).s) <==>
              !exists i: nat :: Loses(s, keys, i, desired, fp, starts)
    decreases |keys|
  {
    hide Owned;
    OwnedWf(s);
    if keys != [] {
      var k := keys[0];
      if HasWorker(s, k, fp(desired[k])) {
        StartAllOwnedIff(s, keys[1..], desired, fp, starts);
        LosesShift(s, s, keys, desired, fp, starts);
      } else if starts(desired[k]) {
        var t := Start(s, k, fp(desired[k]));
        StartOwnedIff(s, k, fp(desired[k]));
        if Owned(t) {
          StartAllOwnedIff(t, keys[1..], desired, fp, starts);
          LosesShift(s, t, keys, desired, fp, starts);
        } else {
          StaysLost(t, keys[1..], desired, fp, starts);
          assert Loses(s, keys, 0, desired, fp, starts);
        }
      }
    }
  }

  lemma OwnedWf(s: State)
    requires Owned(s)
    ensures Wf(s)
  { }

  lemma LosesNext(s: State, t: State, keys: seq<string>, i: nat, desired: map<string, Record>, fp: Print,
                  starts: Record -> bool)
    requires Wf(s) && keys != [] && forall i :: 0 <= i < |keys| ==> keys[i] in desired
    requires forall i, j :: 0 <= i < j < |keys| ==> keys[i] != keys[j]
    requires var k := keys[0];
             if HasWorker(s, k, fp(desired[k])) then t == s else starts(desired[k]) && t == Start(s, k, fp(desired[k]))
    ensures Wf(t)
    ensures Loses(s, keys, i + 1, desired, fp, starts) <==> Loses(t, keys[1..], i, desired, fp, starts)
  {
    if i + 1 < |keys| {
      forall j | 0 <= j <= i
        ensures HasWorker(t, keys[1..][j], fp(desired[keys[1..][j]]))
                == HasWorker(s, keys[j + 1], fp(desired[keys[j + 1]]))
      {
        assert keys[1..][j] == keys[j + 1] != keys[0];
      }
      assert keys[1..][i] == keys[i + 1];
      if Loses(t, keys[1..], i, desired, fp, starts) {
        forall j | 0 <= j <= i + 1 ensures HasWorker(s, keys[j], fp(desired[keys[j]])) || starts(desired[keys[j]]) {
          if j > 0 { assert keys[1..][j - 1] == keys[j]; }
        }
      }
    }
  }

  /** Beyond the first key, what the loop loses is told by the workers there were before. */
  lemma LosesShift(s: State, t: State, keys: seq<string>, desired: map<string, Record>, fp: Print,
                   starts: Record -> bool)
    requires Wf(s) && keys != [] && forall i :: 0 <= i < |keys| ==> keys[i] in desired
    requires forall i, j :: 0 <= i < j < |keys| ==> keys[i] != keys[j]
    requires var k := keys[0];
             if HasWorker(s, k, fp(desired[k])) then t == s else starts(desired[k]) && t == Start(s, k, fp(desired[k]))
    requires !Loses(s, keys, 0, desired, fp, starts)
    ensures Wf(t)
    ensures (exists i: nat :: Loses(s, keys, i, desired, fp, starts)) <==>
              exists i: nat :: Loses(t, keys[1..], i, desired, fp, starts)
  {
    hide Loses;
    forall i: nat ensures Loses(s, keys, i + 1, desired, fp, starts) <==> Loses(t, keys[1..], i, desired, fp, starts) {
      LosesNext(s, t, keys, i, desired, fp, starts);
    }
    if exists i: nat :: Loses(s, keys, i, desired, fp, starts) {
      var i: nat :| Loses(s, keys, i, desired, fp, starts);
      assert Loses(t, keys[1..], i - 1, desired, fp, starts);
    }
    if exists i: nat :: Loses(t, keys[1..], i, desired, fp, starts) {
      var i: nat :| Loses(t, keys[1..], i, desired, fp, starts);
      assert Loses(s, keys, i + 1, desired, fp, starts);
    }
  }

  /**
   * A reconciliation whose two looks may see different fingerprints keeps every handle accounted for exactly when its
   * second loop starts nothing over a worker the first one kept running.
   */
  lemma SyncOwnedIff(s: State, records: seq<Record>, keys: seq<string>, fp: Print, next: Print, starts: Record -> bool)
    requires Owned(s) && Order(keys, Desired(records))
    ensures Wf(Prune(Reap(s), Desired(records), fp))
    ensures Owned(SyncLooks(s, records, keys, fp, next, starts).s) <==>
            !exists i: nat :: Loses(Prune(Reap(s), Desired(records), fp), keys, i, Desired(records), next, starts)
  {
    hide Prune, Reap, Desired, StartAll, Owned, Loses;
    OwnedWf(s);
    ReapWf(s);
    ReapOwned(s);
    OwnedWf(Reap(s));
    PruneOwned(Reap(s), Desired(records), fp);
    PruneWf(Reap(s), Desired(records), fp);
    StartAllOwnedIff(Prune(Reap(s), Desired(records), fp), keys, Desired(records), next, starts);
  }

  const SEEN: Print := r => "x"
  const CHANGED: Print := r => "y"
  const STARTS: Record -> bool := r => true

  /**
   * The failing run: a worker started by one call is lost by the next, which sees first its fingerprint and then
   * another.
   */
  lemma UnstableLoses() returns (records: seq<Record>, keys: seq<string>, before: State)
    ensures Order(keys, Desired(records)) && before == Sync(State([], map[]), records, keys, SEEN, STARTS).s
    ensures Owned(before) && !Owned(SyncLooks(before, records, keys, SEEN, CHANGED, STARTS).s)
  {
    var k := "a:b";
    records, keys := [Record("a", "b", 0)], [k];
    assert WorkerKey(records[0]) == k;
    assert records[..0] == [] && keys[1..] == [];
    var d := map[k := records[0]];
    assert Desired([]) == map[];
    assert Desired(records) == d;
    before := FirstWorker(records[0]);
    var t := Start(before, k, "y");
    assert keys[1..] == [];
    ReapSame(before);
    PruneSame(before, d, SEEN);
    assert StartAll(before, keys, d, CHANGED, STARTS).s == StartAll(t, [], d, CHANGED, STARTS).s == t;
    assert !Accounted(t, 0);
  }

  lemma FirstWorker(r: Record) returns (s: State)
    ensures var d := map["a:b" := r];
            && Order(["a:b"], d) && s == StartAll(Prune(Reap(State([], map[])), d, SEEN), ["a:b"], d, SEEN, STARTS).s
            && s == State([Handle("a:b", "x", false, false)], map["a:b" := 0]) && Owned(s)
  {
    var d := map["a:b" := r];
    var none := State([], map[]);
    var keys := ["a:b"];
    assert keys[1..] == [];
    s := State([Handle("a:b", "x", false, false)], map["a:b" := 0]);
    assert Prune(Reap(none), d, SEEN) == none;
    assert StartAll(none, keys, d, SEEN, STARTS).s == s;
    assert Accounted(s, 0);
  }

  // ---------- keys ----------

  lemma {:induction false} DesiredHas(records: seq<Record>, i: nat)
    requires i < |records|
    ensures WorkerKey(records[i]) in Desired(records)
    ensures (forall j :: 0 <= j < |records| && WorkerKey(records[j]) == WorkerKey(records[i]) ==>
              records[j] == records[i]) ==>
              Desired(records)[WorkerKey(records[i])] == records[i]
  {
    if i < |records| - 1 { DesiredHas(records[..|records| - 1], i); }
  }

  /** Namespaces without ":" make keys tell agents apart. */
  lemma {:induction false} KeyInjective(a: Record, b: Record)
    requires ':' !in a.ns && ':' !in b.ns && WorkerKey(a) == WorkerKey(b)
    ensures a.ns == b.ns && a.id == b.id
    decreases |a.ns|
  {
    var k := WorkerKey(a);
    if a.ns == "" || b.ns == "" {
      assert k[0] == ':';
      assert k == ":" + a.id && k == ":" + b.id;
      assert k[1..] == a.id && k[1..] == b.id;
    } else {
      var c, d := a.(ns := a.ns[1..]), b.(ns := b.ns[1..]);
      assert k[1..] == WorkerKey(c) && k[1..] == WorkerKey(d);
      KeyInjective(c, d);
      assert a.ns == [k[0]] + c.ns && b.ns == [k[0]] + d.ns;
    }
  }

  ghost predicate Collide(n: string, m: string) {
    exists x: string, y: string :: WorkerKey(Record(n, x, 0)) == WorkerKey(Record(m, y, 0))
  }

  /** Agents of two namespaces can share a key exactly when one namespace is the other, a ":" and something more. */
  lemma CollideIff(n: string, m: string)
    requires n != m
    ensures Collide(n, m) <==> n + ":" <= m || m + ":" <= n
  {
    if n + ":" <= m { CollideBelow(n, m); }
    if m + ":" <= n {
      CollideBelow(m, n);
      var x: string, y: string :| WorkerKey(Record(m, x, 0)) == WorkerKey(Record(n, y, 0));
      assert WorkerKey(Record(n, y, 0)) == WorkerKey(Record(m, x, 0));
    }
    if Collide(n, m) {
      var x: string, y: string :| WorkerKey(Record(n, x, 0)) == WorkerKey(Record(m, y, 0));
      if |n| <= |m| { CollidePrefix(n, m, x, y); } else { CollidePrefix(m, n, y, x); }
    }
  }

  lemma CollidePrefix(n: string, m: string, x: string, y: string)
    requires n != m && |n| <= |m| && n + ":" + x == m + ":" + y
    ensures n + ":" <= m
  {
    var k := n + ":" + x;
    assert k[..|n|] == n && k[..|m|] == m && k[|n|] == ':';
    assert |n| < |m|;
    assert m[..|n| + 1] == k[..|m|][..|n| + 1] == k[..|n| + 1] == n + ":";
  }

  lemma CollideBelow(n: string, m: string)
    requires n + ":" <= m
    ensures Collide(n, m)
  {
    var r := m[|n| + 1..];
    assert m == n + ":" + r;
    assert n + ":" + (r + ":") == m + ":" + "";
    assert WorkerKey(Record(n, r + ":", 0)) == WorkerKey(Record(m, "", 0));
  }

  /** With a ":" in a namespace two agents can share a key. */
  lemma KeysCollide()
    ensures WorkerKey(Record("a:b", "c", 0)) == WorkerKey(Record("a", "b:c", 0))
  {
    assert "a:b" + ":" + "c" == "a" + ":" + "b:c";
  }

  ghost predicate KeysDiffer(records: seq<Record>) {
    forall j, k :: 0 <= j < |records| && 0 <= k < |records| && WorkerKey(records[j]) == WorkerKey(records[k]) ==>
      records[j] == records[k]
  }

  /**
   * When keys tell the runnable agents apart, a successful call leaves a worker with the right fingerprint for every
   * runnable agent.
   */
  lemma EveryAgentServed(s: State, records: seq<Record>, keys: seq<string>, fp: Print, starts: Record -> bool, i: nat)
    requires Owned(s) && Order(keys, Desired(records)) && !Sync(s, records, keys, fp, starts).failed && i < |records|
    requires KeysDiffer(records)
    ensures var r := Sync(s, records, keys, fp, starts).s;
            Wf(r) && HasWorker(r, WorkerKey(records[i]), fp(records[i]))
  {
    hide Sync, WorkerKey;
    SyncExact(s, records, keys, fp, starts);
    DesiredHas(records, i);
  }
}

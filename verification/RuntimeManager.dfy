/** The runtime manager's loops over its worker map. */
module RuntimeManager {
  import opened Basics
  import opened Reconcile
  import opened ReconcileLaws

  class Manager {
    var workers: map<string, nat>
    var handles: seq<Handle>

    constructor ()
      ensures Now() == State([], map[]) && Owned(Now())
    {
      workers, handles := map[], [];
    }

    function Now(): State
      reads this
    {
      State(handles, workers)
    }

    method ReapWorkers()
      requires Wf(Now())
      modifies this`workers
      ensures Now() == Reap(old(Now()))
      ensures forall k :: k in workers <==> k in old(workers) && !handles[old(workers)[k]].finished
      ensures forall k :: k in workers ==> workers[k] == old(workers)[k]
    {
      ghost var s := Now();
      var todo := workers.Keys;
      while todo != {}
        invariant todo <= s.workers.Keys && handles == s.handles
        invariant workers.Keys <= s.workers.Keys
        invariant forall k :: k in s.workers ==> (k in workers <==> k in todo || !handles[s.workers[k]].finished)
        invariant forall k :: k in workers ==> workers[k] == s.workers[k]
        decreases |todo|
      {
        var k :| k in todo;
        if handles[workers[k]].finished {
          workers := workers - {k};
        }
        todo := todo - {k};
      }
      assert workers == Reap(s).workers;
    }

    method DesiredOf(records: seq<Record>) returns (desired: map<string, Record>)
      ensures desired == Desired(records)
    {
      desired := map[];
      var i := 0;
      while i < |records|
        invariant 0 <= i <= |records| && desired == Desired(records[..i])
      {
        desired := desired[WorkerKey(records[i]) := records[i]];
        assert records[..i + 1][..i] == records[..i];
        i := i + 1;
      }
      assert records[..i] == records;
    }

    /** The loop over the workers there were: cancel and delete those to be replaced or no longer wanted. */
    method PruneWorkers(desired: map<string, Record>, fp: Print)
      requires Wf(Now())
      modifies this
      ensures Now() == Prune(old(Now()), desired, fp)
    {
      ghost var s := Now();
      var current := workers;
      var todo := current.Keys;
      while todo != {}
        invariant todo <= s.workers.Keys
        invariant Pruning(s, Now(), desired, fp, todo)
        decreases |todo|
      {
        var k :| k in todo;
        ghost var t := Now();
        PruningAt(s, t, desired, fp, todo, k);
        var h := current[k];
        if k !in desired || fp(desired[k]) != handles[h].fingerprint {
          handles := handles[h := Cancel(handles[h])];
          workers := workers - {k};
        }
        PruneOne(s, t, desired, fp, todo, k);
        todo := todo - {k};
      }
      PruningDone(s, Now(), desired, fp);
    }

    /** The loop over the desired records; `keys` is the order it took. */
    method StartMissing(desired: map<string, Record>, fp: Print, starts: Record -> bool)
      returns (failed: bool, ghost keys: seq<string>)
      requires Wf(Now())
      modifies this
      ensures Order(keys, desired) && StartAll(old(Now()), keys, desired, fp, starts) == Synced(Now(), failed)
    {
      hide Wf, StartAll;
      ghost var s := Now();
      ghost var done: seq<string> := [];
      var todo := desired.Keys;
      StartNone(s, desired, fp, starts);
      while todo != {}
        invariant Wf(Now()) && todo <= desired.Keys && Seen(done, todo, desired)
        invariant StartAll(s, done, desired, fp, starts) == Synced(Now(), false)
        decreases |todo|
      {
        var k :| k in todo;
        var record := desired[k];
        StartNext(s, done, k, desired, fp, starts);
        SeenStep(done, todo, desired, k);
        ghost var before := Now();
        todo, done := todo - {k}, done + [k];
        if !HasWorker(Now(), k, fp(record)) {
          if !starts(record) {
            keys := Rest(done, todo, desired);
            StartFailed(s, done, keys, desired, fp, starts);
            return true, keys;
          }
          StartWf(before, k, fp(record));
          workers, handles := workers[k := |handles|], handles + [Handle(k, fp(record), false, false)];
        }
      }
      SeenAll(done, desired);
      failed, keys := false, done;
    }

    method SyncOnce(records: seq<Record>, fp: Print, starts: Record -> bool)
      returns (failed: bool, ghost keys: seq<string>)
      requires Wf(Now())
      modifies this
      ensures Order(keys, Desired(records)) && Sync(old(Now()), records, keys, fp, starts) == Synced(Now(), failed)
      ensures Wf(Now()) && Workers(old(Now()), Now(), Desired(records), fp, starts)
      ensures Handles(old(Now()), Now(), Desired(records), fp)
      ensures !failed ==> workers.Keys == Desired(records).Keys
    {
      hide Workers, Handles, Order;
      ghost var s := Now();
      ReapWf(Now());
      ReapWorkers();
      var desired := DesiredOf(records);
      PruneWf(Now(), desired, fp);
      PruneWorkers(desired, fp);
      failed, keys := StartMissing(desired, fp, starts);
      SyncOutcome(s, records, keys, fp, starts);
      if !failed { SyncKeys(s, records, keys, fp, starts); }
    }

    /** stopAll; a cancelled worker is waited for until it is done. */
    method Stop()
      requires Wf(Now())
      modifies this
      ensures Now() == StopAll(old(Now()))
    {
      ghost var s := Now();
      var stopping := workers;
      workers := map[];
      var todo := stopping.Keys;
      while todo != {}
        invariant todo <= stopping.Keys && |handles| == |s.handles| && workers == map[]
        invariant forall i :: 0 <= i < |handles| ==>
                    handles[i] == (if s.handles[i].key in todo then s.handles[i] else Stopped(s, i))
        decreases |todo|
      {
        var k :| k in todo;
        var h := stopping[k];
        handles := handles[h := handles[h].(cancelled := true, finished := true)];
        todo := todo - {k};
      }
      assert handles == StopAll(s).handles;
    }
  }

  /** Part way through pruning: what is still to be looked at is as it was. */
  ghost predicate Pruning(s: State, t: State, desired: map<string, Record>, fp: Print, todo: set<string>)
    requires Wf(s)
  {
    && |t.handles| == |s.handles|
    && (forall i :: 0 <= i < |s.handles| ==>
          t.handles[i] == (if s.handles[i].key in todo then s.handles[i] else Pruned(s, desired, fp, i)))
    && t.workers.Keys <= s.workers.Keys
    && (forall k :: k in s.workers ==> (k in t.workers <==> k in todo || Keep(s, k, desired, fp)))
    && (forall k :: k in t.workers ==> t.workers[k] == s.workers[k])
  }

  lemma PruningAt(s: State, t: State, desired: map<string, Record>, fp: Print, todo: set<string>, k: string)
    requires Wf(s) && Pruning(s, t, desired, fp, todo) && k in todo && k in s.workers
    ensures s.workers[k] < |t.handles| && t.handles[s.workers[k]] == s.handles[s.workers[k]]
  { }

  /** One key of the loop: dropped with its handle cancelled, or kept. */
  lemma PruneOne(s: State, t: State, desired: map<string, Record>, fp: Print, todo: set<string>, k: string)
    requires Wf(s) && Pruning(s, t, desired, fp, todo) && k in todo && k in s.workers
    ensures Pruning(s, if Keep(s, k, desired, fp) then t
                       else State(t.handles[s.workers[k] := Cancel(t.handles[s.workers[k]])], t.workers - {k}),
                    desired, fp, todo - {k})
  {
    forall i | 0 <= i < |s.handles| && s.handles[i].key == k && i != s.workers[k]
      ensures Pruned(s, desired, fp, i) == s.handles[i]
    { }
  }

  lemma PruningDone(s: State, t: State, desired: map<string, Record>, fp: Print)
    requires Wf(s) && Pruning(s, t, desired, fp, {})
    ensures t == Prune(s, desired, fp)
  {
    var p := Prune(s, desired, fp);
    assert t.handles == p.handles;
    assert t.workers == p.workers;
  }

  // ---------- the order of a loop over a map ----------

  ghost predicate Seen(done: seq<string>, todo: set<string>, desired: map<string, Record>) {
    && (forall i :: 0 <= i < |done| ==> done[i] in desired && done[i] !in todo)
    && (forall i, j :: 0 <= i < j < |done| ==> done[i] != done[j])
    && (forall k :: k in desired ==> k in todo || k in done)
  }

  lemma SeenStep(done: seq<string>, todo: set<string>, desired: map<string, Record>, k: string)
    requires Seen(done, todo, desired) && k in todo && k in desired
    ensures Seen(done + [k], todo - {k}, desired)
  { }

  lemma SeenAll(done: seq<string>, desired: map<string, Record>)
    requires Seen(done, {}, desired)
    ensures Order(done, desired)
  { }

  /** Some order for what a loop left early did not come to. */
  ghost function Rest(done: seq<string>, todo: set<string>, desired: map<string, Record>): (keys: seq<string>)
    requires Seen(done, todo, desired) && todo <= desired.Keys
    ensures Order(keys, desired) && |done| <= |keys| && keys[..|done|] == done
    decreases |todo|
  {
    if todo == {} then SeenAll(done, desired); done
    else
      var k :| k in todo;
      SeenStep(done, todo, desired, k);
      assert forall r: seq<string> :: |done + [k]| <= |r| && r[..|done| + 1] == done + [k] ==> r[..|done|] == done by {
        forall r: seq<string> | |done + [k]| <= |r| && r[..|done| + 1] == done + [k] ensures r[..|done|] == done {
          assert r[..|done|] == r[..|done| + 1][..|done|];
        }
      }
      Rest(done + [k], todo - {k}, desired)
  }

  lemma StartWf(s: State, k: string, fingerprint: string)
    requires Wf(s)
    ensures Wf(Start(s, k, fingerprint))
  { }

  /** Going on with one more key. */
  lemma {:induction false} StartNext(s: State, done: seq<string>, k: string, desired: map<string, Record>, fp: Print,
                                     starts: Record -> bool)
    requires Wf(s) && k in desired && (forall i :: 0 <= i < |done| ==> done[i] in desired)
    requires !StartAll(s, done, desired, fp, starts).failed
    ensures Wf(StartAll(s, done, desired, fp, starts).s)
    ensures var t := StartAll(s, done, desired, fp, starts).s;
            StartAll(s, done + [k], desired, fp, starts)
            == if HasWorker(t, k, fp(desired[k])) then Synced(t, false)
               else if !starts(desired[k]) then Synced(t, true)
               else Synced(Start(t, k, fp(desired[k])), false)
    decreases |done|
  {
    if done == [] {
      assert (done + [k])[1..] == [];
      StartOne(s, k, desired, fp, starts);
      assert done + [k] == [k];
    } else {
      assert (done + [k])[1..] == done[1..] + [k];
      var j := done[0];
      StartWf(s, j, fp(desired[j]));
      var t := if HasWorker(s, j, fp(desired[j])) then s else Start(s, j, fp(desired[j]));
      StartNext(t, done[1..], k, desired, fp, starts);
    }
  }

  lemma StartNone(s: State, desired: map<string, Record>, fp: Print, starts: Record -> bool)
    requires Wf(s)
    ensures StartAll(s, [], desired, fp, starts) == Synced(s, false)
  { }

  lemma StartOne(s: State, k: string, desired: map<string, Record>, fp: Print, starts: Record -> bool)
    requires Wf(s) && k in desired
    ensures StartAll(s, [k], desired, fp, starts)
            == if HasWorker(s, k, fp(desired[k])) then Synced(s, false)
               else if !starts(desired[k]) then Synced(s, true)
               else Synced(Start(s, k, fp(desired[k])), false)
  {
    assert [k][1..] == [];
  }

  /** What a failed start leaves does not depend on the keys after it. */
  lemma {:induction false} StartFailed(s: State, done: seq<string>, keys: seq<string>, desired: map<string, Record>,
                                       fp: Print, starts: Record -> bool)
    requires Wf(s) && (forall i :: 0 <= i < |keys| ==> keys[i] in desired) && |done| <= |keys| && keys[..|done|] == done
    requires forall i :: 0 <= i < |done| ==> done[i] in desired
    requires StartAll(s, done, desired, fp, starts).failed
    ensures StartAll(s, keys, desired, fp, starts) == StartAll(s, done, desired, fp, starts)
    decreases |done|
  {
    assert done != [];
    assert keys[0] == keys[..|done|][0] == done[0];
    assert keys[1..][..|done| - 1] == keys[..|done|][1..] == done[1..];
    var k := done[0];
    if HasWorker(s, k, fp(desired[k])) {
      StartFailed(s, done[1..], keys[1..], desired, fp, starts);
    } else if starts(desired[k]) {
      StartWf(s, k, fp(desired[k]));
      StartFailed(Start(s, k, fp(desired[k])), done[1..], keys[1..], desired, fp, starts);
    }
  }
}

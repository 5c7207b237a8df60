/** What a reconciliation leaves: which workers stay, which are started, and what becomes of every handle. */
module ReconcileLaws {
  import opened Basics
  import opened Reconcile

  /** The records by key, a key being namespace, ":" and id; of records that share one the last counts. */
  lemma {:induction false} DesiredIs(records: seq<Record>, k: string)
    ensures k in Desired(records) <==> exists i :: 0 <= i < |records| && records[i].ns + ":" + records[i].id == k
    ensures k in Desired(records) ==>
              exists i :: 0 <= i < |records| && records[i].ns + ":" + records[i].id == k
                          && Desired(records)[k] == records[i]
                          && forall j :: i < j < |records| ==> records[j].ns + ":" + records[j].id != k
    decreases |records|
  {
    if records != [] {
      var n := |records| - 1;
      DesiredIs(records[..n], k);
      if records[n].ns + ":" + records[n].id != k && k in Desired(records) {
        var i :| 0 <= i < n && records[..n][i].ns + ":" + records[..n][i].id == k
            && Desired(records[..n])[k] == records[i]
            && forall j :: i < j < n ==> records[..n][j].ns + ":" + records[..n][j].id != k;
        assert records[i].ns + ":" + records[i].id == k;
        forall j | i < j < |records| ensures records[j].ns + ":" + records[j].id != k {
          if j < n { assert records[..n][j] == records[j]; }
        }
      }
      if i :| 0 <= i < |records| && records[i].ns + ":" + records[i].id == k {
        if i < n { assert records[..n][i].ns + ":" + records[..n][i].id == k; }
      }
    }
  }

  /** A worker that stays: not finished, wanted, and started with the fingerprint its record has. */
  ghost predicate Stays(s: State, d: map<string, Record>, fp: Print, k: string)
    requires Wf(s)
  {
    && k in s.workers && k in d && !s.handles[s.workers[k]].finished
    && s.handles[s.workers[k]].fingerprint == fp(d[k])
  }

  /** The handle at i is in the map and running, but not to stay. */
  ghost predicate Ousted(s: State, d: map<string, Record>, fp: Print, i: nat)
    requires Wf(s) && i < |s.handles|
  {
    var h := s.handles[i];
    h.key in s.workers && s.workers[h.key] == i && !h.finished && !Stays(s, d, fp, h.key)
  }

  /** No start fails for the first i keys in order that need one. */
  ghost predicate Reached(s: State, d: map<string, Record>, fp: Print, starts: Record -> bool, keys: seq<string>,
                          i: nat)
    requires Wf(s) && i <= |keys|
  {
    forall j :: 0 <= j < i ==> Stays(s, d, fp, keys[j]) || (keys[j] in d && starts(d[keys[j]]))
  }

  lemma PruneIs(s: State, d: map<string, Record>, fp: Print)
    requires Wf(s)
    ensures Wf(Reap(s)) && Wf(Prune(Reap(s), d, fp))
    ensures var t := Prune(Reap(s), d, fp);
            && |t.handles| == |s.handles|
            && (forall i :: 0 <= i < |s.handles| ==>
                  t.handles[i] == if Ousted(s, d, fp, i) then s.handles[i].(cancelled := true) else s.handles[i])
            && (forall k :: k in t.workers <==> Stays(s, d, fp, k))
            && forall k :: k in t.workers ==> k in s.workers && t.workers[k] == s.workers[k]
  {
    ReapWf(s);
    PruneWf(Reap(s), d, fp);
    var t := Prune(Reap(s), d, fp);
    forall i | 0 <= i < |s.handles|
      ensures t.handles[i] == if Ousted(s, d, fp, i) then s.handles[i].(cancelled := true) else s.handles[i]
    {
      assert t.handles[i] == Pruned(Reap(s), d, fp, i);
    }
  }

  /** The second loop only adds: workers it finds stay, and each handle it adds is its key's worker. */
  ghost predicate Grew(t: State, u: State, d: map<string, Record>, fp: Print, starts: Record -> bool)
    requires Wf(t) && Wf(u)
  {
    && |t.handles| <= |u.handles| && (forall i :: 0 <= i < |t.handles| ==> u.handles[i] == t.handles[i])
    && (forall k :: k in t.workers ==> k in u.workers && u.workers[k] == t.workers[k])
    && (forall k :: k in u.workers && k !in t.workers ==>
          && k in d && starts(d[k]) && u.workers[k] >= |t.handles|
          && u.handles[u.workers[k]] == Handle(k, fp(d[k]), false, false))
    && forall i :: |t.handles| <= i < |u.handles| ==>
         u.handles[i].key in u.workers && u.handles[i].key !in t.workers && u.workers[u.handles[i].key] == i
  }

  /** It comes as far as the first key that needs a start and gets none. */
  ghost predicate Covers(t: State, r: Synced, keys: seq<string>, d: map<string, Record>, starts: Record -> bool) {
    && (forall i :: 0 <= i < |keys| ==>
          (keys[i] in r.s.workers <==> keys[i] in t.workers || AllFine(t, d, starts, keys, i + 1)))
    && (forall k :: k in r.s.workers ==> k in t.workers || k in keys)
    && (r.failed <==> !AllFine(t, d, starts, keys, |keys|))
  }

  ghost predicate Started(t: State, r: Synced, keys: seq<string>, d: map<string, Record>, fp: Print,
                          starts: Record -> bool)
    requires Wf(t) && Wf(r.s)
  {
    Grew(t, r.s, d, fp, starts) && Covers(t, r, keys, d, starts)
  }

  ghost predicate AllFine(t: State, d: map<string, Record>, starts: Record -> bool, keys: seq<string>, i: nat)
    requires i <= |keys|
  {
    forall j :: 0 <= j < i ==> keys[j] in t.workers || (keys[j] in d && starts(d[keys[j]]))
  }

  lemma {:induction false} StartAllIs(t: State, keys: seq<string>, d: map<string, Record>, fp: Print,
                                      starts: Record -> bool)
    requires Wf(t) && Current(t, d, fp) && (forall i :: 0 <= i < |keys| ==> keys[i] in d)
    requires forall i, j :: 0 <= i < j < |keys| ==> keys[i] != keys[j]
    ensures Wf(StartAll(t, keys, d, fp, starts).s)
    ensures Started(t, StartAll(t, keys, d, fp, starts), keys, d, fp, starts)
    decreases |keys|
  {
    hide Started;
    if keys == [] {
      StartedNone(t, d, fp, starts);
      assert keys == [];
    } else {
      var k := keys[0];
      if k in t.workers {
        StartAllIs(t, keys[1..], d, fp, starts);
        StartedSkip(t, StartAll(t, keys[1..], d, fp, starts), keys, d, fp, starts);
      } else if starts(d[k]) {
        StartAllIs(Start(t, k, fp(d[k])), keys[1..], d, fp, starts);
        StartedMore(t, StartAll(Start(t, k, fp(d[k])), keys[1..], d, fp, starts), keys, d, fp, starts);
      } else {
        StartedStop(t, keys, d, fp, starts);
      }
    }
  }

  lemma StartedNone(t: State, d: map<string, Record>, fp: Print, starts: Record -> bool)
    requires Wf(t)
    ensures Started(t, Synced(t, false), [], d, fp, starts)
  { }

  lemma StartedStop(t: State, keys: seq<string>, d: map<string, Record>, fp: Print, starts: Record -> bool)
    requires Wf(t) && keys != [] && keys[0] in d && keys[0] !in t.workers && !starts(d[keys[0]])
    ensures Started(t, Synced(t, true), keys, d, fp, starts)
  { }

  lemma FineTail(t: State, u: State, d: map<string, Record>, starts: Record -> bool, keys: seq<string>, i: nat)
    requires 0 < i <= |keys| && (keys[0] in t.workers || (keys[0] in d && starts(d[keys[0]])))
    requires forall j :: 0 < j < |keys| ==> (keys[j] in u.workers <==> keys[j] in t.workers)
    ensures AllFine(t, d, starts, keys, i) <==> AllFine(u, d, starts, keys[1..], i - 1)
  {
    if AllFine(u, d, starts, keys[1..], i - 1) {
      forall j | 0 <= j < i ensures keys[j] in t.workers || (keys[j] in d && starts(d[keys[j]])) {
        if j > 0 { assert keys[1..][j - 1] == keys[j]; }
      }
    }
  }

  lemma StartedSkip(t: State, r: Synced, keys: seq<string>, d: map<string, Record>, fp: Print, starts: Record -> bool)
    requires Wf(t) && Wf(r.s) && keys != [] && keys[0] in t.workers && Started(t, r, keys[1..], d, fp, starts)
    ensures Started(t, r, keys, d, fp, starts)
  {
    hide AllFine;
    forall i | 0 < i <= |keys| ensures AllFine(t, d, starts, keys, i) <==> AllFine(t, d, starts, keys[1..], i - 1) {
      FineTail(t, t, d, starts, keys, i);
    }
    forall i | 0 <= i < |keys|
      ensures keys[i] in r.s.workers <==> keys[i] in t.workers || AllFine(t, d, starts, keys, i + 1)
    {
      if i > 0 { assert keys[1..][i - 1] == keys[i]; }
    }
  }

  lemma GrewMore(t: State, v: State, k: string, d: map<string, Record>, fp: Print, starts: Record -> bool)
    requires Wf(t) && k in d && k !in t.workers && starts(d[k])
    requires Wf(Start(t, k, fp(d[k]))) && Wf(v) && Grew(Start(t, k, fp(d[k])), v, d, fp, starts)
    ensures Grew(t, v, d, fp, starts)
  {
    hide Wf;
    var u := Start(t, k, fp(d[k]));
    var n := |t.handles|;
    assert v.handles[n] == u.handles[n] == Handle(k, fp(d[k]), false, false);
    forall i | 0 <= i < n ensures v.handles[i] == t.handles[i] {
      assert v.handles[i] == u.handles[i];
    }
  }

  lemma CoversMore(t: State, u: State, r: Synced, keys: seq<string>, d: map<string, Record>, starts: Record -> bool)
    requires keys != [] && keys[0] in d && keys[0] !in t.workers && starts(d[keys[0]])
    requires forall j :: 0 < j < |keys| ==> keys[j] != keys[0]
    requires u.workers.Keys == t.workers.Keys + {keys[0]} && keys[0] in r.s.workers
    requires Covers(u, r, keys[1..], d, starts)
    ensures Covers(t, r, keys, d, starts)
  {
    hide AllFine;
    forall i | 0 < i <= |keys| ensures AllFine(t, d, starts, keys, i) <==> AllFine(u, d, starts, keys[1..], i - 1) {
      FineTail(t, u, d, starts, keys, i);
    }
    forall i | 0 <= i < |keys|
      ensures keys[i] in r.s.workers <==> keys[i] in t.workers || AllFine(t, d, starts, keys, i + 1)
    {
      if i > 0 { assert keys[1..][i - 1] == keys[i]; } else { FineNone(u, d, starts, keys[1..]); }
    }
  }

  lemma StartedMore(t: State, r: Synced, keys: seq<string>, d: map<string, Record>, fp: Print, starts: Record -> bool)
    requires Wf(t) && keys != [] && keys[0] in d && keys[0] !in t.workers && starts(d[keys[0]])
    requires forall j :: 0 < j < |keys| ==> keys[j] != keys[0]
    requires Wf(Start(t, keys[0], fp(d[keys[0]]))) && Wf(r.s)
    requires Started(Start(t, keys[0], fp(d[keys[0]])), r, keys[1..], d, fp, starts)
    ensures Started(t, r, keys, d, fp, starts)
  {
    hide Covers, AllFine;
    var u := Start(t, keys[0], fp(d[keys[0]]));
    GrewMore(t, r.s, keys[0], d, fp, starts);
    CoversMore(t, u, r, keys, d, starts);
  }

  lemma FineNone(t: State, d: map<string, Record>, starts: Record -> bool, keys: seq<string>)
    ensures AllFine(t, d, starts, keys, 0)
  { }

  /** Whatever was in the map and stays keeps its very handle; every other key in it has one just started. */
  ghost predicate Workers(s: State, t: State, d: map<string, Record>, fp: Print, starts: Record -> bool)
    requires Wf(s) && Wf(t)
  {
    && (forall k :: Stays(s, d, fp, k) ==> k in t.workers && t.workers[k] == s.workers[k])
    && (forall k :: k in t.workers && !Stays(s, d, fp, k) ==>
          && k in d && starts(d[k]) && t.workers[k] >= |s.handles|
          && t.handles[t.workers[k]] == Handle(k, fp(d[k]), false, false))
    && forall k :: k in t.workers ==> !t.handles[t.workers[k]].finished
  }

  /** Handles there were are cancelled exactly if they ran and do not stay; new ones are in the map. */
  ghost predicate Handles(s: State, t: State, d: map<string, Record>, fp: Print)
    requires Wf(s)
  {
    && |s.handles| <= |t.handles|
    && (forall i :: 0 <= i < |s.handles| ==>
          t.handles[i] == if Ousted(s, d, fp, i) then s.handles[i].(cancelled := true) else s.handles[i])
    && forall i :: |s.handles| <= i < |t.handles| ==> t.handles[i].key in t.workers && t.workers[t.handles[i].key] == i
  }

  /**
   * A reconciliation: finished workers leave the map, and so do running ones that are not to stay, which are
   * cancelled; what is wanted and not there is started, in order, until a start fails, and it fails exactly when one
   * does. No worker left in the map has finished.
   */
  lemma SyncOutcome(s: State, records: seq<Record>, keys: seq<string>, fp: Print, starts: Record -> bool)
    requires Wf(s) && Order(keys, Desired(records))
    ensures var d, r := Desired(records), Sync(s, records, keys, fp, starts);
            && Wf(r.s) && Workers(s, r.s, d, fp, starts) && Handles(s, r.s, d, fp)
            && (forall k :: k in r.s.workers <==>
                  || Stays(s, d, fp, k)
                  || exists i :: 0 <= i < |keys| && keys[i] == k && Reached(s, d, fp, starts, keys, i + 1))
            && (r.failed <==> exists k :: k in d && !Stays(s, d, fp, k) && !starts(d[k]))
  {
    hide Prune, Reap, Desired, StartAll, Ousted, Stays, Workers, Handles, AllFine, Reached, Grew;
    var d := Desired(records);
    PruneIs(s, d, fp);
    PruneCurrent(Reap(s), d, fp);
    var t := Prune(Reap(s), d, fp);
    StartAllIs(t, keys, d, fp, starts);
    var r := Sync(s, records, keys, fp, starts);
    forall i | 0 <= i <= |keys| ensures AllFine(t, d, starts, keys, i) <==> Reached(s, d, fp, starts, keys, i) {
      SameFine(s, t, d, fp, starts, keys, i);
    }
    AllReached(s, d, fp, starts, keys);
    GrewWorkers(s, t, r.s, d, fp, starts);
  }

  lemma SameFine(s: State, t: State, d: map<string, Record>, fp: Print, starts: Record -> bool, keys: seq<string>,
                 i: nat)
    requires Wf(s) && i <= |keys| && forall k :: k in t.workers <==> Stays(s, d, fp, k)
    ensures AllFine(t, d, starts, keys, i) <==> Reached(s, d, fp, starts, keys, i)
  { }

  lemma AllReached(s: State, d: map<string, Record>, fp: Print, starts: Record -> bool, keys: seq<string>)
    requires Wf(s) && Order(keys, d)
    ensures Reached(s, d, fp, starts, keys, |keys|) <==> forall k :: k in d ==> Stays(s, d, fp, k) || starts(d[k])
    ensures forall k :: Stays(s, d, fp, k) ==> k in keys
  {
    hide Stays;
    forall k | Stays(s, d, fp, k) ensures k in keys { StaysRuns(s, d, fp, k); }
  }

  lemma GrewWorkers(s: State, t: State, u: State, d: map<string, Record>, fp: Print, starts: Record -> bool)
    requires Wf(s) && Wf(t) && Wf(u) && Grew(t, u, d, fp, starts) && |t.handles| == |s.handles|
    requires forall i :: 0 <= i < |s.handles| ==>
               t.handles[i] == if Ousted(s, d, fp, i) then s.handles[i].(cancelled := true) else s.handles[i]
    requires forall k :: k in t.workers <==> Stays(s, d, fp, k)
    requires forall k :: k in t.workers ==> k in s.workers && t.workers[k] == s.workers[k]
    ensures Workers(s, u, d, fp, starts) && Handles(s, u, d, fp)
  {
    hide Ousted, Stays;
    forall k | k in u.workers ensures !u.handles[u.workers[k]].finished {
      if k in t.workers { StaysRuns(s, d, fp, k); }
    }
  }

  lemma StaysRuns(s: State, d: map<string, Record>, fp: Print, k: string)
    requires Wf(s) && Stays(s, d, fp, k)
    ensures k in s.workers && k in d && !s.handles[s.workers[k]].finished && !Ousted(s, d, fp, s.workers[k])
  { }

  /** After a successful call the keys with a worker are the wanted ones. */
  lemma SyncKeys(s: State, records: seq<Record>, keys: seq<string>, fp: Print, starts: Record -> bool)
    requires Wf(s) && Order(keys, Desired(records)) && !Sync(s, records, keys, fp, starts).failed
    ensures Sync(s, records, keys, fp, starts).s.workers.Keys == Desired(records).Keys
  {
    hide Sync, Desired, Workers, Handles, Stays;
    SyncOutcome(s, records, keys, fp, starts);
    var d := Desired(records);
    forall i | 0 <= i < |keys| ensures keys[i] in Sync(s, records, keys, fp, starts).s.workers {
      assert Reached(s, d, fp, starts, keys, i + 1);
    }
    forall k | Stays(s, d, fp, k) ensures k in d { StaysRuns(s, d, fp, k); }
  }

  /** A wanted key whose worker had finished has, after a successful call, one just started. */
  lemma FinishedRestarts(s: State, records: seq<Record>, keys: seq<string>, fp: Print, starts: Record -> bool,
                         k: string)
    requires Wf(s) && Order(keys, Desired(records)) && !Sync(s, records, keys, fp, starts).failed
    requires k in s.workers && s.handles[s.workers[k]].finished && k in Desired(records)
    ensures var t := Sync(s, records, keys, fp, starts).s;
            && k in t.workers && |s.handles| <= t.workers[k] < |t.handles|
            && t.handles[t.workers[k]] == Handle(k, fp(Desired(records)[k]), false, false)
  {
    hide Sync, Desired, Handles;
    SyncOutcome(s, records, keys, fp, starts);
    var i :| 0 <= i < |keys| && keys[i] == k;
    forall j | 0 <= j < i + 1
      ensures Stays(s, Desired(records), fp, keys[j]) || starts(Desired(records)[keys[j]])
    { }
    assert Reached(s, Desired(records), fp, starts, keys, i + 1);
  }

  /** Stopping forgets every worker and leaves each cancelled and finished; other handles are as they were. */
  lemma StopOutcome(s: State)
    requires Wf(s)
    ensures var t := StopAll(s);
            && t.workers == map[] && |t.handles| == |s.handles|
            && forall i :: 0 <= i < |s.handles| ==>
                 var h := s.handles[i];
                 t.handles[i] == if h.key in s.workers && s.workers[h.key] == i
                                 then Handle(h.key, h.fingerprint, true, true) else h
  { }
}

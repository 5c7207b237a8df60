/** When attempts stay within the limit, over every history, and the histories in which they do not. */
module MailboxLimits {
  import opened Basics
  import opened MailboxRows
  import opened MailboxRuns
  import opened MailboxWorkers

  ghost predicate AllWithin(db: Db) {
    forall k :: k in db.messages ==> Within(db.messages[k])
  }

  /** The act claims a message whose lease ran out on its last attempt. */
  ghost predicate ClaimsExpired(s: State, a: Act) {
    a.Claim? && a.k in s.db.messages && s.db.messages[a.k].status == Leased && AtLimit(s.db.messages[a.k])
  }

  /** The act handles a failed result whose trigger says that attempts are left, where the message has none. */
  ghost predicate RetriesAtLimit(s: State, a: Act, k: Key) {
    && a.Handle? && ContextOf(a.meta).Some? && KeyOf(a.meta) == k
    && k in s.db.messages && AtLimit(s.db.messages[k]) && Key(k.ns, ContextOf(a.meta).value.run) in s.db.runs
    && a.o.status != FINISHED && !Exhausted(a.meta)
    && forall i :: 0 <= i < |a.o.outbox| ==> GoodEntry(a.o.outbox[i])
  }

  /** The act claims or completes the message. */
  ghost predicate Touches(s: State, a: Act, k: Key) {
    StepOf(a).Some? && (ClaimOf(StepOf(a).value, k) || CompletionOf(s.db, StepOf(a).value, k))
  }

  /** Act h put the message back without an attempt left, and nothing has touched it up to n. */
  ghost predicate RetriedAt(ss: seq<State>, acts: seq<Act>, h: nat, n: nat, k: Key)
    requires |ss| == |acts| + 1 && n <= |acts|
  {
    h < n && RetriesAtLimit(ss[h], acts[h], k) && forall g :: h < g < n ==> !Touches(ss[g], acts[g], k)
  }

  /** The act claims a message that was put back so. */
  ghost predicate ClaimsRetried(ss: seq<State>, acts: seq<Act>, n: nat)
    requires |ss| == |acts| + 1 && n < |acts|
  {
    acts[n].Claim? && exists h: nat :: RetriedAt(ss, acts, h, n, acts[n].k)
  }

  // ---------- one act ----------

  lemma UntouchedRow(s: State, a: Act, k: Key)
    requires CanAct(s, a) && k in s.db.messages && !Touches(s, a, k)
    ensures k in After(s, a).db.messages && After(s, a).db.messages[k] == s.db.messages[k]
  {
    hide Apply, Enabled, CompletionOf;
    if StepOf(a).Some? { StepRow(s.db, StepOf(a).value, k); }
  }

  lemma ClaimedRow(s: State, a: Act)
    requires CanAct(s, a) && a.Claim?
    ensures a.k in s.db.messages && Claimable(s.db.messages[a.k], Millis(a.now)) && a.k in After(s, a).db.messages
    ensures After(s, a).db.messages[a.k] == LeasedRow(s.db.messages[a.k], a.now, a.owner, a.duration, a.run)
  {
    hide Apply, Best, Eligible, Claimable, LeasedRow;
    BestClaimable(s.db, a.ns, a.agent, Millis(a.now), a.k);
    StepRow(s.db, StepOf(a).value, a.k);
  }

  /** A completion of a message at its limit puts it back exactly when it is such a late retry. */
  lemma CompletedRow(s: State, a: Act, k: Key)
    requires CanAct(s, a) && !a.Claim? && Touches(s, a, k)
    ensures k in s.db.messages && k in After(s, a).db.messages
    ensures After(s, a).db.messages[k].attempts == s.db.messages[k].attempts
    ensures After(s, a).db.messages[k].maxAttempts == s.db.messages[k].maxAttempts
    ensures AtLimit(s.db.messages[k]) && After(s, a).db.messages[k].status == Queued ==> RetriesAtLimit(s, a, k)
  {
    hide Apply, Decide, ContextOf, MetaInt;
    StepRow(s.db, StepOf(a).value, k);
    Decided(a.meta, a.h, a.o);
    Retry(a.meta, a.h, a.o);
  }

  lemma Retry(meta: Meta, h: Handling, o: Outcome)
    requires Decide(meta, h, o).Some?
    ensures forall i :: 0 <= i < |o.outbox| ==> GoodEntry(o.outbox[i])
    ensures var p := Decide(meta, h, o).value; p.deadReason == "" && p.retryAt.Some? ==>
              o.status != FINISHED && !Exhausted(meta)
  {
    hide ContextOf, MetaInt;
    NotEmpty("message exhausted retries after result status ", o.status);
  }

  lemma RetriedRow(s: State, a: Act, k: Key)
    requires CanAct(s, a) && RetriesAtLimit(s, a, k)
    ensures k in After(s, a).db.messages && After(s, a).db.messages[k].status == Queued
              && AtLimit(After(s, a).db.messages[k])
  {
    hide Apply, MetaInt;
    StepRow(s.db, StepOf(a).value, k);
  }

  lemma NewWithin(s: State, a: Act, k: Key)
    requires CanAct(s, a) && k !in s.db.messages && k in After(s, a).db.messages
    ensures Within(After(s, a).db.messages[k]) && !AtLimit(After(s, a).db.messages[k])
  {
    hide Apply, Enabled;
    NewRow(s.db, StepOf(a).value, k);
  }

  /** The limit is kept unless a message without an attempt left is claimed. */
  lemma StepWithin(s: State, a: Act)
    requires CanAct(s, a) && AllWithin(s.db)
    ensures AllWithin(After(s, a).db) <==> !(a.Claim? && a.k in s.db.messages && AtLimit(s.db.messages[a.k]))
  {
    hide After, CanAct, LeasedRow, Touches, RetriesAtLimit;
    if a.Claim? {
      ClaimedRow(s, a);
      ClaimBoundIff(s.db.messages[a.k], a.now, a.owner, a.duration, a.run);
    }
    forall k | k in After(s, a).db.messages && !(a.Claim? && k == a.k) ensures Within(After(s, a).db.messages[k]) {
      if k !in s.db.messages {
        NewWithin(s, a, k);
      } else if !Touches(s, a, k) {
        UntouchedRow(s, a, k);
      } else {
        ClaimTouches(s, a, k);
        CompletedRow(s, a, k);
      }
    }
  }

  lemma ClaimTouches(s: State, a: Act, k: Key)
    requires Touches(s, a, k)
    ensures a.Claim? ==> a.k == k
  { }

  // ---------- histories ----------

  /** A queued message without an attempt left was put back by a late retry. */
  lemma {:induction false} QueuedAtLimit(ss: seq<State>, acts: seq<Act>, n: nat, k: Key) returns (h: nat)
    requires IsHistory(ss, acts) && ss[0].db.messages == map[] && n <= |acts|
    requires k in ss[n].db.messages && ss[n].db.messages[k].status == Queued && AtLimit(ss[n].db.messages[k])
    ensures RetriedAt(ss, acts, h, n, k)
  {
    hide After, CanAct, RetriesAtLimit, Touches, AtLimit;
    var s, a := ss[n - 1], acts[n - 1];
    assert CanAct(s, a) && ss[n] == After(s, a);
    if k !in s.db.messages {
      NewWithin(s, a, k);
    } else if Touches(s, a, k) {
      QueuedNotClaimed(s, a, k);
      CompletedRow(s, a, k);
      SameLimit(s.db.messages[k], ss[n].db.messages[k]);
      h := n - 1;
    } else {
      UntouchedRow(s, a, k);
      h := QueuedAtLimit(ss, acts, n - 1, k);
    }
  }

  lemma SameLimit(m: Msg, n: Msg)
    requires m.attempts == n.attempts && m.maxAttempts == n.maxAttempts
    ensures AtLimit(m) == AtLimit(n)
  { }

  lemma QueuedNotClaimed(s: State, a: Act, k: Key)
    requires CanAct(s, a) && Touches(s, a, k) && k in After(s, a).db.messages
              && After(s, a).db.messages[k].status == Queued
    ensures !a.Claim?
  {
    if a.Claim? { ClaimedRow(s, a); }
  }

  lemma {:induction false} StaysRetried(ss: seq<State>, acts: seq<Act>, h: nat, n: nat, k: Key)
    requires IsHistory(ss, acts) && n <= |acts| && RetriedAt(ss, acts, h, n, k)
    ensures k in ss[n].db.messages && AtLimit(ss[n].db.messages[k])
  {
    hide After, CanAct, RetriesAtLimit, Touches, AtLimit;
    var s, a := ss[n - 1], acts[n - 1];
    assert CanAct(s, a) && ss[n] == After(s, a);
    if h == n - 1 {
      RetriedRow(s, a, k);
    } else {
      StaysRetried(ss, acts, h, n - 1, k);
      UntouchedRow(s, a, k);
    }
  }

  /** What is claimed without an attempt left is an expired lease or was put back so. */
  lemma ClaimAtLimitIff(ss: seq<State>, acts: seq<Act>, n: nat)
    requires IsHistory(ss, acts) && ss[0].db.messages == map[] && n < |acts| && acts[n].Claim?
    ensures acts[n].k in ss[n].db.messages
    ensures AtLimit(ss[n].db.messages[acts[n].k]) <==> ClaimsExpired(ss[n], acts[n]) || ClaimsRetried(ss, acts, n)
  {
    hide After, CanAct, RetriedAt, AtLimit;
    assert CanAct(ss[n], acts[n]);
    ClaimedRow(ss[n], acts[n]);
    var k := acts[n].k;
    if AtLimit(ss[n].db.messages[k]) && ss[n].db.messages[k].status == Queued {
      var h := QueuedAtLimit(ss, acts, n, k);
    }
    if ClaimsRetried(ss, acts, n) {
      var h: nat :| RetriedAt(ss, acts, h, n, k);
      StaysRetried(ss, acts, h, n, k);
    }
  }

  ghost predicate KeepsLimit(ss: seq<State>, acts: seq<Act>)
    requires |ss| == |acts| + 1
  {
    forall n :: 0 <= n < |acts| ==> !ClaimsExpired(ss[n], acts[n]) && !ClaimsRetried(ss, acts, n)
  }

  lemma {:induction false} KeptSoFar(ss: seq<State>, acts: seq<Act>, n: nat)
    requires IsHistory(ss, acts) && ss[0].db.messages == map[] && KeepsLimit(ss, acts) && n <= |acts|
    ensures AllWithin(ss[n].db)
  {
    hide After, CanAct, ClaimsExpired, ClaimsRetried, AtLimit, Within;
    if n > 0 {
      KeptSoFar(ss, acts, n - 1);
      StepWithin(ss[n - 1], acts[n - 1]);
      if acts[n - 1].Claim? { ClaimAtLimitIff(ss, acts, n - 1); }
    }
  }

  /**
   * In every history from empty tables attempts stay within the limit throughout exactly when no act claims a lease
   * that ran out on its last attempt, and none claims a message that a late failed result put back with no attempt
   * left.
   */
  lemma LimitIff(ss: seq<State>, acts: seq<Act>)
    requires IsHistory(ss, acts) && ss[0].db.messages == map[]
    ensures (forall n :: 0 <= n <= |acts| ==> AllWithin(ss[n].db)) <==> KeepsLimit(ss, acts)
  {
    hide After, CanAct, ClaimsExpired, ClaimsRetried, AtLimit, AllWithin;
    if KeepsLimit(ss, acts) {
      forall n | 0 <= n <= |acts| ensures AllWithin(ss[n].db) { KeptSoFar(ss, acts, n); }
    } else {
      var n :| 0 <= n < |acts| && (ClaimsExpired(ss[n], acts[n]) || ClaimsRetried(ss, acts, n));
      ClaimsOnly(ss, acts, n);
      ClaimAtLimitIff(ss, acts, n);
      assert CanAct(ss[n], acts[n]) && ss[n + 1] == After(ss[n], acts[n]);
      if AllWithin(ss[n].db) { StepWithin(ss[n], acts[n]); }
    }
  }

  lemma ClaimsOnly(ss: seq<State>, acts: seq<Act>, n: nat)
    requires |ss| == |acts| + 1 && n < |acts| && (ClaimsExpired(ss[n], acts[n]) || ClaimsRetried(ss, acts, n))
    ensures acts[n].Claim?
  { }

  // ---------- histories that go wrong ----------

  const NS := "n"
  const WORKER := "a"
  const K := Key(NS, "m")

  /** One agent and nothing else. */
  const START := State(Db({Key(NS, WORKER)}, map[], map[]), {})

  function Message(limit: int): New {
    New(NS, "m", "", WORKER, "", 0, map[], None, limit)
  }

  /** What a claim does where there is one message. */
  lemma ClaimAlone(s: State, a: Act, m: Msg)
    requires a.Claim? && a.k == K && a.ns == NS && a.agent == WORKER && a.owner != "" && a.run != ""
    requires s.db.messages == map[K := m] && m.recipient == WORKER && Claimable(m, Millis(a.now))
              && Key(NS, a.run) !in s.db.runs
    ensures CanAct(s, a)
    ensures var l := LeasedRow(m, a.now, a.owner, a.duration, a.run);
            After(s, a) == State(Db(s.db.agents, map[K := l],
                s.db.runs[Key(NS, a.run) := Run("m", WORKER, RUNNING, Millis(a.now), None)]),
                                 s.triggers + {TriggerMeta(NS, WORKER, "m", l)})
  {
    hide TriggerMeta, LeasedRow, Claimable;
    assert Best(s.db, NS, WORKER, Millis(a.now), K);
  }

  /** What handling a result does where there is one message and nothing is sent. */
  lemma HandleAlone(s: State, a: Act, m: Msg)
    requires a.Handle? && a.meta in s.triggers && s.db.messages == map[K := m] && a.o.outbox == [] && a.h.ids == []
    requires ContextOf(a.meta).Some? && KeyOf(a.meta) == K && Key(NS, ContextOf(a.meta).value.run) in s.db.runs
    ensures CanAct(s, a) && Decide(a.meta, a.h, a.o).Some?
    ensures After(s, a).db.messages == map[K := DoneRow(m, a.h.now, Decide(a.meta, a.h, a.o).value)]
    ensures After(s, a).db.runs.Keys == s.db.runs.Keys && After(s, a).triggers == s.triggers - {a.meta}
  {
    hide DoneRow, MetaInt;
  }

  function Take(now: int, run: string): Act {
    Claim(now, NS, WORKER, "w", LEASE, K, run)
  }

  const LATER := LEASE
  const LAST := 2 * LEASE

  lemma Posted(limit: int)
    requires limit > 0
    ensures CanAct(START, Post(0, Message(limit), "g"))
    ensures After(START, Post(0, Message(limit), "g"))
              == State(Db(START.db.agents, map[K := FreshRow(0, Message(limit), "m")], map[]), {})
  {
    assert NewKey(Message(limit), "g") == K;
  }

  /** The message posted, claimed, and claimed again once its lease ran out. */
  lemma Twice(limit: int) returns (ss: seq<State>, m: Msg)
    requires limit > 0
    ensures IsHistory(ss, [Post(0, Message(limit), "g"), Take(0, "r"), Take(LATER, "s")]) && ss[0] == START
    ensures ss[1].db.messages.Keys == {K} && ss[1].db.messages[K].status == Queued
    ensures ss[2].db.messages == map[K := m] && m.status == Leased && m.attempts == 1 && m.maxAttempts == limit
    ensures ss[3].db.messages.Keys == {K} && ss[3].db.messages[K].status == Leased && ss[3].db.messages[K].attempts == 2
    ensures ss[3].db.messages[K].maxAttempts == limit && ss[3].db.messages[K].recipient == WORKER
    ensures ss[3].db.runs.Keys == {Key(NS, "r"), Key(NS, "s")}
    ensures TriggerMeta(NS, WORKER, "m", m) in ss[3].triggers
              && TriggerMeta(NS, WORKER, "m", ss[3].db.messages[K]) in ss[3].triggers
    ensures m.run == "r" && ss[3].db.messages[K].run == "s" && m.meta == map[] && ss[3].db.messages[K].meta == map[]
  {
    hide TriggerMeta, After, CanAct;
    Posted(limit);
    var s1 := After(START, Post(0, Message(limit), "g"));
    ClaimAlone(s1, Take(0, "r"), FreshRow(0, Message(limit), "m"));
    var s2 := After(s1, Take(0, "r"));
    m := s2.db.messages[K];
    ClaimAlone(s2, Take(LATER, "s"), m);
    ss := [START, s1, s2, After(s2, Take(LATER, "s"))];
  }

  function Failing(meta: Meta): Act {
    Handle(meta, Handling(LATER, LATER, 0, false, []), Outcome("failed", LATER, "", []))
  }

  function Finishing(meta: Meta): Act {
    Handle(meta, Handling(LATER, LATER, 0, false, []), Outcome(FINISHED, LATER, "", []))
  }

  /** The trigger of a claimed row, read back. */
  lemma TriggerOf(m: Msg)
    requires m.meta == map[] && m.run != ""
    ensures var t := TriggerMeta(NS, WORKER, "m", m);
            && ContextOf(t) == Some(Context(NS, WORKER, "m", m.thread, m.run)) && KeyOf(t) == K
            && MetaInt(t, ATTEMPTS) == m.attempts && MetaInt(t, MAXIMUM) == m.maxAttempts
  {
    TriggerReads(NS, WORKER, "m", m);
  }

  /** What failing does with attempts left according to the trigger, whatever the row says, and what finishing does. */
  lemma Outcomes(m: Msg, row: Msg)
    requires m.meta == map[] && m.run != "" && m.maxAttempts > m.attempts
    ensures var f := Failing(TriggerMeta(NS, WORKER, "m", m));
            var p := Decide(f.meta, f.h, f.o);
            && p.Some? && !Exhausted(f.meta) && DoneRow(row, LATER, p.value).status == Queued
            && DoneRow(row, LATER, p.value).availableAt == Millis(LATER + RETRY_DELAY)
            && DoneRow(row, LATER, p.value).attempts == row.attempts
                && DoneRow(row, LATER, p.value).maxAttempts == row.maxAttempts
            && DoneRow(row, LATER, p.value).recipient == row.recipient
  {
    hide TriggerMeta, MetaInt;
    TriggerOf(m);
  }

  lemma Finishes(m: Msg, row: Msg)
    requires m.meta == map[] && m.run != ""
    ensures var f := Finishing(TriggerMeta(NS, WORKER, "m", m));
            var p := Decide(f.meta, f.h, f.o);
            p.Some? && DoneRow(row, LATER, p.value).status == Completed
  {
    hide TriggerMeta, MetaInt;
    TriggerOf(m);
  }

  /** With a limit of one: the lease runs out, and the message is claimed a second time. */
  lemma ExpiredLastAttempt() returns (ss: seq<State>, acts: seq<Act>)
    ensures IsHistory(ss, acts) && ss[0] == START && |acts| == 3
    ensures ClaimsExpired(ss[2], acts[2]) && K in ss[3].db.messages && !Within(ss[3].db.messages[K])
  {
    hide After, CanAct;
    var m;
    ss, m := Twice(1);
    acts := [Post(0, Message(1), "g"), Take(0, "r"), Take(LATER, "s")];
  }

  /**
   * With a limit of two and no lease claimed after its last attempt: the first run's failure comes in after the second
   * claim, puts the message back, and the message is claimed a third time.
   */
  lemma LateRetry() returns (ss: seq<State>, acts: seq<Act>)
    ensures IsHistory(ss, acts) && ss[0] == START && |acts| == 5
    ensures (forall n :: 0 <= n < 5 ==> !ClaimsExpired(ss[n], acts[n])) && ClaimsRetried(ss, acts, 4)
    ensures K in ss[5].db.messages && !Within(ss[5].db.messages[K])
  {
    hide After, CanAct, TriggerMeta, ContextOf, Exhausted, DoneRow, Decide, Touches;
    var s3, m := Twice(2);
    var t := TriggerMeta(NS, WORKER, "m", m);
    var row := s3[3].db.messages[K];
    TriggerOf(m);
    Outcomes(m, row);
    assert s3[3].db.messages == map[K := row];
    HandleAlone(s3[3], Failing(t), row);
    var s4 := After(s3[3], Failing(t));
    ClaimAlone(s4, Take(LAST, "q"), s4.db.messages[K]);
    ss := s3 + [s4, After(s4, Take(LAST, "q"))];
    acts := [Post(0, Message(2), "g"), Take(0, "r"), Take(LATER, "s"), Failing(t), Take(LAST, "q")];
    assert ss[2].db.messages == map[K := m];
    assert ss[1].db.messages[K].status == Queued;
    assert RetriesAtLimit(ss[3], acts[3], K);
    assert RetriedAt(ss, acts, 3, 4, K);
  }

  /** The second run completes the message, and then the first run's failure opens it again. */
  lemma Reopened() returns (ss: seq<State>, acts: seq<Act>)
    ensures IsHistory(ss, acts) && ss[0] == START && |acts| == 5
    ensures K in ss[4].db.messages && ss[4].db.messages[K].status == Completed
    ensures K in ss[5].db.messages && ss[5].db.messages[K].status == Queued
  {
    hide After, CanAct, TriggerMeta, ContextOf, Exhausted, DoneRow, Decide;
    var s3, m := Twice(2);
    var row := s3[3].db.messages[K];
    var t, u := TriggerMeta(NS, WORKER, "m", m), TriggerMeta(NS, WORKER, "m", row);
    TriggerOf(m);
    TriggerOf(row);
    Finishes(row, row);
    assert s3[3].db.messages == map[K := row];
    HandleAlone(s3[3], Finishing(u), row);
    var s4 := After(s3[3], Finishing(u));
    assert t in s4.triggers;
    Outcomes(m, s4.db.messages[K]);
    HandleAlone(s4, Failing(t), s4.db.messages[K]);
    ss := s3 + [s4, After(s4, Failing(t))];
    acts := [Post(0, Message(2), "g"), Take(0, "r"), Take(LATER, "s"), Finishing(u), Failing(t)];
  }
}

/** Every interleaving of the mailbox transactions, late and repeated completions included. */
module MailboxRuns {
  import opened Basics
  import opened MailboxRows

  /** One transaction. A claim step is one that commits; `Fire` is the insertion a schedule makes. */
  datatype Step =
    | Enqueues(now: int, m: New, newId: string)
    | Fires(now: int, m: New, newId: string)
    | Claims(now: int, ns: string, agent: string, owner: string, duration: int, k: Key, run: string)
    | Completes(now: int, p: Finish)

  /** The candidate is a best one, the run id is new, and no generated id or owner is empty. */
  ghost predicate Enabled(db: Db, s: Step) {
    match s
    case Enqueues(_, _, newId) => newId != ""
    case Fires(_, _, newId) => newId != ""
    case Claims(now, ns, agent, owner, _, k, run) =>
      ns != "" && agent != "" && Best(db, ns, agent, Millis(now), k) && Key(k.ns, run) !in db.runs && run != ""
          && owner != ""
    case Completes(_, p) => |p.ids| == |p.outbox| && forall i :: 0 <= i < |p.ids| ==> p.ids[i] != ""
  }

  function Committed(db: Db, r: Result<Db>): Db {
    if r.Ok? then r.value else db
  }

  ghost function Apply(db: Db, s: Step): Db
    requires Enabled(db, s)
  {
    match s
    case Enqueues(now, m, newId) => Committed(db, Enqueue(db, now, m, newId))
    case Fires(now, m, newId) => Committed(db, Insert(db, now, m, newId))
    case Claims(now, _, agent, owner, duration, k, run) => Claimed(db, now, agent, owner, duration, k, run)
    case Completes(now, p) => Committed(db, Complete(db, now, p))
  }

  ghost predicate IsRun(dbs: seq<Db>, steps: seq<Step>) {
    && |dbs| == |steps| + 1
    && forall i :: 0 <= i < |steps| ==> Enabled(dbs[i], steps[i]) && dbs[i + 1] == Apply(dbs[i], steps[i])
  }

  /** How many rows a step adds. */
  ghost function Added(db: Db, s: Step): nat
    requires Enabled(db, s)
  {
    match s
    case Enqueues(now, m, newId) => if Enqueue(db, now, m, newId).Ok? then 1 else 0
    case Fires(now, m, newId) => if Insert(db, now, m, newId).Ok? then 1 else 0
    case Claims(_, _, _, _, _, _, _) => 0
    case Completes(now, p) => if Complete(db, now, p).Ok? then |p.outbox| else 0
  }

  lemma StepInv(db: Db, s: Step)
    requires Enabled(db, s) && Inv(db)
    ensures Inv(Apply(db, s)) && |Apply(db, s).messages| == |db.messages| + Added(db, s)
  {
    hide Inv, Insert, Complete, Claimed, Best, Eligible, Claimable;
    match s
    case Enqueues(now, m, newId) =>
      if Enqueue(db, now, m, newId).Ok? { InsertInv(db, now, m, newId); }
    case Fires(now, m, newId) =>
      if Insert(db, now, m, newId).Ok? { InsertInv(db, now, m, newId); }
    case Claims(now, ns, agent, owner, duration, k, run) =>
      BestClaimable(db, ns, agent, Millis(now), k);
      ClaimInv(db, now, agent, owner, duration, k, run);
      ClaimedKeys(db, now, agent, owner, duration, k, run);
    case Completes(now, p) =>
      if Complete(db, now, p).Ok? { CompleteInv(db, now, p); }
  }

  lemma BestClaimable(db: Db, ns: string, agent: string, now: int, k: Key)
    requires Best(db, ns, agent, now, k)
    ensures k in db.messages && Claimable(db.messages[k], now) && k.ns == ns && db.messages[k].recipient == agent
  { }

  lemma ClaimedKeys(db: Db, now: int, agent: string, owner: string, duration: int, k: Key, run: string)
    requires k in db.messages
    ensures Claimed(db, now, agent, owner, duration, k, run).messages.Keys == db.messages.Keys
  { }

  /**
   * In every state of every run: attempts count the runs naming the message, a message is leased exactly when run id,
   * owner and expiry are all set, and it is closed exactly when its status is terminal.
   */
  lemma {:induction false} RunInv(dbs: seq<Db>, steps: seq<Step>, n: nat)
    requires IsRun(dbs, steps) && Inv(dbs[0]) && n <= |steps|
    ensures Inv(dbs[n])
  {
    if n > 0 {
      RunInv(dbs, steps, n - 1);
      StepInv(dbs[n - 1], steps[n - 1]);
    }
  }

  ghost function Total(dbs: seq<Db>, steps: seq<Step>, n: nat): nat
    requires IsRun(dbs, steps) && n <= |steps|
  {
    if n == 0 then 0 else Total(dbs, steps, n - 1) + Added(dbs[n - 1], steps[n - 1])
  }

  /** Nothing is lost: the mailbox holds what it held plus every message enqueued, fired or sent from an outbox. */
  lemma {:induction false} SizeConserved(dbs: seq<Db>, steps: seq<Step>, n: nat)
    requires IsRun(dbs, steps) && Inv(dbs[0]) && n <= |steps|
    ensures |dbs[n].messages| == |dbs[0].messages| + Total(dbs, steps, n)
  {
    hide Apply, Enabled, Inv, Added;
    if n > 0 {
      SizeConserved(dbs, steps, n - 1);
      RunInv(dbs, steps, n - 1);
      StepInv(dbs[n - 1], steps[n - 1]);
    }
  }

  // ---------- what happens to one message ----------

  predicate ClaimOf(s: Step, k: Key) {
    s.Claims? && s.k == k
  }

  /** A completion of the message that the tables accept. */
  ghost predicate CompletionOf(db: Db, s: Step, k: Key) {
    s.Completes? && |s.p.ids| == |s.p.outbox| && Accepted(db, s.p) && Key(s.p.ns, s.p.message) == k
  }

  /** A completion that puts the message back in the queue. */
  ghost predicate Requeues(db: Db, s: Step, k: Key) {
    CompletionOf(db, s, k) && s.p.deadReason == "" && s.p.retryAt.Some?
  }

  /** Only its own claims and completions touch a message. */
  lemma StepRow(db: Db, s: Step, k: Key)
    requires Enabled(db, s) && k in db.messages
    ensures k in Apply(db, s).messages
    ensures Apply(db, s).messages[k] ==
            if ClaimOf(s, k) then LeasedRow(db.messages[k], s.now, s.owner, s.duration, s.run)
            else if CompletionOf(db, s, k) then DoneRow(db.messages[k], s.now, s.p)
            else db.messages[k]
  {
    hide LeasedRow, DoneRow, FreshRow, Best, NewKey, InsertAll, Accepted;
    if s.Completes? { CompleteIff(db, s.now, s.p); }
    if s.Completes? && Complete(db, s.now, s.p).Ok? {
      InsertAllKeeps(Recorded(db, s.now, s.p), s.now, s.p.outbox, s.p.ids, k);
    }
  }

  /** The messages a step may insert. */
  function News(s: Step): seq<New> {
    match s
    case Enqueues(_, m, _) => [m]
    case Fires(_, m, _) => [m]
    case Claims(_, _, _, _, _, _, _) => []
    case Completes(_, p) => p.outbox
  }

  /** A row that was not there before is one of them, fresh. */
  lemma NewRow(db: Db, s: Step, k: Key)
    requires Enabled(db, s) && k !in db.messages && k in Apply(db, s).messages
    ensures k.id != "" && exists m :: m in News(s) && Apply(db, s).messages[k] == FreshRow(s.now, m, k.id)
  {
    hide FreshRow, LeasedRow, DoneRow, InsertAll, Best;
    match s
    case Enqueues(now, m, newId) => assert m in News(s);
    case Fires(now, m, newId) => assert m in News(s);
    case Claims(now, ns, agent, owner, duration, j, run) => BestClaimable(db, ns, agent, Millis(now), j);
    case Completes(now, p) =>
      if Complete(db, now, p).Ok? {
        InsertAllKeeps(Recorded(db, now, p), now, p.outbox, p.ids, k);
        var i :| 0 <= i < |p.outbox| && k == NewKey(p.outbox[i], p.ids[i])
                 && Apply(db, s).messages[k] == FreshRow(now, p.outbox[i], k.id);
        assert p.outbox[i] in News(s);
      }
  }

  /** Who a message is for and from, what it says and its attempt limit never change, and attempts never fall. */
  lemma {:induction false} Identity(dbs: seq<Db>, steps: seq<Step>, k: Key, i: nat, j: nat)
    requires IsRun(dbs, steps) && i <= j <= |steps| && k in dbs[i].messages
    ensures k in dbs[j].messages
    ensures var a, b := dbs[i].messages[k], dbs[j].messages[k];
            && b.recipient == a.recipient && b.sender == a.sender && b.thread == a.thread && b.body == a.body
                && b.meta == a.meta
            && b.maxAttempts == a.maxAttempts && b.createdAt == a.createdAt && a.attempts <= b.attempts
            && (a.claimedAt.Some? ==> b.claimedAt == a.claimedAt)
    decreases j - i
  {
    hide Apply, Enabled, CompletionOf;
    if i < j {
      Identity(dbs, steps, k, i, j - 1);
      StepRow(dbs[j - 1], steps[j - 1], k);
    }
  }

  /** Leased until e, or closed. */
  predicate Held(db: Db, k: Key, e: int) {
    && k in db.messages
    && var m := db.messages[k];
      (m.status == Leased && m.expires == Some(e)) || m.status == Completed || m.status == DeadLetter
  }

  lemma HeldStep(db: Db, s: Step, k: Key, e: int)
    requires Enabled(db, s) && Held(db, k, e) && !ClaimOf(s, k) && !Requeues(db, s, k)
    ensures Held(Apply(db, s), k, e)
  {
    hide Apply, Enabled, Complete;
    StepRow(db, s, k);
  }

  lemma {:induction false} HeldRun(dbs: seq<Db>, steps: seq<Step>, k: Key, e: int, i: nat, j: nat)
    requires IsRun(dbs, steps) && i <= j <= |steps| && Held(dbs[i], k, e)
    requires forall h :: i <= h < j ==> !ClaimOf(steps[h], k) && !Requeues(dbs[h], steps[h], k)
    ensures Held(dbs[j], k, e)
    decreases j - i
  {
    hide Apply, Enabled, Held, Requeues;
    if i < j {
      HeldRun(dbs, steps, k, e, i, j - 1);
      HeldStep(dbs[j - 1], steps[j - 1], k, e);
    }
  }

  /** Between two successive claims of a message its lease ran out or some completion put it back in the queue. */
  lemma ClaimsSeparated(dbs: seq<Db>, steps: seq<Step>, k: Key, i: nat, j: nat)
    requires IsRun(dbs, steps) && i < j < |steps| && ClaimOf(steps[i], k) && ClaimOf(steps[j], k)
    requires forall h :: i < h < j ==> !ClaimOf(steps[h], k)
    ensures Millis(steps[i].now + steps[i].duration) <= Millis(steps[j].now)
            || exists h :: i < h < j && Requeues(dbs[h], steps[h], k)
  {
    var e := Millis(steps[i].now + steps[i].duration);
    assert Enabled(dbs[i], steps[i]) && Enabled(dbs[j], steps[j]);
    if !exists h :: i < h < j && Requeues(dbs[h], steps[h], k) {
      ClaimHolds(dbs[i], steps[i], k);
      HeldRun(dbs, steps, k, e, i + 1, j);
      HeldClaim(dbs[j], steps[j], k, e);
    }
  }

  lemma ClaimHolds(db: Db, s: Step, k: Key)
    requires Enabled(db, s) && ClaimOf(s, k)
    ensures Held(Apply(db, s), k, Millis(s.now + s.duration))
  { }

  lemma HeldClaim(db: Db, s: Step, k: Key, e: int)
    requires Enabled(db, s) && ClaimOf(s, k) && Held(db, k, e)
    ensures e <= Millis(s.now)
  { }

  predicate Closed(m: Msg) {
    m.status == Completed || m.status == DeadLetter
  }

  /** A closed message stays closed in a step exactly when the step is not a completion that requeues it. */
  lemma ClosedIff(db: Db, s: Step, k: Key)
    requires Enabled(db, s) && k in db.messages && Closed(db.messages[k])
    ensures k in Apply(db, s).messages && (Closed(Apply(db, s).messages[k]) <==> !Requeues(db, s, k))
  {
    hide Apply, Complete, Best, Eligible;
    StepRow(db, s, k);
    if ClaimOf(s, k) { BestClaimable(db, s.ns, s.agent, Millis(s.now), k); }
  }

  lemma {:induction false} AvailableStays(dbs: seq<Db>, steps: seq<Step>, k: Key, i: nat, j: nat)
    requires IsRun(dbs, steps) && i <= j <= |steps| && k in dbs[i].messages
    requires forall h :: i <= h < j ==> !CompletionOf(dbs[h], steps[h], k)
    ensures k in dbs[j].messages && dbs[j].messages[k].availableAt == dbs[i].messages[k].availableAt
    decreases j - i
  {
    hide Apply, Enabled, CompletionOf;
    if i < j {
      AvailableStays(dbs, steps, k, i, j - 1);
      StepRow(dbs[j - 1], steps[j - 1], k);
    }
  }

  /** No claim comes before the message is available; only a completion changes when that is. */
  lemma NotBefore(dbs: seq<Db>, steps: seq<Step>, k: Key, i: nat, j: nat)
    requires IsRun(dbs, steps) && i <= j < |steps| && k in dbs[i].messages && ClaimOf(steps[j], k)
    requires forall h :: i <= h < j ==> !CompletionOf(dbs[h], steps[h], k)
    ensures dbs[i].messages[k].availableAt <= Millis(steps[j].now)
  {
    hide Apply, CompletionOf, Best, Eligible;
    AvailableStays(dbs, steps, k, i, j);
    assert Enabled(dbs[j], steps[j]);
    BestClaimable(dbs[j], steps[j].ns, steps[j].agent, Millis(steps[j].now), k);
  }

  /** A requeued message waits for its retry time. */
  lemma RetryWaits(dbs: seq<Db>, steps: seq<Step>, k: Key, i: nat, j: nat)
    requires IsRun(dbs, steps) && i < j < |steps| && k in dbs[i].messages
    requires Requeues(dbs[i], steps[i], k) && ClaimOf(steps[j], k)
    requires forall h :: i < h < j ==> !CompletionOf(dbs[h], steps[h], k)
    ensures Millis(steps[i].p.retryAt.value) <= Millis(steps[j].now)
  {
    hide Apply, Complete, Enabled;
    assert Enabled(dbs[i], steps[i]);
    StepRow(dbs[i], steps[i], k);
    NotBefore(dbs, steps, k, i + 1, j);
  }
}

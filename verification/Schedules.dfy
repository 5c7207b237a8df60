/** Schedules: the catch-up loop, the compare-and-set that fires one, and every interleaving of schedulers. */
module Schedules {
  import opened Basics
  import opened MailboxRows
  import opened MailboxRuns

  /** A schedules row; times are whole milliseconds. */
  datatype Sched = Sched(agent: string, expr: nat, payload: nat, enabled: bool,
                         nextFire: Option<int>, lastFire: Option<int>, updatedAt: int)

  /** The cron library: the next instant of an expression after a time, in nanoseconds. */
  type Cron = (nat, int) -> int
  /** Which times are instants of an expression. */
  type Instants = (nat, int) -> bool

  const FIRE_ATTEMPTS := 5

  function Nanos(ms: int): int {
    ms * 1_000_000
  }

  ghost predicate Increasing(cron: Cron) {
    forall e, t :: cron(e, t) > t
  }

  /** Next is the least instant after its argument, and instants are whole milliseconds. */
  ghost predicate LeastInstant(cron: Cron, at: Instants) {
    && Increasing(cron)
    && (forall e, t :: at(e, cron(e, t)))
    && (forall e, t, u :: t < u && at(e, u) ==> cron(e, t) <= u)
    && (forall e, u :: at(e, u) ==> Nanos(Millis(u)) == u)
  }

  const SECOND := 1_000_000_000

  /** Such a Next exists: for expressions that fire every second. */
  lemma EverySecond() returns (cron: Cron, at: Instants)
    ensures LeastInstant(cron, at) && forall e, u :: at(e, u) <==> u % SECOND == 0
  {
    cron := (e: nat, t: int) => (t / SECOND + 1) * SECOND;
    at := (e: nat, t: int) => t % SECOND == 0;
  }

  /** fireSchedule's loop: step from the due instant until past now. */
  ghost function CatchUp(cron: Cron, e: nat, t: int, now: int): int
    requires Increasing(cron)
    decreases if now > t then now - t else 0
  {
    var n := cron(e, t);
    if n > now then n else CatchUp(cron, e, n, now)
  }

  function Max(a: int, b: int): int {
    if a < b then b else a
  }

  /** However many instants were missed, the loop ends at the first one after both the due instant and now. */
  lemma {:induction false} CatchUpIsNext(cron: Cron, at: Instants, e: nat, t: int, now: int)
    requires LeastInstant(cron, at)
    ensures CatchUp(cron, e, t, now) == cron(e, Max(t, now))
    decreases if now > t then now - t else 0
  {
    var n := cron(e, t);
    if n <= now {
      CatchUpIsNext(cron, at, e, n, now);
    } else if t < now {
      assert at(e, n) && at(e, cron(e, now));
    }
  }

  // ---------- transactions ----------

  datatype Sys = Sys(db: Db, rows: map<Key, Sched>)

  datatype Step =
    | Create(now: int, k: Key, agent: string, expr: nat, payload: nat, enabled: bool)
    | Disable(now: int, k: Key)
    | Fire(now: int, k: Key, due: int, newId: string, thread: string)
    | Mail(s: MailboxRuns.Step)

  /** The message a fire enqueues, in a thread of its own. */
  function FireMessage(k: Key, row: Sched, due: int, now: int, thread: string): New {
    New(k.ns, "", thread, row.agent, "", row.payload, map["schedule_id" := Str(k.id), "fired_at" := Num(due)],
        Some(now), FIRE_ATTEMPTS)
  }

  /** The update matches: enabled, and still due at the instant the scheduler read. */
  predicate Matches(sys: Sys, k: Key, due: int) {
    k in sys.rows && sys.rows[k].enabled && sys.rows[k].nextFire == Some(due)
  }

  function Updated(row: Sched, due: int, next: int, now: int): Sched {
    row.(lastFire := Some(due), nextFire := Some(Millis(next)), updatedAt := Millis(now))
  }

  /** A fire commits: its update matched and its message was inserted. */
  predicate Fires(sys: Sys, s: Step) {
    && s.Fire? && Matches(sys, s.k, s.due)
    && Insert(sys.db, s.now, FireMessage(s.k, sys.rows[s.k], s.due, s.now, s.thread), s.newId).Ok?
  }

  /** A scheduler fires what its query found due at its own now, however long ago it read it. */
  ghost predicate Allowed(cron: Cron, sys: Sys, s: Step) {
    && Increasing(cron)
    && (s.Fire? ==> s.due <= Millis(s.now) && s.newId != "")
    && (s.Mail? ==> Enabled(sys.db, s.s))
  }

  ghost function Next(cron: Cron, sys: Sys, s: Step): Sys
    requires Allowed(cron, sys, s)
  {
    match s
    case Create(now, k, agent, expr, payload, enabled) =>
      if k.ns == "" || agent == "" || k in sys.rows || Key(k.ns, agent) !in sys.db.agents then sys
      else
        var next := if enabled then Some(Millis(cron(expr, now))) else None;
        sys.(rows := sys.rows[k := Sched(agent, expr, payload, enabled, next, None, Millis(now))])
    case Disable(now, k) =>
      if k !in sys.rows then sys
      else sys.(rows := sys.rows[k := sys.rows[k].(enabled := false, nextFire := None, updatedAt := Millis(now))])
    case Fire(now, k, due, newId, thread) =>
      if !Fires(sys, s) then sys
      else Sys(Insert(sys.db, now, FireMessage(k, sys.rows[k], due, now, thread), newId).value,
               sys.rows[k := Updated(sys.rows[k], due, CatchUp(cron, sys.rows[k].expr, Nanos(due), now), now)])
    case Mail(m) => sys.(db := Apply(sys.db, m))
  }

  ghost predicate IsRun(cron: Cron, ss: seq<Sys>, steps: seq<Step>) {
    && |ss| == |steps| + 1
    && forall i :: 0 <= i < |steps| ==> Allowed(cron, ss[i], steps[i]) && ss[i + 1] == Next(cron, ss[i], steps[i])
  }

  // ---------- the invariant ----------

  /** Only enabled schedules are due, and only after they last fired. */
  predicate RowOk(row: Sched) {
    && (row.nextFire.Some? ==> row.enabled)
    && (row.nextFire.Some? && row.lastFire.Some? ==> row.lastFire.value < row.nextFire.value)
  }

  ghost predicate SysInv(sys: Sys) {
    && Inv(sys.db)
    && forall k :: k in sys.rows ==> RowOk(sys.rows[k]) && Key(k.ns, sys.rows[k].agent) in sys.db.agents
  }

  lemma MillisOrder(cron: Cron, at: Instants, e: nat, due: int, now: int)
    requires LeastInstant(cron, at) && due <= Millis(now)
    ensures Millis(cron(e, Max(Nanos(due), now))) > Millis(now) >= due
  {
    var n := cron(e, Max(Nanos(due), now));
    assert at(e, n);
    assert Nanos(Millis(n)) == n > now;
  }

  lemma StepSafe(cron: Cron, at: Instants, sys: Sys, s: Step)
    requires LeastInstant(cron, at) && Allowed(cron, sys, s) && SysInv(sys)
    ensures SysInv(Next(cron, sys, s))
  {
    hide Inv, Apply, LeastInstant, CatchUp, Insert, FireMessage, Enabled;
    match s
    case Create(_, _, _, _, _, _) =>
    case Disable(_, _) =>
    case Fire(now, k, due, newId, thread) =>
      if Fires(sys, s) {
        InsertInv(sys.db, now, FireMessage(k, sys.rows[k], due, now, thread), newId);
        FiredRow(cron, at, sys.rows[k], due, now);
      }
    case Mail(m) =>
      StepInv(sys.db, m);
      AgentsStay(sys.db, m);
  }

  lemma FiredRow(cron: Cron, at: Instants, row: Sched, due: int, now: int)
    requires LeastInstant(cron, at) && RowOk(row) && row.enabled && row.nextFire == Some(due) && due <= Millis(now)
    ensures var u := Updated(row, due, CatchUp(cron, row.expr, Nanos(due), now), now);
            RowOk(u) && u.lastFire == Some(due) && u.nextFire.value > Millis(now) && u.agent == row.agent
  {
    hide LeastInstant;
    MillisOrder(cron, at, row.expr, due, now);
    CatchUpIsNext(cron, at, row.expr, Nanos(due), now);
  }

  lemma AgentsStay(db: Db, s: MailboxRuns.Step)
    requires Enabled(db, s)
    ensures Apply(db, s).agents == db.agents
  {
    hide Best, LeasedRow, DoneRow, FreshRow;
  }

  lemma {:induction false} RunSafe(cron: Cron, at: Instants, ss: seq<Sys>, steps: seq<Step>, n: nat)
    requires LeastInstant(cron, at) && IsRun(cron, ss, steps) && SysInv(ss[0]) && n <= |steps|
    ensures SysInv(ss[n])
  {
    hide SysInv, Next, Allowed, LeastInstant;
    if n > 0 {
      RunSafe(cron, at, ss, steps, n - 1);
      StepSafe(cron, at, ss[n - 1], steps[n - 1]);
    }
  }

  // ---------- what a fire does ----------

  /**
   * A committed fire adds exactly one message, for the schedule's agent, and leaves the schedule due at the first cron
   * instant after the scheduler's now; one that does not commit changes nothing.
   */
  lemma FireEffect(cron: Cron, at: Instants, sys: Sys, s: Step)
    requires LeastInstant(cron, at) && Allowed(cron, sys, s) && SysInv(sys) && s.Fire?
    ensures !Fires(sys, s) ==> Next(cron, sys, s) == sys
    ensures Fires(sys, s) ==>
              var t := Next(cron, sys, s);
              var id := Key(s.k.ns, s.newId);
              var m := FireMessage(s.k, sys.rows[s.k], s.due, s.now, s.thread);
              && |t.db.messages| == |sys.db.messages| + 1
              && id !in sys.db.messages
              && t.db == sys.db.(messages := sys.db.messages[id := FreshRow(s.now, m, s.newId)])
              && t.rows[s.k].lastFire == Some(s.due)
              && t.rows[s.k].nextFire == Some(Millis(cron(sys.rows[s.k].expr, s.now)))
              && t.rows[s.k].nextFire.value > Millis(s.now)
  {
    hide Inv, LeastInstant, CatchUp, FreshRow;
    if Fires(sys, s) {
      var row := sys.rows[s.k];
      var m := FireMessage(s.k, row, s.due, s.now, s.thread);
      InsertInv(sys.db, s.now, m, s.newId);
      DueFirst(cron, at, row.expr, s.due, s.now);
      FiredRow(cron, at, row, s.due, s.now);
    }
  }

  lemma DueFirst(cron: Cron, at: Instants, e: nat, due: int, now: int)
    requires LeastInstant(cron, at) && due <= Millis(now)
    ensures CatchUp(cron, e, Nanos(due), now) == cron(e, now)
  {
    CatchUpIsNext(cron, at, e, Nanos(due), now);
    assert Nanos(due) <= now;
  }

  /** The schedule fired at `due` or later, and is not due again until after `seen`. */
  predicate Past(sys: Sys, k: Key, due: int, seen: int) {
    && k in sys.rows
    && sys.rows[k].lastFire.Some? && sys.rows[k].lastFire.value >= due
    && (sys.rows[k].nextFire.Some? ==> sys.rows[k].nextFire.value > seen)
  }

  lemma PastStep(cron: Cron, at: Instants, sys: Sys, s: Step, k: Key, due: int, seen: int)
    requires LeastInstant(cron, at) && Allowed(cron, sys, s) && SysInv(sys) && Past(sys, k, due, seen)
    ensures Past(Next(cron, sys, s), k, due, seen)
  {
    hide Inv, Apply, LeastInstant, CatchUp, Insert, FireMessage, Enabled;
    if s.Fire? && s.k == k && Fires(sys, s) {
      FiredRow(cron, at, sys.rows[k], s.due, s.now);
    }
  }

  lemma {:induction false} PastRun(cron: Cron, at: Instants, ss: seq<Sys>, steps: seq<Step>, i: nat, j: nat,
                                   k: Key, due: int, seen: int)
    requires LeastInstant(cron, at) && IsRun(cron, ss, steps) && SysInv(ss[0]) && i <= j <= |steps|
              && Past(ss[i], k, due, seen)
    ensures Past(ss[j], k, due, seen)
    decreases j - i
  {
    hide SysInv, Next, Allowed, LeastInstant, Past;
    if i < j {
      PastRun(cron, at, ss, steps, i, j - 1, k, due, seen);
      RunSafe(cron, at, ss, steps, j - 1);
      PastStep(cron, at, ss[j - 1], steps[j - 1], k, due, seen);
    }
  }

  /**
   * However schedulers interleave and however stale their reads, a schedule's fires are for strictly later and later
   * instants, each later than the moment of every fire before it: no instant fires twice, and the instants missed
   * before a fire never fire.
   */
  lemma FiresIncrease(cron: Cron, at: Instants, ss: seq<Sys>, steps: seq<Step>, i: nat, j: nat)
    requires LeastInstant(cron, at) && IsRun(cron, ss, steps) && SysInv(ss[0]) && i < j < |steps|
    requires Fires(ss[i], steps[i]) && Fires(ss[j], steps[j]) && steps[i].k == steps[j].k
    ensures steps[i].due < steps[j].due && Millis(steps[i].now) < steps[j].due
  {
    hide Inv, Apply, LeastInstant, CatchUp, Insert, FireMessage, Enabled;
    var k := steps[i].k;
    assert Allowed(cron, ss[i], steps[i]);
    RunSafe(cron, at, ss, steps, i);
    FiredRow(cron, at, ss[i].rows[k], steps[i].due, steps[i].now);
    PastRun(cron, at, ss, steps, i + 1, j, k, steps[i].due, Millis(steps[i].now));
  }

  /** The times a schedule last fired never go back. */
  lemma LastFireGrows(cron: Cron, at: Instants, ss: seq<Sys>, steps: seq<Step>, i: nat, j: nat, k: Key)
    requires LeastInstant(cron, at) && IsRun(cron, ss, steps) && SysInv(ss[0]) && i <= j <= |steps|
    requires k in ss[i].rows && ss[i].rows[k].lastFire.Some?
    ensures k in ss[j].rows && ss[j].rows[k].lastFire.Some?
              && ss[i].rows[k].lastFire.value <= ss[j].rows[k].lastFire.value
  {
    hide Inv, Next, Allowed, LeastInstant;
    var row := ss[i].rows[k];
    RunSafe(cron, at, ss, steps, i);
    PastRun(cron, at, ss, steps, i, j, k, row.lastFire.value, row.lastFire.value);
  }
}

/** The scheduler's methods over its tables. */
module ScheduleStore {
  import opened Basics
  import opened MailboxRows
  import opened Schedules

  class Scheduler {
    const cron: Cron
    var db: Db
    var rows: map<Key, Sched>

    constructor (cron: Cron, db: Db)
      requires Inv(db)
      ensures this.cron == cron && System() == Sys(db, map[]) && SysInv(System())
    {
      this.cron, this.db, this.rows := cron, db, map[];
    }

    function System(): Sys
      reads this
    {
      Sys(db, rows)
    }

    /** A blank id is replaced by the generated one. */
    method CreateSchedule(now: int, ns: string, id: string, newId: string, agent: string, expr: nat, payload: nat,
                          enabled: bool)
      returns (failure: Option<Error>)
      requires Increasing(cron)
      modifies this`rows
      ensures System() == Next(cron, old(System()),
                Create(now, Key(ns, OrElse(id, newId)), agent, expr, payload, enabled))
      ensures failure == None <==>
                ns != "" && agent != "" && Key(ns, OrElse(id, newId)) !in old(rows) && Key(ns, agent) in db.agents
    {
      if ns == "" || agent == "" {
        return Some(Invalid);
      }
      var k := Key(ns, OrElse(id, newId));
      var nextFire := None;
      if enabled {
        nextFire := Some(Millis(cron(expr, now)));
      }
      if k in rows {
        return Some(Duplicate);
      }
      if Key(ns, agent) !in db.agents {
        return Some(UnknownAgent);
      }
      rows := rows[k := Sched(agent, expr, payload, enabled, nextFire, None, Millis(now))];
      failure := None;
    }

    method DisableSchedule(now: int, k: Key) returns (found: bool)
      requires Increasing(cron)
      modifies this`rows
      ensures System() == Next(cron, old(System()), Disable(now, k)) && found == (k in old(rows))
    {
      found := k in rows;
      if found {
        rows := rows[k := rows[k].(enabled := false, nextFire := None, updatedAt := Millis(now))];
      }
    }

    /** A record read earlier differs from the row only in what firing and disabling change. */
    predicate ReadFrom(k: Key, record: Sched)
      reads this`rows
    {
      k in rows ==> rows[k].agent == record.agent && rows[k].expr == record.expr && rows[k].payload == record.payload
    }

    method FireSchedule(now: int, k: Key, record: Sched, newId: string, thread: string) returns (r: Result<bool>)
      requires Increasing(cron) && ReadFrom(k, record) && newId != ""
      requires record.nextFire.Some? ==> record.nextFire.value <= Millis(now)
      modifies this`rows, this`db
      ensures record.nextFire == None ==> r == Ok(false) && System() == old(System())
      ensures record.nextFire.Some? ==>
                var s := Fire(now, k, record.nextFire.value, newId, thread);
                && System() == Next(cron, old(System()), s)
                && (r == Ok(true) <==> Fires(old(System()), s))
                && (r == Ok(false) <==> !Matches(old(System()), k, record.nextFire.value))
      ensures forall j, read :: old(ReadFrom(j, read)) ==> ReadFrom(j, read)
    {
      if record.nextFire == None {
        return Ok(false);
      }
      var due := record.nextFire.value;
      var nextFire := cron(record.expr, Nanos(due));
      while nextFire <= now
        invariant nextFire > Nanos(due)
        invariant CatchUp(cron, record.expr, Nanos(due), now)
                  == if nextFire > now then nextFire else CatchUp(cron, record.expr, nextFire, now)
        decreases now - nextFire
      {
        nextFire := cron(record.expr, nextFire);
      }
      if !(k in rows && rows[k].enabled && rows[k].nextFire == Some(due)) {
        return Ok(false);
      }
      var rows1 := rows[k := rows[k].(lastFire := Some(due), nextFire := Some(Millis(nextFire)),
          updatedAt := Millis(now))];
      var sent := Insert(db, now, FireMessage(k, record, due, now, thread), newId);
      if sent.Err? {
        return Err(sent.e);
      }
      assert FireMessage(k, record, due, now, thread) == FireMessage(k, rows[k], due, now, thread);
      rows, db := rows1, sent.value;
      r := Ok(true);
    }

    /**
     * The loop of FireDueSchedules over the records its query found due; an error stops it, keeping what already
     * fired.
     */
    method FireAll(now: int, due: seq<(Key, Sched)>, ids: seq<string>, threads: seq<string>)
      returns (r: Result<seq<Key>>, ghost ss: seq<Sys>, ghost steps: seq<Step>)
      requires Increasing(cron) && |ids| == |threads| == |due|
      requires forall i :: 0 <= i < |due| ==> ReadFrom(due[i].0, due[i].1) && ids[i] != ""
      requires forall i :: 0 <= i < |due| ==> due[i].1.nextFire.Some? && due[i].1.nextFire.value <= Millis(now)
      modifies this`rows, this`db
      ensures IsRun(cron, ss, steps) && ss[0] == old(System()) && ss[|steps|] == System()
      ensures |steps| <= |due| && (r.Ok? ==> |steps| == |due|)
      ensures forall i :: 0 <= i < |steps| ==>
                steps[i] == Fire(now, due[i].0, due[i].1.nextFire.value, ids[i], threads[i])
      ensures r.Ok? ==> r.value == FiredOf(ss, steps, |steps|)
    {
      hide Next, Matches, Insert, FireMessage, Fires;
      var fired: seq<Key> := [];
      ss, steps := [System()], [];
      var i := 0;
      while i < |due|
        invariant 0 <= i <= |due| && |steps| == i
        invariant forall j :: 0 <= j < |due| ==> ReadFrom(due[j].0, due[j].1)
        invariant IsRun(cron, ss, steps) && ss[0] == old(System()) && ss[i] == System()
        invariant forall j :: 0 <= j < i ==>
                    steps[j] == Fire(now, due[j].0, due[j].1.nextFire.value, ids[j], threads[j])
        invariant fired == FiredOf(ss, steps, i)
      {
        ghost var s := Fire(now, due[i].0, due[i].1.nextFire.value, ids[i], threads[i]);
        ghost var before := System();
        var f := FireSchedule(now, due[i].0, due[i].1, ids[i], threads[i]);
        ExtendRun(cron, ss, steps, s, System());
        FiredSame(ss, steps, ss + [System()], steps + [s], i);
        ss, steps := ss + [System()], steps + [s];
        if f.Err? {
          return Err(f.e), ss, steps;
        }
        if f.value {
          fired := fired + [due[i].0];
        }
        i := i + 1;
      }
      r := Ok(fired);
    }
  }

  /** The schedules that fired in the first n steps, in order. */
  ghost function FiredOf(ss: seq<Sys>, steps: seq<Step>, n: nat): seq<Key>
    requires n <= |steps| <= |ss|
  {
    if n == 0 then []
    else if Fires(ss[n - 1], steps[n - 1]) then FiredOf(ss, steps, n - 1) + [steps[n - 1].k]
    else FiredOf(ss, steps, n - 1)
  }

  lemma {:induction false} FiredSame(ss: seq<Sys>, steps: seq<Step>, tt: seq<Sys>, more: seq<Step>, n: nat)
    requires n <= |steps| <= |ss| && |steps| <= |more| <= |tt| && |ss| <= |tt|
    requires ss == tt[..|ss|] && steps == more[..|steps|]
    ensures FiredOf(ss, steps, n) == FiredOf(tt, more, n)
  {
    hide Fires;
    if n > 0 { FiredSame(ss, steps, tt, more, n - 1); }
  }

  lemma ExtendRun(cron: Cron, ss: seq<Sys>, steps: seq<Step>, s: Step, t: Sys)
    requires IsRun(cron, ss, steps) && Allowed(cron, ss[|steps|], s) && t == Next(cron, ss[|steps|], s)
    ensures IsRun(cron, ss + [t], steps + [s])
  {
    hide Next, Allowed;
  }
}

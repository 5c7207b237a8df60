/** What creating, disabling and firing a schedule leave in the tables, field by field. */
module ScheduleLaws {
  import opened Basics
  import opened MailboxRows
  import opened MailboxLaws
  import opened Schedules

  /** A new schedule, due at the first instant after now if it is enabled; a refused one changes nothing. */
  lemma CreateOutcome(cron: Cron, sys: Sys, s: Step)
    requires Allowed(cron, sys, s) && s.Create?
    ensures var t := Next(cron, sys, s);
            if s.k.ns == "" || s.agent == "" || s.k in sys.rows || Key(s.k.ns, s.agent) !in sys.db.agents then t == sys
            else
              && t.db == sys.db && t.rows.Keys == sys.rows.Keys + {s.k}
              && (forall k :: k in sys.rows ==> t.rows[k] == sys.rows[k])
              && t.rows[s.k] == Sched(s.agent, s.expr, s.payload, s.enabled,
                                      if s.enabled then Some(cron(s.expr, s.now) / 1_000_000) else None, None,
                                      s.now / 1_000_000)
  { }

  /** A disabled schedule is due at no time; when it last fired and what it would send stay. */
  lemma DisableOutcome(cron: Cron, sys: Sys, s: Step)
    requires Allowed(cron, sys, s) && s.Disable?
    ensures var t := Next(cron, sys, s);
            if s.k !in sys.rows then t == sys
            else
              var row := sys.rows[s.k];
              && t.db == sys.db && t.rows.Keys == sys.rows.Keys
              && (forall k :: k in sys.rows && k != s.k ==> t.rows[k] == sys.rows[k])
              && t.rows[s.k] == Sched(row.agent, row.expr, row.payload, false, None, row.lastFire, s.now / 1_000_000)
  { }

  /** A schedule fires when it is still due at the instant read, its agent is there and the message's id is new. */
  ghost predicate Ready(sys: Sys, s: Step)
    requires s.Fire?
  {
    && s.k in sys.rows && sys.rows[s.k].enabled && sys.rows[s.k].nextFire == Some(s.due)
    && Key(s.k.ns, s.newId) !in sys.db.messages && Key(s.k.ns, sys.rows[s.k].agent) in sys.db.agents
  }

  /**
   * A fire puts in one message for the schedule's agent, from nobody, saying which schedule it is and for which
   * instant, and moves the schedule on to the first instant after now. All of it or nothing.
   */
  lemma FireOutcome(cron: Cron, at: Instants, sys: Sys, s: Step)
    requires LeastInstant(cron, at) && Allowed(cron, sys, s) && s.Fire?
    ensures Fires(sys, s) <==> Ready(sys, s)
    ensures !Ready(sys, s) ==> Next(cron, sys, s) == sys
    ensures Ready(sys, s) ==>
              var t, row, id := Next(cron, sys, s), sys.rows[s.k], Key(s.k.ns, s.newId);
              && t.db.agents == sys.db.agents && t.db.runs == sys.db.runs
              && t.db.messages.Keys == sys.db.messages.Keys + {id}
              && (forall k :: k in sys.db.messages ==> t.db.messages[k] == sys.db.messages[k])
              && Fresh(t.db.messages[id], s.now, if Trim(s.thread) == "" then s.newId else s.thread, row.agent, "",
                       row.payload, map["schedule_id" := Str(s.k.id), "fired_at" := Num(s.due)], s.now, 5)
              && t.rows.Keys == sys.rows.Keys && (forall k :: k in sys.rows && k != s.k ==> t.rows[k] == sys.rows[k])
              && t.rows[s.k] == Sched(row.agent, row.expr, row.payload, true, Some(cron(row.expr, s.now) / 1_000_000),
                                      Some(s.due), s.now / 1_000_000)
  {
    hide LeastInstant, CatchUp, Insert, Trim, Fresh, FreshRow;
    if Matches(sys, s.k, s.due) {
      var m := FireMessage(s.k, sys.rows[s.k], s.due, s.now, s.thread);
      EnqueueOutcome(sys.db, s.now, m, s.newId);
      NoOwnId(m, s.newId);
      DueFirst(cron, at, sys.rows[s.k].expr, s.due, s.now);
    }
  }

  lemma NoOwnId(m: New, newId: string)
    requires m.id == ""
    ensures Named(m, newId) == Key(m.ns, newId)
  { }
}

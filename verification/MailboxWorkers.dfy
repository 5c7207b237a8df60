/** Workers around the mailbox: what a claim hands to an agent, and what the agent's result writes back. */
module MailboxWorkers {
  import opened Basics
  import opened MailboxRows
  import opened MailboxRuns

  type Meta = map<string, Val>

  // The keys the server puts into a trigger's metadata.
  const NAMESPACE := "server_namespace_id"
  const AGENT := "server_agent_id"
  const MESSAGE := "server_message_id"
  const THREAD := "server_thread_id"
  const RUN := "server_run_id"
  const SENDER := "server_sender_agent_id"
  const ATTEMPTS := "server_attempt_count"
  const MAXIMUM := "server_max_attempts"

  const FINISHED := "finished"
  const RETRY_DELAY := 30_000_000_000

  predicate Reserved(key: string) {
    key == NAMESPACE || key == AGENT || key == MESSAGE || key == THREAD || key == RUN || key == SENDER
        || key == ATTEMPTS || key == MAXIMUM
  }

  /** A sender's metadata that overrides none of the server's keys. */
  predicate Clean(meta: Meta) {
    forall key :: key in meta ==> !Reserved(key)
  }

  function ServerMeta(ns: string, agent: string, message: string, m: Msg): Meta {
    map[NAMESPACE := Str(ns), AGENT := Str(agent), MESSAGE := Str(message), THREAD := Str(m.thread), RUN := Str(m.run),
        ATTEMPTS := Num(m.attempts), MAXIMUM := Num(m.maxAttempts)]
    + if m.sender != "" then map[SENDER := Str(m.sender)] else map[]
  }

  /** The metadata MessageQueue.Next gives a claimed message: the server's keys, overridden by the sender's. */
  function TriggerMeta(ns: string, agent: string, message: string, m: Msg): Meta {
    ServerMeta(ns, agent, message, m) + m.meta
  }

  function MetaString(meta: Meta, key: string): string {
    if key in meta && meta[key].Str? then meta[key].s else ""
  }

  function MetaInt(meta: Meta, key: string): int {
    if key in meta && meta[key].Num? then meta[key].n else 0
  }

  datatype Context = Context(ns: string, agent: string, message: string, thread: string, run: string)

  /** TriggerContextFromMetadata: nothing but the thread may be missing. */
  function ContextOf(meta: Meta): Option<Context> {
    var c := Context(MetaString(meta, NAMESPACE), MetaString(meta, AGENT), MetaString(meta, MESSAGE),
                     MetaString(meta, THREAD), MetaString(meta, RUN));
    if c.ns == "" || c.agent == "" || c.message == "" || c.run == "" then None else Some(c)
  }

  // ---------- results ----------

  datatype When = Unset | At(t: int) | Unparsable
  datatype Entry = Entry(thread: string, recipient: string, body: nat, meta: Meta, when: When, maxAttempts: int)
  datatype Outcome = Outcome(status: string, finishedAt: int, error: string, outbox: seq<Entry>)

  predicate GoodEntry(e: Entry) {
    e.recipient != "" && e.when != Unparsable
  }

  /** FirstNonEmptyString */
  function FirstNonEmpty(a: string, b: string): string {
    if Trim(a) != "" then Trim(a) else Trim(b)
  }

  function ToNew(c: Context, e: Entry): New {
    New(c.ns, "", FirstNonEmpty(e.thread, c.thread), e.recipient, c.agent, e.body, e.meta,
        if e.when.At? then Some(e.when.t) else None, e.maxAttempts)
  }

  /** extractOutbox: None when an entry has no recipient or an unreadable time. */
  function ExtractOutbox(c: Context, es: seq<Entry>): (r: Option<seq<New>>)
    ensures r.Some? <==> forall i :: 0 <= i < |es| ==> GoodEntry(es[i])
    ensures r.Some? ==> |r.value| == |es| && forall i :: 0 <= i < |es| ==> r.value[i] == ToNew(c, es[i])
  {
    if forall i :: 0 <= i < |es| ==> GoodEntry(es[i])
    then Some(seq(|es|, i requires 0 <= i < |es| => ToNew(c, es[i])))
    else None
  }

  /** A worker's settings and what it reads and draws while handling a result. */
  datatype Handling = Handling(now: int, clock: int, delay: int, maySend: bool, ids: seq<string>)

  /** The attempts in the metadata are used up. */
  predicate Exhausted(meta: Meta) {
    MetaInt(meta, MAXIMUM) > 0 && MetaInt(meta, ATTEMPTS) >= MetaInt(meta, MAXIMUM)
  }

  /** HandleResult's decision: what CompleteRun is asked for, or None when it fails before that. */
  function Decide(meta: Meta, h: Handling, o: Outcome): (p: Option<Finish>)
    ensures p.Some? ==> (p.value.outbox != [] ==> o.status == FINISHED)
  {
    var c := ContextOf(meta);
    if c.None? then None
    else
      var dead := o.status != FINISHED && Exhausted(meta);
      var retry := o.status != FINISHED && !dead;
      var outbox := ExtractOutbox(c.value, o.outbox);
      if outbox.None? then None
      else
        var sent := if o.status == FINISHED then outbox.value else [];
        if sent != [] && !h.maySend then None
        else
          Some(Finish(c.value.ns, c.value.run, c.value.message, o.status, o.finishedAt,
                      if retry then Some(h.clock + (if h.delay <= 0 then RETRY_DELAY else h.delay)) else None,
                      if dead then "message exhausted retries after result status " + o.status else "",
                      o.error, sent, h.ids))
  }

  // ---------- workers and the mailbox together ----------

  /** The tables and the metadata of the triggers handed out and not yet handled. */
  datatype State = State(db: Db, triggers: set<Meta>)

  datatype Act =
    | Post(now: int, m: New, newId: string)
    | Fire(now: int, m: New, newId: string)
    | Claim(now: int, ns: string, agent: string, owner: string, duration: int, k: Key, run: string)
    | Handle(meta: Meta, h: Handling, o: Outcome)

  /** The mailbox transaction an act commits, if any. */
  ghost function StepOf(a: Act): Option<Step> {
    match a
    case Post(now, m, newId) => Some(Enqueues(now, m, newId))
    case Fire(now, m, newId) => Some(Fires(now, m, newId))
    case Claim(now, ns, agent, owner, duration, k, run) => Some(Claims(now, ns, agent, owner, duration, k, run))
    case Handle(meta, h, o) => var p := Decide(meta, h, o); if p.None? then None else Some(Completes(h.now, p.value))
  }

  ghost predicate CanAct(s: State, a: Act) {
    && (StepOf(a).Some? ==> Enabled(s.db, StepOf(a).value))
    && (a.Handle? ==> a.meta in s.triggers)
  }

  ghost function DbAfter(s: State, a: Act): Db
    requires CanAct(s, a)
  {
    if StepOf(a).None? then s.db else Apply(s.db, StepOf(a).value)
  }

  /** A trigger is handled once its completion commits; until then it stays out. */
  ghost function After(s: State, a: Act): State
    requires CanAct(s, a)
  {
    State(DbAfter(s, a),
          if a.Claim? && a.k in DbAfter(s, a).messages then
            s.triggers + {TriggerMeta(a.ns, a.agent, a.k.id, DbAfter(s, a).messages[a.k])}
          else if a.Handle? && StepOf(a).Some? && Complete(s.db, a.h.now, StepOf(a).value.p).Ok?
          then s.triggers - {a.meta}
          else s.triggers)
  }

  /** No lease has run out when a message is claimed, and no sender overrides the server's keys. */
  ghost predicate Disciplined(s: State, a: Act) {
    && (a.Claim? ==> forall k :: k in s.db.messages && s.db.messages[k].expires.Some? ==>
                       s.db.messages[k].expires.value > Millis(a.now))
    && (a.Post? || a.Fire? ==> Clean(a.m.meta))
    && (a.Handle? ==> forall i :: 0 <= i < |a.o.outbox| ==> Clean(a.o.outbox[i].meta))
  }

  ghost predicate IsHistory(ss: seq<State>, acts: seq<Act>) {
    && |ss| == |acts| + 1
    && forall i :: 0 <= i < |acts| ==> CanAct(ss[i], acts[i]) && ss[i + 1] == After(ss[i], acts[i])
  }

  ghost predicate AllDisciplined(ss: seq<State>, acts: seq<Act>)
    requires |ss| == |acts| + 1
  {
    forall i :: 0 <= i < |acts| ==> Disciplined(ss[i], acts[i])
  }

  // ---------- the invariant of disciplined histories ----------

  /** Attempts stay within the limit, a queued message has one left, and a dead letter has used them all. */
  predicate Bounded(m: Msg) {
    && (m.maxAttempts > 0 ==> m.attempts <= m.maxAttempts)
    && (m.maxAttempts > 0 && m.status == Queued ==> m.attempts < m.maxAttempts)
    && (m.status == DeadLetter ==> m.maxAttempts > 0 && m.attempts == m.maxAttempts)
  }

  /** The trigger's message is leased to the trigger's run, with the attempts the trigger says. */
  predicate Live(db: Db, meta: Meta) {
    var c := ContextOf(meta);
    && c.Some?
    && Key(c.value.ns, c.value.message) in db.messages
    && var m := db.messages[Key(c.value.ns, c.value.message)];
      m.status == Leased && m.run == c.value.run && MetaInt(meta, ATTEMPTS) == m.attempts
          && MetaInt(meta, MAXIMUM) == m.maxAttempts
  }

  function KeyOf(meta: Meta): Key
    requires ContextOf(meta).Some?
  {
    Key(ContextOf(meta).value.ns, ContextOf(meta).value.message)
  }

  ghost predicate RowsOk(db: Db) {
    && Inv(db)
    && forall k :: k in db.messages ==> Clean(db.messages[k].meta) && Bounded(db.messages[k]) && k.id != ""
  }

  /** Every trigger out is live, and no two are for the same message. */
  ghost predicate TriggersOk(s: State) {
    && (forall t :: t in s.triggers ==> Live(s.db, t))
    && (forall t, u :: t in s.triggers && u in s.triggers && KeyOf(t) == KeyOf(u) ==> t == u)
  }

  ghost predicate Steady(s: State) {
    RowsOk(s.db) && TriggersOk(s)
  }

  lemma ServerReads(ns: string, agent: string, message: string, m: Msg)
    ensures var t := ServerMeta(ns, agent, message, m);
            && ATTEMPTS in t && t[ATTEMPTS] == Num(m.attempts) && MAXIMUM in t && t[MAXIMUM] == Num(m.maxAttempts)
            && NAMESPACE in t && t[NAMESPACE] == Str(ns) && AGENT in t && t[AGENT] == Str(agent)
            && MESSAGE in t && t[MESSAGE] == Str(message) && THREAD in t && t[THREAD] == Str(m.thread)
            && RUN in t && t[RUN] == Str(m.run)
  {
    assert NAMESPACE[7] == 'n' && AGENT[7] == 'a' && MESSAGE[7] == 'm' && THREAD[7] == 't' && RUN[7] == 'r'
              && SENDER[7] == 's';
  }

  lemma TriggerReads(ns: string, agent: string, message: string, m: Msg)
    requires Clean(m.meta) && ns != "" && agent != "" && message != "" && m.run != ""
    ensures var t := TriggerMeta(ns, agent, message, m);
            && ContextOf(t) == Some(Context(ns, agent, message, m.thread, m.run))
            && MetaInt(t, ATTEMPTS) == m.attempts && MetaInt(t, MAXIMUM) == m.maxAttempts
  {
    hide ServerMeta;
    ServerReads(ns, agent, message, m);
  }

  lemma FreshBounded(now: int, m: New, id: string)
    requires Clean(m.meta)
    ensures Bounded(FreshRow(now, m, id)) && Clean(FreshRow(now, m, id).meta)
  { }

  /** A row's attempts do not exceed its limit, if it has one. */
  predicate Within(m: Msg) {
    m.maxAttempts > 0 ==> m.attempts <= m.maxAttempts
  }

  /** No attempt is left. */
  predicate AtLimit(m: Msg) {
    m.maxAttempts > 0 && m.attempts == m.maxAttempts
  }

  lemma BoundedWithin(m: Msg)
    requires Bounded(m)
    ensures Within(m)
  { }

  /** A claim of a row within its limit goes beyond it exactly when no attempt is left: claiming does not look. */
  lemma ClaimBoundIff(m: Msg, now: int, owner: string, duration: int, run: string)
    requires Within(m)
    ensures Within(LeasedRow(m, now, owner, duration, run)) <==> !AtLimit(m)
    ensures Bounded(m) && Claimable(m, Millis(now)) ==>
              (Bounded(LeasedRow(m, now, owner, duration, run)) <==> !(m.status == Leased && AtLimit(m)))
  { }

  /** A failed result is retried while attempts remain and dead-lettered on the last one; a finished one completes. */
  lemma Verdict(meta: Meta, h: Handling, o: Outcome, m: Msg)
    requires Decide(meta, h, o).Some? && MetaInt(meta, ATTEMPTS) == m.attempts
              && MetaInt(meta, MAXIMUM) == m.maxAttempts
    ensures DoneRow(m, h.now, Decide(meta, h, o).value).status
            == if o.status == FINISHED then Completed
               else if m.maxAttempts > 0 && m.attempts >= m.maxAttempts then DeadLetter
               else Queued
  {
    hide ExtractOutbox, ContextOf, MetaInt;
    NotEmpty("message exhausted retries after result status ", o.status);
  }

  lemma NotEmpty(a: string, b: string)
    requires a != ""
    ensures a + b != ""
  { }

  lemma DoneBounded(meta: Meta, h: Handling, o: Outcome, m: Msg)
    requires Decide(meta, h, o).Some? && MetaInt(meta, ATTEMPTS) == m.attempts
              && MetaInt(meta, MAXIMUM) == m.maxAttempts
    requires Bounded(m)
    ensures Bounded(DoneRow(m, h.now, Decide(meta, h, o).value))
  {
    hide Decide, MetaInt;
    Verdict(meta, h, o, m);
  }

  /** What a decision asks CompleteRun for comes from the trigger's own metadata. */
  lemma Decided(meta: Meta, h: Handling, o: Outcome)
    requires Decide(meta, h, o).Some?
    ensures var p := Decide(meta, h, o).value;
            ContextOf(meta).Some? && Key(p.ns, p.message) == KeyOf(meta) && p.run == ContextOf(meta).value.run
    ensures var p := Decide(meta, h, o).value;
            (forall i :: 0 <= i < |o.outbox| ==> Clean(o.outbox[i].meta)) ==>
              forall m :: m in p.outbox ==> Clean(m.meta)
    ensures |Decide(meta, h, o).value.outbox| == if o.status == FINISHED then |o.outbox| else 0
  { }

  /** The rows a disciplined act touches are queued ones it claims and leased ones its trigger owns. */
  lemma StepRowsOk(s: State, a: Act)
    requires Steady(s) && CanAct(s, a) && Disciplined(s, a)
    ensures RowsOk(DbAfter(s, a))
  {
    hide Inv, Enabled, Apply, Bounded, Clean, Decide, ContextOf, MetaInt;
    if StepOf(a).Some? {
      var step := StepOf(a).value;
      StepInv(s.db, step);
      forall k | k in Apply(s.db, step).messages
        ensures Clean(Apply(s.db, step).messages[k].meta) && Bounded(Apply(s.db, step).messages[k]) && k.id != ""
      {
        if k in s.db.messages {
          OldRowOk(s, a, step, k);
        } else {
          NewRowOk(s, a, step, k);
        }
      }
    }
  }

  lemma NewRowOk(s: State, a: Act, step: Step, k: Key)
    requires CanAct(s, a) && Disciplined(s, a) && StepOf(a) == Some(step)
    requires k !in s.db.messages && k in Apply(s.db, step).messages
    ensures Clean(Apply(s.db, step).messages[k].meta) && Bounded(Apply(s.db, step).messages[k]) && k.id != ""
  {
    hide Inv, Enabled, Apply, Bounded, Clean, Decide, ContextOf, MetaInt, FreshRow;
    NewRow(s.db, step, k);
    var m :| m in News(step) && Apply(s.db, step).messages[k] == FreshRow(step.now, m, k.id);
    if a.Handle? { Decided(a.meta, a.h, a.o); }
    FreshBounded(step.now, m, k.id);
  }

  lemma OldRowOk(s: State, a: Act, step: Step, k: Key)
    requires Steady(s) && CanAct(s, a) && Disciplined(s, a) && StepOf(a) == Some(step) && k in s.db.messages
    ensures k in Apply(s.db, step).messages
    ensures Clean(Apply(s.db, step).messages[k].meta) && Bounded(Apply(s.db, step).messages[k]) && k.id != ""
  {
    hide Inv, Apply, Bounded, Clean, Decide, ContextOf, MetaInt, Complete, Best, Eligible, Claimable;
    StepRow(s.db, step, k);
    if ClaimOf(step, k) {
      BestClaimable(s.db, step.ns, step.agent, Millis(step.now), k);
      QueuedClaim(s.db.messages[k], Millis(step.now));
      InvRow(s.db, k);
      BoundedWithin(s.db.messages[k]);
      ClaimBoundIff(s.db.messages[k], step.now, step.owner, step.duration, step.run);
    } else if CompletionOf(s.db, step, k) {
      Decided(a.meta, a.h, a.o);
      LiveRow(s.db, a.meta);
      DoneBounded(a.meta, a.h, a.o, s.db.messages[k]);
    }
  }

  lemma InvRow(db: Db, k: Key)
    requires Inv(db) && k in db.messages
    ensures RowOk(db.messages[k])
  { }

  lemma LiveRow(db: Db, meta: Meta)
    requires Live(db, meta)
    ensures ContextOf(meta).Some? && KeyOf(meta) in db.messages
    ensures var m := db.messages[KeyOf(meta)];
            m.status == Leased && m.run == ContextOf(meta).value.run
            && MetaInt(meta, ATTEMPTS) == m.attempts && MetaInt(meta, MAXIMUM) == m.maxAttempts
  { }

  /** A claimable row whose lease has not run out is a queued one. */
  lemma QueuedClaim(m: Msg, now: int)
    requires Claimable(m, now)
    ensures m.status == Queued || m.expires == None || m.expires.value <= now
  { }

  // ---------- triggers ----------

  /** An act that does not touch the trigger's message leaves the trigger live. */
  lemma StillLive(s: State, a: Act, t: Meta)
    requires CanAct(s, a) && Live(s.db, t)
    requires StepOf(a).Some? ==> !ClaimOf(StepOf(a).value, KeyOf(t)) && !CompletionOf(s.db, StepOf(a).value, KeyOf(t))
    ensures Live(DbAfter(s, a), t)
  {
    hide Apply, Enabled, Decide, CompletionOf, ContextOf, MetaInt, StepOf;
    if StepOf(a).Some? { StepRow(s.db, StepOf(a).value, KeyOf(t)); }
  }

  /** In a disciplined claim no trigger is out for the candidate. */
  lemma ClaimIsNew(s: State, a: Act, t: Meta)
    requires Steady(s) && CanAct(s, a) && Disciplined(s, a) && a.Claim? && t in s.triggers
    ensures KeyOf(t) != a.k
  {
    hide Apply, ContextOf, MetaInt, Claimable, RowOk, Bounded, Clean, Eligible, Best;
    LiveRow(s.db, t);
    BestClaimable(s.db, a.ns, a.agent, Millis(a.now), a.k);
    QueuedClaim(s.db.messages[a.k], Millis(a.now));
    InvRow(s.db, a.k);
    LeasedHas(s.db.messages[a.k]);
  }

  lemma LeasedHas(m: Msg)
    requires RowOk(m)
    ensures m.status == Leased ==> m.expires.Some?
  { }

  /** The trigger a claim hands out is live and for the candidate. */
  lemma ClaimLive(s: State, a: Act)
    requires RowsOk(s.db) && CanAct(s, a) && a.Claim?
    ensures a.k in DbAfter(s, a).messages
    ensures var t := TriggerMeta(a.ns, a.agent, a.k.id, DbAfter(s, a).messages[a.k]);
            Live(DbAfter(s, a), t) && KeyOf(t) == a.k
  {
    hide Apply, Inv, Bounded, Claimable, TriggerMeta, ContextOf, MetaInt, Clean, Best, Eligible;
    BestClaimable(s.db, a.ns, a.agent, Millis(a.now), a.k);
    StepRow(s.db, StepOf(a).value, a.k);
    var m := DbAfter(s, a).messages[a.k];
    TriggerReads(a.ns, a.agent, a.k.id, m);
  }

  lemma TriggersAfterClaim(s: State, a: Act)
    requires Steady(s) && CanAct(s, a) && Disciplined(s, a) && a.Claim?
    ensures TriggersOk(After(s, a))
  {
    hide Apply, RowsOk, Live, ContextOf, TriggerMeta, KeyOf, Enabled, Disciplined, CanAct, DbAfter;
    ClaimLive(s, a);
    var n := TriggerMeta(a.ns, a.agent, a.k.id, DbAfter(s, a).messages[a.k]);
    LiveRow(DbAfter(s, a), n);
    forall t | t in s.triggers ensures Live(DbAfter(s, a), t) && ContextOf(t).Some? && KeyOf(t) != a.k {
      LiveRow(s.db, t);
      ClaimIsNew(s, a, t);
      Untouched(s, a, t);
      StillLive(s, a, t);
    }
  }

  lemma Untouched(s: State, a: Act, t: Meta)
    requires CanAct(s, a) && a.Claim? && ContextOf(t).Some? && KeyOf(t) != a.k
    ensures StepOf(a).Some? && !ClaimOf(StepOf(a).value, KeyOf(t)) && !CompletionOf(s.db, StepOf(a).value, KeyOf(t))
  { }

  lemma HandleIff(s: State, a: Act)
    requires CanAct(s, a) && a.Handle? && Decide(a.meta, a.h, a.o).Some?
    ensures |a.h.ids| == |Decide(a.meta, a.h, a.o).value.outbox| && Decide(a.meta, a.h, a.o).value.ids == a.h.ids
    ensures var p := Decide(a.meta, a.h, a.o).value; Complete(s.db, a.h.now, p).Ok? <==> Accepted(s.db, p)
  {
    hide Complete, Accepted, ContextOf, MetaInt, ExtractOutbox;
    CompleteIff(s.db, a.h.now, Decide(a.meta, a.h, a.o).value);
  }

  lemma TriggersAfterOther(s: State, a: Act)
    requires Steady(s) && CanAct(s, a) && !a.Claim?
    ensures TriggersOk(After(s, a))
  {
    hide Apply, RowsOk, Live, ContextOf, KeyOf, Enabled, Decide, Complete, Accepted;
    forall t | t in s.triggers ensures ContextOf(t).Some? { LiveRow(s.db, t); }
    forall t | t in After(s, a).triggers ensures Live(DbAfter(s, a), t) {
      if a.Handle? && Decide(a.meta, a.h, a.o).Some? {
        Decided(a.meta, a.h, a.o);
        HandleIff(s, a);
      }
      StillLive(s, a, t);
    }
  }

  lemma SteadyStep(s: State, a: Act)
    requires Steady(s) && CanAct(s, a) && Disciplined(s, a)
    ensures Steady(After(s, a))
  {
    hide RowsOk, TriggersOk, DbAfter, CanAct, Disciplined;
    StepRowsOk(s, a);
    if a.Claim? {
      TriggersAfterClaim(s, a);
    } else {
      TriggersAfterOther(s, a);
    }
  }

  /**
   * In every state of every disciplined history attempts stay within the limit, dead letters have used them all, and
   * each trigger still out holds its message's lease.
   */
  lemma {:induction false} SteadyRun(ss: seq<State>, acts: seq<Act>, n: nat)
    requires IsHistory(ss, acts) && AllDisciplined(ss, acts) && Steady(ss[0]) && n <= |acts|
    ensures Steady(ss[n])
  {
    hide Steady, After, Disciplined, CanAct;
    if n > 0 {
      SteadyRun(ss, acts, n - 1);
      SteadyStep(ss[n - 1], acts[n - 1]);
    }
  }

  // ---------- terminal states ----------

  lemma ClosedStep(s: State, a: Act, k: Key)
    requires Steady(s) && CanAct(s, a) && k in s.db.messages && Closed(s.db.messages[k])
    ensures k in After(s, a).db.messages && After(s, a).db.messages[k] == s.db.messages[k]
  {
    hide Apply, RowsOk, Decide, Complete, ContextOf, MetaInt, Claimable;
    if StepOf(a).Some? {
      var step := StepOf(a).value;
      StepRow(s.db, step, k);
      if ClaimOf(step, k) {
        BestClaimable(s.db, step.ns, step.agent, Millis(step.now), k);
        ClaimableOpen(s.db.messages[k], Millis(step.now));
      } else if CompletionOf(s.db, step, k) {
        Decided(a.meta, a.h, a.o);
        LiveRow(s.db, a.meta);
      }
    }
  }

  lemma ClaimableOpen(m: Msg, now: int)
    requires Claimable(m, now)
    ensures !Closed(m)
  { }

  /** In a disciplined history a completed or dead-lettered message never changes again. */
  lemma {:induction false} TerminalAbsorbs(ss: seq<State>, acts: seq<Act>, k: Key, i: nat, j: nat)
    requires IsHistory(ss, acts) && AllDisciplined(ss, acts) && Steady(ss[0]) && i <= j <= |acts|
    requires k in ss[i].db.messages && Closed(ss[i].db.messages[k])
    ensures k in ss[j].db.messages && ss[j].db.messages[k] == ss[i].db.messages[k]
    decreases j - i
  {
    hide Steady, After, Disciplined, CanAct;
    if i < j {
      TerminalAbsorbs(ss, acts, k, i, j - 1);
      SteadyRun(ss, acts, j - 1);
      ClosedStep(ss[j - 1], acts[j - 1], k);
    }
  }

  /**
   * Handling a live trigger: its message is completed, put back with attempts left, or, when this was the last of its
   * attempts, dead-lettered; and completing the run can fail only on an outbox message.
   */
  lemma HandleVerdict(s: State, a: Act)
    requires Steady(s) && CanAct(s, a) && a.Handle? && Decide(a.meta, a.h, a.o).Some?
    ensures ContextOf(a.meta).Some? && KeyOf(a.meta) in s.db.messages
              && |a.h.ids| == |Decide(a.meta, a.h, a.o).value.outbox|
    ensures var k := KeyOf(a.meta);
            var m := s.db.messages[k];
            var c := Complete(s.db, a.h.now, Decide(a.meta, a.h, a.o).value);
            && (c.Err? ==> a.o.status == FINISHED && a.o.outbox != [] && (c.e == Duplicate || c.e == UnknownAgent))
            && (c.Ok? ==> k in c.value.messages && c.value.messages[k].status
                          == if a.o.status == FINISHED then Completed
                             else if m.maxAttempts > 0 && m.attempts == m.maxAttempts then DeadLetter else Queued)
  {
    hide Apply, Inv, ContextOf, MetaInt, Decide, InsertAll, DoneRow, KeyOf, Clean;
    Decided(a.meta, a.h, a.o);
    LiveRow(s.db, a.meta);
    var k := KeyOf(a.meta);
    var p := Decide(a.meta, a.h, a.o).value;
    Verdict(a.meta, a.h, a.o, s.db.messages[k]);
    RunExists(s.db, k);
    DecidedIds(a.meta, a.h, a.o);
    var r := InsertAll(Recorded(s.db, a.h.now, p), a.h.now, p.outbox, p.ids);
    if r.Err? {
      OutboxErrors(Recorded(s.db, a.h.now, p), a.h.now, p.outbox, p.ids);
    } else {
      InsertAllKeeps(Recorded(s.db, a.h.now, p), a.h.now, p.outbox, p.ids, k);
    }
  }

  lemma DecidedIds(meta: Meta, h: Handling, o: Outcome)
    requires Decide(meta, h, o).Some?
    ensures var p := Decide(meta, h, o).value; p.ns != "" && p.run != "" && p.message != "" && p.ids == h.ids
    ensures var p := Decide(meta, h, o).value; Key(p.ns, p.message) == KeyOf(meta) && p.run == ContextOf(meta).value.run
  { }

  lemma RunExists(db: Db, k: Key)
    requires Inv(db) && k in db.messages && db.messages[k].status == Leased
    ensures Key(k.ns, db.messages[k].run) in db.runs
  {
    assert MsgInv(db, k);
  }

  lemma {:induction false} OutboxErrors(db: Db, now: int, ms: seq<New>, ids: seq<string>)
    requires |ids| == |ms| && InsertAll(db, now, ms, ids).Err?
    ensures ms != [] && (InsertAll(db, now, ms, ids).e == Duplicate || InsertAll(db, now, ms, ids).e == UnknownAgent)
    decreases |ms|
  {
    if ms != [] && InsertAll(db, now, ms[..|ms| - 1], ids[..|ms| - 1]).Err? {
      OutboxErrors(db, now, ms[..|ms| - 1], ids[..|ms| - 1]);
    }
  }

  // ---------- conservation ----------

  /** What an act adds: an enqueued or fired message, or every outbox entry of a finished run that completes. */
  ghost function Sent(s: State, a: Act): nat
    requires CanAct(s, a)
  {
    match a
    case Post(now, m, newId) => if Enqueue(s.db, now, m, newId).Ok? then 1 else 0
    case Fire(now, m, newId) => if Insert(s.db, now, m, newId).Ok? then 1 else 0
    case Claim(_, _, _, _, _, _, _) => 0
    case Handle(meta, h, o) =>
      var p := Decide(meta, h, o);
      if o.status == FINISHED && p.Some? && Complete(s.db, h.now, p.value).Ok? then |o.outbox| else 0
  }

  ghost function AllSent(ss: seq<State>, acts: seq<Act>, n: nat): nat
    requires IsHistory(ss, acts) && n <= |acts|
  {
    if n == 0 then 0 else AllSent(ss, acts, n - 1) + Sent(ss[n - 1], acts[n - 1])
  }

  lemma SentIsAdded(s: State, a: Act)
    requires CanAct(s, a) && Inv(s.db)
    ensures Inv(After(s, a).db) && |After(s, a).db.messages| == |s.db.messages| + Sent(s, a)
  {
    hide Apply, Inv, Decide, Complete, Insert, Enabled, Enqueue;
    if StepOf(a).Some? {
      StepInv(s.db, StepOf(a).value);
      if a.Handle? { Decided(a.meta, a.h, a.o); }
    }
  }

  /**
   * In every history, disciplined or not, mailbox size is external enqueues, fires and outbox entries of finished
   * runs.
   */
  lemma {:induction false} MailConserved(ss: seq<State>, acts: seq<Act>, n: nat)
    requires IsHistory(ss, acts) && Inv(ss[0].db) && n <= |acts|
    ensures Inv(ss[n].db) && |ss[n].db.messages| == |ss[0].db.messages| + AllSent(ss, acts, n)
  {
    hide After, CanAct, Sent, Inv;
    if n > 0 {
      MailConserved(ss, acts, n - 1);
      SentIsAdded(ss[n - 1], acts[n - 1]);
    }
  }
}

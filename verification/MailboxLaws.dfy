/** What each mailbox transaction leaves in the tables, field by field, and what a handled result commits. */
module MailboxLaws {
  import opened Basics
  import opened MailboxRows
  import opened MailboxRuns
  import opened MailboxWorkers

  // ---------- rows that are put in ----------

  /** The row of a message just put in at `now`, in nanoseconds; rows hold milliseconds. */
  ghost predicate Fresh(r: Msg, now: int, thread: string, recipient: string, sender: string, body: nat, meta: Meta,
                        available: int, limit: int)
  {
    && r.thread == thread && r.recipient == recipient && r.sender == sender && r.body == body && r.meta == meta
    && r.status == Queued && r.availableAt == available / 1_000_000 && r.attempts == 0 && r.maxAttempts == limit
    && r.owner == "" && r.expires == None && r.run == "" && r.deadReason == "" && r.lastError == ""
    && r.createdAt == now / 1_000_000 && r.updatedAt == now / 1_000_000 && r.claimedAt == None && r.completedAt == None
  }

  /** The row for a message under an id: no thread of its own means the id's, no time means now, no limit means five. */
  ghost predicate FreshFor(r: Msg, now: int, m: New, id: string) {
    Fresh(r, now, if Trim(m.thread) == "" then id else m.thread, m.recipient, m.sender, m.body, m.meta,
          match m.availableAt case Some(t) => t case None => now, if m.maxAttempts == 0 then 5 else m.maxAttempts)
  }

  /** A message's own id, or the generated one if it is blank. */
  ghost function Named(m: New, newId: string): Key {
    Key(m.ns, if Trim(m.id) == "" then newId else m.id)
  }

  lemma {:induction false} BlankTrims(s: string)
    ensures Blank(s) <==> Trim(s) == ""
    decreases |s|
  {
    hide Space;
    if s != "" && Space(s[0]) {
      BlankTrims(s[1..]);
      assert s == [s[0]] + s[1..];
    } else if s != "" && Space(s[|s| - 1]) {
      BlankTrims(s[..|s| - 1]);
    }
  }

  lemma NewKeyIs(m: New, newId: string)
    ensures NewKey(m, newId) == Named(m, newId)
  {
    hide Blank, Trim;
    BlankTrims(m.id);
  }

  lemma FreshRowIs(now: int, m: New, id: string)
    ensures FreshFor(FreshRow(now, m, id), now, m, id)
  {
    hide Blank, Trim;
    BlankTrims(m.thread);
  }

  /** One more message, nothing else. */
  ghost predicate Delivered(db: Db, after: Db, now: int, m: New, newId: string) {
    var key := Named(m, newId);
    && after.agents == db.agents && after.runs == db.runs && after.messages.Keys == db.messages.Keys + {key}
    && FreshFor(after.messages[key], now, m, key.id)
    && forall k :: k in db.messages ==> k in after.messages && after.messages[k] == db.messages[k]
  }

  /** An enqueue needs a namespace, a recipient that is an agent and an id that is new; a fire only the last two. */
  lemma EnqueueOutcome(db: Db, now: int, m: New, newId: string)
    ensures var key, r := Named(m, newId), Insert(db, now, m, newId);
            && (key in db.messages ==> r == Err(Duplicate))
            && (key !in db.messages && Key(m.ns, m.recipient) !in db.agents ==> r == Err(UnknownAgent))
            && (key !in db.messages && Key(m.ns, m.recipient) in db.agents ==>
                r.Ok? && Delivered(db, r.value, now, m, newId))
    ensures Enqueue(db, now, m, newId)
         == if m.ns == "" || m.recipient == "" then Err(Invalid) else Insert(db, now, m, newId)
  {
    hide Named, FreshFor, FreshRow, NewKey;
    NewKeyIs(m, newId);
    var key := NewKey(m, newId);
    NamedNs(m, newId);
    FreshRowIs(now, m, key.id);
  }

  lemma NamedNs(m: New, newId: string)
    ensures Named(m, newId).ns == m.ns
  { }

  // ---------- claims ----------

  /** A message waits for an agent: queued, or leased with its lease run out, and its time has come. */
  ghost predicate Waits(db: Db, ns: string, agent: string, now: int, k: Key) {
    && k in db.messages && k.ns == ns && db.messages[k].recipient == agent
    && var m := db.messages[k];
       && m.availableAt <= now
       && match m.status
          case Queued => true
          case Leased => m.expires == None || m.expires.value <= now
          case _ => false
  }

  ghost predicate NotAfter(a: Msg, b: Msg) {
    a.availableAt < b.availableAt || (a.availableAt == b.availableAt && a.createdAt <= b.createdAt)
  }

  /** A claim takes a waiting message, of those one of the first available and among these the first made. */
  lemma CandidateIs(db: Db, ns: string, agent: string, now: int, k: Key)
    ensures Best(db, ns, agent, now, k) <==>
            && Waits(db, ns, agent, now, k)
            && forall j :: Waits(db, ns, agent, now, j) ==> NotAfter(db.messages[k], db.messages[j])
    ensures (exists j :: Best(db, ns, agent, now, j)) <==> exists j :: Waits(db, ns, agent, now, j)
  {
    forall j ensures Waits(db, ns, agent, now, j) <==> Eligible(db, ns, agent, now, j) { }
    CandidateExists(db, ns, agent, now);
    hide Waits, Eligible;
    assert forall j :: Eligible(db, ns, agent, now, j) ==> j in db.messages by { EligibleIn(db, ns, agent, now); }
  }

  lemma EligibleIn(db: Db, ns: string, agent: string, now: int)
    ensures forall j :: Eligible(db, ns, agent, now, j) ==> j in db.messages
  { }

  /** The row claimed: leased, one attempt more, and the first claim remembered; the rest is as it was. */
  ghost predicate LeasedTo(m: Msg, r: Msg, now: int, owner: string, duration: int, run: string) {
    && r.status == Leased && r.owner == owner && r.run == run && r.expires == Some((now + duration) / 1_000_000)
    && r.attempts == m.attempts + 1 && r.updatedAt == now / 1_000_000
    && r.claimedAt == Some(match m.claimedAt case Some(t) => t case None => now / 1_000_000)
    && r.thread == m.thread && r.recipient == m.recipient && r.sender == m.sender && r.body == m.body
    && r.meta == m.meta && r.availableAt == m.availableAt && r.maxAttempts == m.maxAttempts
    && r.deadReason == m.deadReason && r.lastError == m.lastError && r.createdAt == m.createdAt
    && r.completedAt == m.completedAt
  }

  lemma ClaimOutcome(db: Db, s: Step)
    requires Enabled(db, s) && s.Claims?
    ensures Waits(db, s.ns, s.agent, s.now / 1_000_000, s.k)
    ensures forall j :: Waits(db, s.ns, s.agent, s.now / 1_000_000, j) ==> NotAfter(db.messages[s.k], db.messages[j])
    ensures var after, run := Apply(db, s), Key(s.ns, s.run);
            && after.agents == db.agents && after.messages.Keys == db.messages.Keys
            && LeasedTo(db.messages[s.k], after.messages[s.k], s.now, s.owner, s.duration, s.run)
            && (forall j :: j in db.messages && j != s.k ==> after.messages[j] == db.messages[j])
            && run !in db.runs && after.runs.Keys == db.runs.Keys + {run}
            && after.runs[run] == Run(s.k.id, s.agent, "running", s.now / 1_000_000, None)
            && forall r :: r in db.runs ==> after.runs[r] == db.runs[r]
  {
    hide LeasedTo, Waits, NotAfter, Best, LeasedRow;
    CandidateIs(db, s.ns, s.agent, s.now / 1_000_000, s.k);
    BestClaimable(db, s.ns, s.agent, Millis(s.now), s.k);
    LeasedIs(db.messages[s.k], s.now, s.owner, s.duration, s.run);
  }

  lemma LeasedIs(m: Msg, now: int, owner: string, duration: int, run: string)
    ensures LeasedTo(m, LeasedRow(m, now, owner, duration, run), now, owner, duration, run)
  { }

  // ---------- completions ----------

  /** The row completed: dead with a reason, else queued again if a retry is asked for, else done. */
  ghost predicate Finished(m: Msg, r: Msg, now: int, at: int, retryAt: Option<int>, reason: string, error: string) {
    && r.status == (if reason != "" then DeadLetter else if retryAt.Some? then Queued else Completed)
    && r.availableAt == (if reason == "" && retryAt.Some? then retryAt.value else at) / 1_000_000
    && r.completedAt == (if reason == "" && retryAt.Some? then None else Some(at / 1_000_000))
    && r.deadReason == reason && r.lastError == error && r.updatedAt == now / 1_000_000
    && r.owner == "" && r.expires == None && r.run == ""
    && r.thread == m.thread && r.recipient == m.recipient && r.sender == m.sender && r.body == m.body
    && r.meta == m.meta && r.attempts == m.attempts && r.maxAttempts == m.maxAttempts
    && r.createdAt == m.createdAt && r.claimedAt == m.claimedAt
  }

  lemma DoneIs(m: Msg, now: int, p: Finish)
    ensures Finished(m, DoneRow(m, now, p), now, p.finishedAt, p.retryAt, p.deadReason, p.error)
  { }

  /** The run and its message are closed, every outbox message is put in, and nothing else changes. */
  ghost predicate Closes(db: Db, after: Db, now: int, p: Finish)
    requires |p.ids| == |p.outbox|
  {
    var run, k := Key(p.ns, p.run), Key(p.ns, p.message);
    && run in db.runs && k in db.messages && after.agents == db.agents
    && after.runs == db.runs[run := Run(db.runs[run].message, db.runs[run].agent, p.status, db.runs[run].startedAt,
                                        Some(p.finishedAt / 1_000_000))]
    && k in after.messages
    && Finished(db.messages[k], after.messages[k], now, p.finishedAt, p.retryAt, p.deadReason, p.error)
    && (forall j :: j in db.messages && j != k ==> j in after.messages && after.messages[j] == db.messages[j])
    && (forall i :: 0 <= i < |p.outbox| ==>
          && Named(p.outbox[i], p.ids[i]) !in db.messages && Named(p.outbox[i], p.ids[i]) in after.messages
          && FreshFor(after.messages[Named(p.outbox[i], p.ids[i])], now, p.outbox[i], Named(p.outbox[i], p.ids[i]).id))
    && forall j :: j in after.messages && j !in db.messages ==>
         exists i :: 0 <= i < |p.outbox| && j == Named(p.outbox[i], p.ids[i])
  }

  /** The i-th outbox message is the first that cannot be put in, and why. */
  ghost predicate Refused(db: Db, p: Finish, i: nat, e: Error)
    requires |p.ids| == |p.outbox| && i < |p.outbox|
  {
    && Insertable(db, p.outbox[..i], p.ids[..i])
    && var key := NewKey(p.outbox[i], p.ids[i]);
       if key in db.messages || exists j :: 0 <= j < i && NewKey(p.outbox[j], p.ids[j]) == key then e == Duplicate
       else Key(p.outbox[i].ns, p.outbox[i].recipient) !in db.agents && e == UnknownAgent
  }

  /** CompleteRun commits all of it or reports the first thing wrong. */
  lemma CompleteOutcome(db: Db, now: int, p: Finish)
    requires |p.ids| == |p.outbox|
    ensures match Complete(db, now, p)
            case Ok(after) => Closes(db, after, now, p)
            case Err(e) =>
              if p.ns == "" || p.run == "" || p.message == "" then e == Invalid
              else if Key(p.ns, p.run) !in db.runs || Key(p.ns, p.message) !in db.messages then e == NotFound
              else exists i :: 0 <= i < |p.outbox| && Refused(db, p, i, e)
  {
    hide InsertAll, DoneRow, NewKey, FreshRow, Insertable, Finished, FreshFor, Named, Refused;
    if Key(p.ns, p.run) in db.runs && Key(p.ns, p.message) in db.messages {
      var mid := Recorded(db, now, p);
      assert mid.messages.Keys == db.messages.Keys;
      DoneIs(db.messages[Key(p.ns, p.message)], now, p);
      if InsertAll(mid, now, p.outbox, p.ids).Ok? {
        PutIn(mid, now, p.outbox, p.ids);
      } else {
        assert p.outbox[..|p.outbox|] == p.outbox && p.ids[..|p.outbox|] == p.ids;
        var i := FirstRefused(mid, now, p, |p.outbox|);
        SameTables(mid, db, p, i, InsertAll(mid, now, p.outbox, p.ids).e);
      }
    }
  }

  lemma PutIn(db: Db, now: int, ms: seq<New>, ids: seq<string>)
    requires |ids| == |ms| && InsertAll(db, now, ms, ids).Ok?
    ensures var after := InsertAll(db, now, ms, ids).value;
            && (forall j :: j in db.messages ==> j in after.messages && after.messages[j] == db.messages[j])
            && (forall i :: 0 <= i < |ms| ==>
                  && Named(ms[i], ids[i]) !in db.messages && Named(ms[i], ids[i]) in after.messages
                  && FreshFor(after.messages[Named(ms[i], ids[i])], now, ms[i], Named(ms[i], ids[i]).id))
            && forall j :: j in after.messages && j !in db.messages ==>
                 exists i :: 0 <= i < |ms| && j == Named(ms[i], ids[i])
  {
    hide InsertAll, NewKey, FreshRow, FreshFor, Named;
    InsertAllKeys(db, now, ms, ids);
    var after := InsertAll(db, now, ms, ids).value;
    forall i | 0 <= i < |ms| ensures NewKey(ms[i], ids[i]) == Named(ms[i], ids[i]) { NewKeyIs(ms[i], ids[i]); }
    forall j | j in db.messages ensures j in after.messages && after.messages[j] == db.messages[j] {
      InsertAllKeeps(db, now, ms, ids, j);
    }
    forall i | 0 <= i < |ms|
      ensures Named(ms[i], ids[i]) in after.messages
      ensures FreshFor(after.messages[Named(ms[i], ids[i])], now, ms[i], Named(ms[i], ids[i]).id)
    {
      var k := NewKey(ms[i], ids[i]);
      InsertAllKeeps(db, now, ms, ids, k);
      FreshRowIs(now, ms[i], k.id);
    }
  }

  lemma {:induction false} FirstRefused(db: Db, now: int, p: Finish, n: nat) returns (i: nat)
    requires |p.ids| == |p.outbox| && n <= |p.outbox| && InsertAll(db, now, p.outbox[..n], p.ids[..n]).Err?
    ensures i < n && Refused(db, p, i, InsertAll(db, now, p.outbox[..n], p.ids[..n]).e)
  {
    hide Insert, NewKey, Insertable, InsertAll;
    if n == 0 { InsertNothing(db, now, p.outbox[..n], p.ids[..n]); }
    var a, b := p.outbox[..n - 1], p.ids[..n - 1];
    assert p.outbox[..n][..n - 1] == a && p.ids[..n][..n - 1] == b;
    InsertLast(db, now, p.outbox[..n], p.ids[..n]);
    if InsertAll(db, now, a, b).Err? {
      i := FirstRefused(db, now, p, n - 1);
    } else {
      i := n - 1;
      InsertAllKeys(db, now, a, b);
      var mid := InsertAll(db, now, a, b).value;
      InsertErr(mid, now, p.outbox[i], p.ids[i]);
      var key := NewKey(p.outbox[i], p.ids[i]);
      if key in mid.messages && key !in db.messages {
        var j :| 0 <= j < |a| && NewKey(a[j], b[j]) == key;
        assert NewKey(p.outbox[j], p.ids[j]) == key;
      }
      forall j | 0 <= j < i && NewKey(p.outbox[j], p.ids[j]) == key ensures key in mid.messages {
        assert NewKey(a[j], b[j]) == key;
      }
    }
  }

  lemma InsertNothing(db: Db, now: int, ms: seq<New>, ids: seq<string>)
    requires |ids| == |ms| == 0
    ensures InsertAll(db, now, ms, ids) == Ok(db)
  { }

  lemma InsertLast(db: Db, now: int, ms: seq<New>, ids: seq<string>)
    requires |ids| == |ms| && ms != []
    ensures InsertAll(db, now, ms, ids)
            == var r := InsertAll(db, now, ms[..|ms| - 1], ids[..|ms| - 1]);
               if r.Err? then r else Insert(r.value, now, ms[|ms| - 1], ids[|ms| - 1])
  {
    hide Insert;
  }

  lemma InsertErr(db: Db, now: int, m: New, newId: string)
    requires Insert(db, now, m, newId).Err?
    ensures var e := Insert(db, now, m, newId).e;
            if NewKey(m, newId) in db.messages then e == Duplicate
            else Key(m.ns, m.recipient) !in db.agents && e == UnknownAgent
  {
    hide NewKey;
  }

  /** Recording the run and message leaves keys and agents alone. */
  lemma SameTables(mid: Db, db: Db, p: Finish, i: nat, e: Error)
    requires |p.ids| == |p.outbox| && i < |p.outbox| && mid.messages.Keys == db.messages.Keys && mid.agents == db.agents
    requires Refused(mid, p, i, e)
    ensures Refused(db, p, i, e)
  {
    hide NewKey;
  }

  // ---------- triggers ----------

  /** A trigger's metadata: what the sender gave, then the server's keys where the sender did not override them. */
  lemma TriggerIs(ns: string, agent: string, message: string, m: Msg, key: string)
    ensures var t := TriggerMeta(ns, agent, message, m);
            if key in m.meta then key in t && t[key] == m.meta[key]
            else
              (if key in t then Some(t[key]) else None)
              == if key == "server_namespace_id" then Some(Str(ns))
                 else if key == "server_agent_id" then Some(Str(agent))
                 else if key == "server_message_id" then Some(Str(message))
                 else if key == "server_thread_id" then Some(Str(m.thread))
                 else if key == "server_run_id" then Some(Str(m.run))
                 else if key == "server_attempt_count" then Some(Num(m.attempts))
                 else if key == "server_max_attempts" then Some(Num(m.maxAttempts))
                 else if key == "server_sender_agent_id" && m.sender != "" then Some(Str(m.sender))
                 else None
  {
    KeysApart();
  }

  /** The server's keys differ. */
  lemma KeysApart()
    ensures NAMESPACE[7] == 'n' && AGENT[7..9] == "ag" && MESSAGE[7..9] == "me" && THREAD[7] == 't' && RUN[7] == 'r'
    ensures SENDER[7] == 's' && ATTEMPTS[7..9] == "at" && MAXIMUM[7..9] == "ma"
  { }

  // ---------- results ----------

  ghost predicate Done(o: Outcome) {
    o.status == "finished"
  }

  /** Handling fails early: the trigger is incomplete, an entry is no good, or sending is not allowed. */
  ghost predicate Unfit(meta: Meta, h: Handling, o: Outcome) {
    || MetaString(meta, NAMESPACE) == "" || MetaString(meta, AGENT) == "" || MetaString(meta, MESSAGE) == ""
    || MetaString(meta, RUN) == ""
    || (exists i :: 0 <= i < |o.outbox| && (o.outbox[i].recipient == "" || o.outbox[i].when.Unparsable?))
    || (Done(o) && o.outbox != [] && !h.maySend)
  }

  /** The run and message exist, and each entry of a finished result has an agent to go to and an id of its own. */
  ghost predicate Fit(db: Db, meta: Meta, h: Handling, o: Outcome) {
    var ns := MetaString(meta, NAMESPACE);
    && Key(ns, MetaString(meta, RUN)) in db.runs && Key(ns, MetaString(meta, MESSAGE)) in db.messages
    && (Done(o) && |h.ids| == |o.outbox| ==>
        && (forall i :: 0 <= i < |o.outbox| ==>
              Key(ns, h.ids[i]) !in db.messages && Key(ns, o.outbox[i].recipient) in db.agents)
        && forall i, j :: 0 <= i < j < |o.outbox| ==> h.ids[i] != h.ids[j])
  }

  /** The first of them that is not blank. */
  ghost function Thread(e: Entry, meta: Meta, id: string): string {
    if Trim(e.thread) != "" then Trim(e.thread)
    else if Trim(MetaString(meta, THREAD)) != "" then Trim(MetaString(meta, THREAD))
    else id
  }

  ghost function Retry(meta: Meta, h: Handling, o: Outcome): Option<int> {
    if Done(o) || UsedUp(meta) then None else Some(h.clock + if h.delay > 0 then h.delay else 30_000_000_000)
  }

  ghost predicate UsedUp(meta: Meta) {
    MetaInt(meta, MAXIMUM) > 0 && MetaInt(meta, ATTEMPTS) >= MetaInt(meta, MAXIMUM)
  }

  ghost function Reason(meta: Meta, o: Outcome): string {
    if Done(o) || !UsedUp(meta) then "" else "message exhausted retries after result status " + o.status
  }

  /**
   * What handling a result commits: its run finished with its status, its message done, retried or dead, and for each
   * entry of a finished result a message from the trigger's agent to the entry's recipient with the entry's own
   * content.
   */
  ghost predicate Handled(db: Db, after: Db, meta: Meta, h: Handling, o: Outcome) {
    var ns := MetaString(meta, NAMESPACE);
    var run, k := Key(ns, MetaString(meta, RUN)), Key(ns, MetaString(meta, MESSAGE));
    && run in db.runs && k in db.messages && after.agents == db.agents
    && after.runs == db.runs[run := Run(db.runs[run].message, db.runs[run].agent, o.status, db.runs[run].startedAt,
                                        Some(o.finishedAt / 1_000_000))]
    && k in after.messages
    && Finished(db.messages[k], after.messages[k], h.now, o.finishedAt, Retry(meta, h, o), Reason(meta, o), o.error)
    && (forall j :: j in db.messages && j != k ==> j in after.messages && after.messages[j] == db.messages[j])
    && (Done(o) ==>
        |h.ids| == |o.outbox| && forall i :: 0 <= i < |o.outbox| ==>
          && Key(ns, h.ids[i]) !in db.messages && Key(ns, h.ids[i]) in after.messages
          && Mailed(after.messages[Key(ns, h.ids[i])], meta, h, o.outbox[i], h.ids[i]))
    && forall j :: j in after.messages && j !in db.messages ==>
         Done(o) && exists i :: 0 <= i < |h.ids| && j == Key(ns, h.ids[i])
  }

  /** The row of an outbox entry. */
  ghost predicate Mailed(r: Msg, meta: Meta, h: Handling, e: Entry, id: string) {
    Fresh(r, h.now, Thread(e, meta, id), e.recipient, MetaString(meta, AGENT), e.body, e.meta,
          match e.when case At(t) => t case _ => h.now, if e.maxAttempts == 0 then 5 else e.maxAttempts)
  }

  /** What the handling of a result comes to: nothing, or all of it in one transaction. */
  lemma HandleOutcome(db: Db, meta: Meta, h: Handling, o: Outcome)
    requires Decide(meta, h, o).Some? ==> |h.ids| == |Decide(meta, h, o).value.outbox|
    ensures Decide(meta, h, o).None? <==> Unfit(meta, h, o)
    ensures Decide(meta, h, o).Some? ==>
              var p := Decide(meta, h, o).value;
              && |p.ids| == |p.outbox|
              && match Complete(db, h.now, p)
                 case Ok(after) => Fit(db, meta, h, o) && Handled(db, after, meta, h, o)
                 case Err(_) => !Fit(db, meta, h, o)
  {
    hide Complete, Closes, MetaString, MetaInt, Trim, Handled, Fit, Insertable, Mailed;
    if Decide(meta, h, o).Some? {
      var p := Decide(meta, h, o).value;
      CompleteIff(db, h.now, p);
      FitIff(db, meta, h, o, p);
      if Complete(db, h.now, p).Ok? {
        CompleteOutcome(db, h.now, p);
        HandledIs(db, Complete(db, h.now, p).value, meta, h, o, p);
      }
    }
  }

  /** The message an entry becomes: from the trigger's agent, in the entry's own thread or else the trigger's. */
  ghost predicate Becomes(m: New, c: Context, e: Entry) {
    && m.ns == c.ns && m.id == "" && m.sender == c.agent && m.recipient == e.recipient
    && m.body == e.body && m.meta == e.meta && m.maxAttempts == e.maxAttempts
    && m.thread == (if Trim(e.thread) != "" then Trim(e.thread) else Trim(c.thread))
    && m.availableAt == match e.when case At(t) => Some(t) case _ => None
  }

  lemma EntryBecomes(c: Context, e: Entry)
    ensures Becomes(ToNew(c, e), c, e)
  {
    hide Trim;
  }

  ghost function From(meta: Meta): Context {
    Context(MetaString(meta, NAMESPACE), MetaString(meta, AGENT), MetaString(meta, MESSAGE), MetaString(meta, THREAD),
            MetaString(meta, RUN))
  }

  lemma Outboxed(meta: Meta, h: Handling, o: Outcome)
    requires Decide(meta, h, o).Some?
    ensures var p := Decide(meta, h, o).value;
            && p.ns == MetaString(meta, NAMESPACE) && p.run == MetaString(meta, RUN)
            && p.message == MetaString(meta, MESSAGE) && p.ns != "" && p.run != "" && p.message != ""
            && p.status == o.status && p.finishedAt == o.finishedAt && p.error == o.error && p.ids == h.ids
            && p.retryAt == Retry(meta, h, o) && p.deadReason == Reason(meta, o)
            && |p.outbox| == (if Done(o) then |o.outbox| else 0)
            && forall i :: 0 <= i < |p.outbox| ==> Becomes(p.outbox[i], From(meta), o.outbox[i])
  {
    hide MetaString, MetaInt, Trim;
  }

  lemma FitIff(db: Db, meta: Meta, h: Handling, o: Outcome, p: Finish)
    requires Decide(meta, h, o) == Some(p) && |h.ids| == |p.outbox|
    ensures |p.ids| == |p.outbox| && (Fit(db, meta, h, o) <==> Accepted(db, p))
  {
    hide Decide, MetaString, MetaInt, Trim;
    Outboxed(meta, h, o);
    forall i | 0 <= i < |p.outbox| ensures NewKey(p.outbox[i], p.ids[i]) == Key(p.ns, h.ids[i]) { }
    hide NewKey, Becomes;
    forall i | 0 <= i < |p.outbox| ensures p.outbox[i].ns == p.ns && p.outbox[i].recipient == o.outbox[i].recipient {
      BecomesTo(p.outbox[i], From(meta), o.outbox[i]);
    }
  }

  lemma BecomesTo(m: New, c: Context, e: Entry)
    requires Becomes(m, c, e)
    ensures m.ns == c.ns && m.recipient == e.recipient
  { }

  lemma HandledIs(db: Db, after: Db, meta: Meta, h: Handling, o: Outcome, p: Finish)
    requires Decide(meta, h, o) == Some(p) && |h.ids| == |p.outbox| && |p.ids| == |p.outbox|
    requires Closes(db, after, h.now, p)
    ensures Handled(db, after, meta, h, o)
  {
    hide Decide, MetaString, MetaInt, Trim, Becomes, Mailed, FreshFor, Finished, Named, Reason, Retry;
    Outboxed(meta, h, o);
    forall i | 0 <= i < |p.outbox|
      ensures Named(p.outbox[i], p.ids[i]) == Key(p.ns, h.ids[i])
      ensures forall r :: FreshFor(r, h.now, p.outbox[i], h.ids[i]) ==> Mailed(r, meta, h, o.outbox[i], h.ids[i])
    {
      BecomesNamed(p.outbox[i], meta, o.outbox[i], h.ids[i]);
      forall r | FreshFor(r, h.now, p.outbox[i], h.ids[i]) ensures Mailed(r, meta, h, o.outbox[i], h.ids[i]) {
        BecomesMailed(r, p.outbox[i], meta, h, o.outbox[i], h.ids[i]);
      }
    }
  }

  lemma BecomesNamed(m: New, meta: Meta, e: Entry, id: string)
    requires Becomes(m, From(meta), e)
    ensures Named(m, id) == Key(MetaString(meta, NAMESPACE), id)
  {
    assert Trim("") == "";
  }

  lemma BecomesMailed(r: Msg, m: New, meta: Meta, h: Handling, e: Entry, id: string)
    requires Becomes(m, From(meta), e) && FreshFor(r, h.now, m, id)
    ensures Mailed(r, meta, h, e, id)
  {
    hide Trim, MetaString;
    TrimTwice(e.thread);
    TrimTwice(MetaString(meta, THREAD));
  }

  lemma {:induction false} TrimTwice(s: string)
    ensures Trim(Trim(s)) == Trim(s)
    decreases |s|
  {
    if s != "" && Space(s[0]) {
      TrimTwice(s[1..]);
    } else if s != "" && Space(s[|s| - 1]) {
      TrimTwice(s[..|s| - 1]);
    }
  }
}

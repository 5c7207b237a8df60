/** The store's transactions as methods over its tables, and the worker's two ends of them. */
module MailboxStore {
  import opened Basics
  import opened MailboxRows
  import opened MailboxRuns
  import opened MailboxWorkers
  import opened MailboxLaws

  class Store {
    const agents: set<Key>
    const leaseOwner: string
    var messages: map<Key, Msg>
    var runs: map<Key, Run>

    constructor (agents: set<Key>, leaseOwner: string)
      requires leaseOwner != ""
      ensures Tables() == Db(agents, map[], map[]) && this.leaseOwner == leaseOwner
      ensures Inv(Tables())
    {
      this.agents, this.leaseOwner := agents, leaseOwner;
      messages, runs := map[], map[];
    }

    function Tables(): Db
      reads this
    {
      Db(agents, messages, runs)
    }

    method EnqueueMessage(now: int, m: New, newId: string) returns (r: Result<Key>)
      modifies this
      ensures Tables() == Committed(old(Tables()), Enqueue(old(Tables()), now, m, newId))
      ensures match Enqueue(old(Tables()), now, m, newId)
              case Ok(_) => r == Ok(NewKey(m, newId))
              case Err(e) => r == Err(e)
    {
      if m.ns == "" || m.recipient == "" {
        return Err(Invalid);
      }
      var key := NewKey(m, newId);
      if key in messages {
        return Err(Duplicate);
      }
      if Key(m.ns, m.recipient) !in agents {
        return Err(UnknownAgent);
      }
      messages := messages[key := FreshRow(now, m, key.id)];
      r := Ok(key);
    }

    /** claimCandidate: the first eligible row, if there is one. */
    method ClaimCandidate(now: int, ns: string, agent: string) returns (r: Option<Key>)
      ensures r.Some? ==> Best(Tables(), ns, agent, Millis(now), r.value)
      ensures r.None? ==> forall k :: !Eligible(Tables(), ns, agent, Millis(now), k)
    {
      var db := Tables();
      if k :| k in db.messages && Best(db, ns, agent, Millis(now), k) {
        return Some(k);
      }
      CandidateExists(db, ns, agent, Millis(now));
      r := None;
    }

    /** The id drawn for the run is new; `renders` says which message bodies a prompt can be made from. */
    method ClaimNextMessage(now: int, ns: string, agent: string, owner: string, duration: int, run: string,
                            renders: nat -> bool)
      returns (r: Result<Key>)
      requires leaseOwner != "" && run != "" && Key(ns, run) !in runs
      modifies this
      ensures r.Err? ==> Tables() == old(Tables())
      ensures r == Err(Invalid) <==> ns == "" || agent == ""
      ensures r == Err(NoAvailableMessage) <==>
              ns != "" && agent != "" && forall k :: !Eligible(old(Tables()), ns, agent, Millis(now), k)
      ensures r.Err? ==> r.e == Invalid || r.e == NoAvailableMessage || r.e == Unrenderable
      ensures r.Ok? ==>
                var d := if duration == 0 then LEASE else duration;
                var s := Claims(now, ns, agent, OrElse(owner, leaseOwner), d, r.value, run);
                && r.value in old(messages) && renders(old(messages)[r.value].body)
                && Enabled(old(Tables()), s) && Tables() == Apply(old(Tables()), s)
      ensures r == Err(Unrenderable) ==>
              exists k :: Best(Tables(), ns, agent, Millis(now), k) && !renders(messages[k].body)
    {
      if ns == "" || agent == "" {
        return Err(Invalid);
      }
      var leased := OrElse(owner, leaseOwner);
      assert leased != "";
      var lasting := if duration == 0 then LEASE else duration;
      var candidate := ClaimCandidate(now, ns, agent);
      if candidate == None {
        return Err(NoAvailableMessage);
      }
      var k := candidate.value;
      if !renders(messages[k].body) {
        return Err(Unrenderable);
      }
      messages := messages[k := LeasedRow(messages[k], now, leased, lasting, run)];
      runs := runs[Key(ns, run) := Run(k.id, agent, RUNNING, Millis(now), None)];
      r := Ok(k);
    }

    /** CompleteRun works on copies of the tables and writes them back only when every statement succeeded. */
    method CompleteRun(now: int, p: Finish) returns (failure: Option<Error>)
      requires |p.ids| == |p.outbox|
      modifies this
      ensures Tables() == Committed(old(Tables()), Complete(old(Tables()), now, p))
      ensures failure == match Complete(old(Tables()), now, p) case Ok(_) => None case Err(e) => Some(e)
    {
      if p.ns == "" || p.run == "" || p.message == "" {
        return Some(Invalid);
      }
      var run, key := Key(p.ns, p.run), Key(p.ns, p.message);
      if run !in runs {
        return Some(NotFound);
      }
      var runs1 := runs[run := runs[run].(status := p.status, finishedAt := Some(Millis(p.finishedAt)))];
      var status, availableAt, completedAt := Completed, p.finishedAt, Some(Millis(p.finishedAt));
      if p.deadReason != "" {
        status := DeadLetter;
      } else if p.retryAt != None {
        status, availableAt, completedAt := Queued, p.retryAt.value, None;
      }
      if key !in messages {
        return Some(NotFound);
      }
      var messages1 := messages[key := messages[key].(
        status := status, availableAt := Millis(availableAt), owner := "", expires := None, run := "",
        deadReason := p.deadReason, lastError := p.error, updatedAt := Millis(now), completedAt := completedAt)];
      assert messages1[key] == DoneRow(messages[key], now, p);
      assert Db(agents, messages1, runs1) == Recorded(Tables(), now, p);
      var sent := SendOutbox(Db(agents, messages1, runs1), now, p.outbox, p.ids);
      if sent.Err? {
        return Some(sent.e);
      }
      runs, messages := runs1, sent.value.messages;
      failure := None;
    }
  }

  /** The outbox loop of CompleteRun, inside its transaction. */
  method SendOutbox(db: Db, now: int, outbox: seq<New>, ids: seq<string>) returns (r: Result<Db>)
    requires |ids| == |outbox|
    ensures r == InsertAll(db, now, outbox, ids)
  {
    hide InsertAll;
    var tx := db;
    var i := 0;
    InsertNone(db, now, outbox, ids);
    while i < |outbox|
      invariant 0 <= i <= |outbox|
      invariant InsertAll(db, now, outbox[..i], ids[..i]) == Ok(tx)
    {
      InsertNext(db, now, outbox, ids, i);
      r := Insert(tx, now, outbox[i], ids[i]);
      i := i + 1;
      if r.Err? {
        InsertFails(db, now, outbox, ids, i);
        return;
      }
      tx := r.value;
    }
    assert outbox[..i] == outbox && ids[..i] == ids;
    r := Ok(tx);
  }

  lemma InsertNone(db: Db, now: int, ms: seq<New>, ids: seq<string>)
    requires |ids| == |ms|
    ensures InsertAll(db, now, ms[..0], ids[..0]) == Ok(db)
  { }

  lemma InsertNext(db: Db, now: int, ms: seq<New>, ids: seq<string>, i: nat)
    requires |ids| == |ms| && i < |ms|
    ensures InsertAll(db, now, ms[..i + 1], ids[..i + 1])
            == var r := InsertAll(db, now, ms[..i], ids[..i]); if r.Err? then r else Insert(r.value, now, ms[i], ids[i])
  {
    assert ms[..i + 1][..i] == ms[..i] && ids[..i + 1][..i] == ids[..i];
  }

  /** A message that fails makes the whole outbox fail with its error. */
  lemma {:induction false} InsertFails(db: Db, now: int, ms: seq<New>, ids: seq<string>, i: nat)
    requires |ids| == |ms| && i <= |ms| && InsertAll(db, now, ms[..i], ids[..i]).Err?
    ensures InsertAll(db, now, ms, ids) == InsertAll(db, now, ms[..i], ids[..i])
    decreases |ms| - i
  {
    if i < |ms| {
      InsertNext(db, now, ms, ids, i);
      InsertFails(db, now, ms, ids, i + 1);
    } else {
      assert ms[..i] == ms && ids[..i] == ids;
    }
  }

  /** extractOutbox's loop: the first entry without a recipient or with an unreadable time stops it. */
  method ExtractEach(c: Context, es: seq<Entry>) returns (r: Option<seq<New>>)
    ensures r == ExtractOutbox(c, es)
    ensures r.Some? ==> |r.value| == |es| && forall i :: 0 <= i < |es| ==> Becomes(r.value[i], c, es[i])
  {
    hide Becomes, Trim;
    forall e ensures Becomes(ToNew(c, e), c, e) { EntryBecomes(c, e); }
    var outbox: seq<New> := [];
    var i := 0;
    while i < |es|
      invariant 0 <= i <= |es| && |outbox| == i
      invariant forall j :: 0 <= j < i ==> GoodEntry(es[j]) && outbox[j] == ToNew(c, es[j])
    {
      var e := es[i];
      if e.recipient == "" {
        return None;
      }
      var availableAt := None;
      if e.when != Unset {
        if e.when == Unparsable {
          return None;
        }
        availableAt := Some(e.when.t);
      }
      outbox := outbox + [New(c.ns, "", FirstNonEmpty(e.thread, c.thread), e.recipient, c.agent, e.body, e.meta,
          availableAt, e.maxAttempts)];
      i := i + 1;
    }
    assert outbox == ExtractOutbox(c, es).value;
    r := Some(outbox);
  }

  /** ResultPersister.HandleResult; `written` says that the run was completed. */
  method HandleResult(store: Store, meta: Meta, h: Handling, o: Outcome) returns (written: bool)
    requires Decide(meta, h, o).Some? ==> |h.ids| == |Decide(meta, h, o).value.outbox|
    modifies store
    ensures match Decide(meta, h, o)
            case None => !written && store.Tables() == old(store.Tables())
            case Some(p) =>
              && store.Tables() == Committed(old(store.Tables()), Complete(old(store.Tables()), h.now, p))
              && written == Complete(old(store.Tables()), h.now, p).Ok?
    ensures !written ==> store.Tables() == old(store.Tables())
    ensures written <==> !Unfit(meta, h, o) && Fit(old(store.Tables()), meta, h, o)
    ensures written ==> Handled(old(store.Tables()), store.Tables(), meta, h, o)
  {
    hide Unfit, Fit, Handled, Complete, Becomes;
    HandleOutcome(store.Tables(), meta, h, o);
    var c := ContextOf(meta);
    if c == None {
      return false;
    }
    var retryDelay := h.delay;
    if retryDelay <= 0 {
      retryDelay := RETRY_DELAY;
    }
    var retryAt := None;
    var deadReason := "";
    if o.status != FINISHED {
      var attempts, limit := MetaInt(meta, ATTEMPTS), MetaInt(meta, MAXIMUM);
      if limit > 0 && attempts >= limit {
        deadReason := "message exhausted retries after result status " + o.status;
      } else {
        retryAt := Some(h.clock + retryDelay);
      }
    }
    var extracted := ExtractEach(c.value, o.outbox);
    if extracted == None {
      return false;
    }
    var outbox := extracted.value;
    if o.status != FINISHED {
      outbox := [];
    }
    if |outbox| > 0 && !h.maySend {
      return false;
    }
    var p := Finish(c.value.ns, c.value.run, c.value.message, o.status, o.finishedAt, retryAt, deadReason, o.error,
        outbox, h.ids);
    assert Decide(meta, h, o) == Some(p);
    var failure := store.CompleteRun(h.now, p);
    written := failure == None;
  }

  datatype Polled = Nothing | Undecodable | Handed(meta: Meta)

  /** One poll of MessageQueue.Next: the metadata of the message claimed, if one was and its payload decodes. */
  method NextTrigger(store: Store, now: int, ns: string, agent: string, owner: string, duration: int, run: string,
                     renders: nat -> bool, decodes: nat -> bool)
    returns (p: Polled, ghost k: Key)
    requires store.leaseOwner != "" && run != "" && Key(ns, run) !in store.runs
    modifies store
    ensures p.Nothing? ==> store.Tables() == old(store.Tables())
    ensures !p.Nothing? ==>
              var d := if duration == 0 then LEASE else duration;
              var s := Claims(now, ns, agent, OrElse(owner, store.leaseOwner), d, k, run);
              && Enabled(old(store.Tables()), s) && store.Tables() == Apply(old(store.Tables()), s)
              && k in store.messages
              && p == if decodes(store.messages[k].body) then Handed(TriggerMeta(ns, agent, k.id, store.messages[k]))
                  else Undecodable
  {
    hide Enabled, Best, LeasedRow;
    k := Key("", "");
    var r := store.ClaimNextMessage(now, ns, agent, owner, duration, run, renders);
    if r.Err? {
      return Nothing, k;
    }
    k := r.value;
    var m := store.messages[r.value];
    if !decodes(m.body) {
      return Undecodable, k;
    }
    var meta := map[NAMESPACE := Str(ns), AGENT := Str(agent), MESSAGE := Str(r.value.id), THREAD := Str(m.thread),
                    RUN := Str(m.run), ATTEMPTS := Num(m.attempts), MAXIMUM := Num(m.maxAttempts)];
    if m.sender != "" {
      meta := meta[SENDER := Str(m.sender)];
    }
    assert meta == ServerMeta(ns, agent, k.id, m);
    meta := meta + m.meta;
    p := Handed(meta);
  }
}

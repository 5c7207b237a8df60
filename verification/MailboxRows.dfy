/** The mailbox tables and what each transaction does to them; a failed transaction changes nothing. */
module MailboxRows {
  import opened Basics

  /** Rows are keyed by namespace and id. */
  datatype Key = Key(ns: string, id: string)

  datatype Status = Queued | Leased | Completed | DeadLetter

  /** A value of a message's or trigger's metadata. */
  datatype Val = Str(s: string) | Num(n: int) | Other

  datatype Msg = Msg(
    thread: string, recipient: string, sender: string, body: nat, meta: map<string, Val>,
    status: Status, availableAt: int, owner: string, expires: Option<int>, attempts: nat, maxAttempts: int,
    run: string, deadReason: string, lastError: string,
    createdAt: int, updatedAt: int, claimedAt: Option<int>, completedAt: Option<int>)

  datatype Run = Run(message: string, agent: string, status: string, startedAt: int, finishedAt: Option<int>)

  datatype Db = Db(agents: set<Key>, messages: map<Key, Msg>, runs: map<Key, Run>)

  datatype Result<+T> = Ok(value: T) | Err(e: Error)
  datatype Error = Invalid | NotFound | NoAvailableMessage | Duplicate | UnknownAgent | Unrenderable

  /** CreateMailboxMessageParams: a blank id asks for a generated one, no time means now, zero attempts means five. */
  datatype New = New(
    ns: string, id: string, thread: string, recipient: string, sender: string, body: nat, meta: map<string, Val>,
    availableAt: Option<int>, maxAttempts: int)

  /** CompleteRunParams, with the ids the outbox messages would be given. */
  datatype Finish = Finish(
    ns: string, run: string, message: string, status: string, finishedAt: int, retryAt: Option<int>,
    deadReason: string, error: string, outbox: seq<New>, ids: seq<string>)

  const MAX_ATTEMPTS := 5
  const LEASE := 300_000_000_000
  const RUNNING := "running"

  /** Clocks count nanoseconds; rows hold whole milliseconds. */
  function Millis(t: int): int {
    t / 1_000_000
  }

  predicate Blank(s: string) {
    forall i :: 0 <= i < |s| ==> Space(s[i])
  }

  /** defaultString */
  function OrElse(s: string, fallback: string): string {
    if Blank(s) then fallback else s
  }

  // ---------- inserting ----------

  /** The row stored under the id: its thread is the message's own or else starts with it. */
  function FreshRow(now: int, m: New, id: string): Msg {
    Msg(OrElse(m.thread, id), m.recipient, m.sender, m.body, m.meta, Queued,
        Millis(if m.availableAt.Some? then m.availableAt.value else now), "", None, 0,
        if m.maxAttempts == 0 then MAX_ATTEMPTS else m.maxAttempts, "", "", "", Millis(now), Millis(now), None, None)
  }

  function NewKey(m: New, newId: string): Key {
    Key(m.ns, OrElse(m.id, newId))
  }

  /** enqueueMessageTx: the row's key must be new and its recipient an agent. */
  function Insert(db: Db, now: int, m: New, newId: string): (r: Result<Db>)
    ensures r.Ok? ==> r.value.agents == db.agents && r.value.runs == db.runs
  {
    var key := NewKey(m, newId);
    if key in db.messages then Err(Duplicate)
    else if Key(m.ns, m.recipient) !in db.agents then Err(UnknownAgent)
    else Ok(db.(messages := db.messages[key := FreshRow(now, m, key.id)]))
  }

  /** EnqueueMessage */
  function Enqueue(db: Db, now: int, m: New, newId: string): Result<Db> {
    if m.ns == "" || m.recipient == "" then Err(Invalid) else Insert(db, now, m, newId)
  }

  /** The outbox, in order; one failure fails all. */
  function InsertAll(db: Db, now: int, ms: seq<New>, newIds: seq<string>): (r: Result<Db>)
    requires |newIds| == |ms|
    ensures r.Ok? ==> r.value.agents == db.agents && r.value.runs == db.runs
    decreases |ms|
  {
    if ms == [] then Ok(db)
    else
      var r := InsertAll(db, now, ms[..|ms| - 1], newIds[..|ms| - 1]);
      if r.Err? then r else Insert(r.value, now, ms[|ms| - 1], newIds[|ms| - 1])
  }

  // ---------- claiming ----------

  /** The rows claimCandidate selects from. */
  predicate Eligible(db: Db, ns: string, agent: string, now: int, k: Key) {
    && k in db.messages && k.ns == ns && db.messages[k].recipient == agent
    && Claimable(db.messages[k], now)
  }

  predicate Claimable(m: Msg, now: int) {
    && (m.status == Queued || m.status == Leased)
    && m.availableAt <= now
    && (m.status == Queued || m.expires == None || m.expires.value <= now)
  }

  /** Ordered by availability, then by age. */
  predicate Before(a: Msg, b: Msg) {
    a.availableAt < b.availableAt || (a.availableAt == b.availableAt && a.createdAt <= b.createdAt)
  }

  predicate Best(db: Db, ns: string, agent: string, now: int, k: Key) {
    && Eligible(db, ns, agent, now, k)
    && forall j :: j in db.messages && Eligible(db, ns, agent, now, j) ==> Before(db.messages[k], db.messages[j])
  }

  function LeasedRow(m: Msg, now: int, owner: string, duration: int, run: string): Msg {
    m.(status := Leased, owner := owner, expires := Some(Millis(now + duration)), attempts := m.attempts + 1,
       run := run, updatedAt := Millis(now),
       claimedAt := if m.claimedAt == None then Some(Millis(now)) else m.claimedAt)
  }

  /** ClaimNextMessage's committed effect on the candidate k. */
  function Claimed(db: Db, now: int, agent: string, owner: string, duration: int, k: Key, run: string): Db
    requires k in db.messages
  {
    db.(messages := db.messages[k := LeasedRow(db.messages[k], now, owner, duration, run)],
        runs := db.runs[Key(k.ns, run) := Run(k.id, agent, RUNNING, Millis(now), None)])
  }

  // ---------- completing ----------

  function DoneRow(m: Msg, now: int, p: Finish): Msg {
    var s := if p.deadReason != "" then DeadLetter else if p.retryAt.Some? then Queued else Completed;
    m.(status := s, availableAt := Millis(if s == Queued then p.retryAt.value else p.finishedAt), owner := "",
       expires := None, run := "", deadReason := p.deadReason, lastError := p.error, updatedAt := Millis(now),
       completedAt := if s == Queued then None else Some(Millis(p.finishedAt)))
  }

  function Recorded(db: Db, now: int, p: Finish): Db
    requires Key(p.ns, p.run) in db.runs && Key(p.ns, p.message) in db.messages
  {
    var r := Key(p.ns, p.run);
    var k := Key(p.ns, p.message);
    db.(runs := db.runs[r := db.runs[r].(status := p.status, finishedAt := Some(Millis(p.finishedAt)))],
        messages := db.messages[k := DoneRow(db.messages[k], now, p)])
  }

  /** CompleteRun: the run is not compared with the message's lease. */
  function Complete(db: Db, now: int, p: Finish): Result<Db>
    requires |p.ids| == |p.outbox|
  {
    if p.ns == "" || p.run == "" || p.message == "" then Err(Invalid)
    else if Key(p.ns, p.run) !in db.runs then Err(NotFound)
    else if Key(p.ns, p.message) !in db.messages then Err(NotFound)
    else InsertAll(Recorded(db, now, p), now, p.outbox, p.ids)
  }

  /** Each message has a key of its own that is new, and its recipient is an agent. */
  ghost predicate Insertable(db: Db, ms: seq<New>, newIds: seq<string>)
    requires |newIds| == |ms|
  {
    && (forall i :: 0 <= i < |ms| ==> NewKey(ms[i], newIds[i]) !in db.messages)
    && (forall i :: 0 <= i < |ms| ==> Key(ms[i].ns, ms[i].recipient) in db.agents)
    && (forall i, j :: 0 <= i < j < |ms| ==> NewKey(ms[i], newIds[i]) != NewKey(ms[j], newIds[j]))
  }

  /** What a completion needs of the tables; the message need not be the run's, nor its lease. */
  ghost predicate Accepted(db: Db, p: Finish)
    requires |p.ids| == |p.outbox|
  {
    && p.ns != "" && p.run != "" && p.message != ""
    && Key(p.ns, p.run) in db.runs && Key(p.ns, p.message) in db.messages
    && Insertable(db, p.outbox, p.ids)
  }

  lemma {:induction false} InsertAllKeys(db: Db, now: int, ms: seq<New>, newIds: seq<string>)
    requires |newIds| == |ms|
    ensures InsertAll(db, now, ms, newIds).Ok? <==> Insertable(db, ms, newIds)
    ensures InsertAll(db, now, ms, newIds).Ok? ==> forall k :: k in InsertAll(db, now, ms, newIds).value.messages <==>
              (k in db.messages || exists i :: 0 <= i < |ms| && NewKey(ms[i], newIds[i]) == k)
    decreases |ms|
  {
    hide FreshRow, NewKey;
    if ms != [] {
      var n := |ms| - 1;
      InsertAllKeys(db, now, ms[..n], newIds[..n]);
      var r := InsertAll(db, now, ms[..n], newIds[..n]);
      if r.Ok? && InsertAll(db, now, ms, newIds).Ok? {
        var after := InsertAll(db, now, ms, newIds).value;
        forall k | k in after.messages
          ensures k in db.messages || exists i :: 0 <= i < |ms| && NewKey(ms[i], newIds[i]) == k
        {
          if k in r.value.messages && k !in db.messages {
            var i :| 0 <= i < n && NewKey(ms[..n][i], newIds[..n][i]) == k;
            assert NewKey(ms[i], newIds[i]) == k;
          } else if k !in r.value.messages {
            assert NewKey(ms[n], newIds[n]) == k;
          }
        }
        forall i | 0 <= i < |ms| ensures NewKey(ms[i], newIds[i]) in after.messages {
          if i < n { assert NewKey(ms[..n][i], newIds[..n][i]) in r.value.messages; }
        }
      }
      InsertableLast(db, ms, newIds);
    }
  }

  lemma InsertableLast(db: Db, ms: seq<New>, newIds: seq<string>)
    requires |newIds| == |ms| && ms != []
    ensures var n := |ms| - 1;
            Insertable(db, ms, newIds) <==>
            && Insertable(db, ms[..n], newIds[..n])
            && NewKey(ms[n], newIds[n]) !in db.messages && Key(ms[n].ns, ms[n].recipient) in db.agents
            && !exists i :: 0 <= i < n && NewKey(ms[..n][i], newIds[..n][i]) == NewKey(ms[n], newIds[n])
  {
    hide NewKey;
    var n := |ms| - 1;
    if && Insertable(db, ms[..n], newIds[..n])
       && !exists i :: 0 <= i < n && NewKey(ms[..n][i], newIds[..n][i]) == NewKey(ms[n], newIds[n])
    {
      forall i, j | 0 <= i < j < |ms| ensures NewKey(ms[i], newIds[i]) != NewKey(ms[j], newIds[j]) {
        assert NewKey(ms[..n][i], newIds[..n][i]) == NewKey(ms[i], newIds[i]);
        if j < n { assert NewKey(ms[..n][j], newIds[..n][j]) == NewKey(ms[j], newIds[j]); }
      }
      forall i | 0 <= i < n
        ensures NewKey(ms[i], newIds[i]) !in db.messages && Key(ms[i].ns, ms[i].recipient) in db.agents
      {
        assert ms[..n][i] == ms[i] && newIds[..n][i] == newIds[i];
      }
    }
  }

  /** A completion commits exactly when the tables accept the request. */
  lemma CompleteIff(db: Db, now: int, p: Finish)
    requires |p.ids| == |p.outbox|
    ensures Complete(db, now, p).Ok? <==> Accepted(db, p)
  {
    hide InsertAll, DoneRow, NewKey;
    if Key(p.ns, p.run) in db.runs && Key(p.ns, p.message) in db.messages {
      InsertAllKeys(Recorded(db, now, p), now, p.outbox, p.ids);
      assert Recorded(db, now, p).messages.Keys == db.messages.Keys;
    }
  }

  // ---------- what every reachable table satisfies ----------

  ghost function RunsOf(db: Db, k: Key): set<Key> {
    set r | r in db.runs && r.ns == k.ns && db.runs[r].message == k.id
  }

  /** Leased exactly when run, owner and expiry are all set, and then none is missing; closed exactly when terminal. */
  predicate RowOk(m: Msg) {
    && (m.status == Leased ==> m.run != "" && m.owner != "" && m.expires.Some?)
    && (m.status != Leased ==> m.run == "" && m.owner == "" && m.expires == None)
    && (m.completedAt.Some? <==> m.status == Completed || m.status == DeadLetter)
    && (m.deadReason != "" <==> m.status == DeadLetter)
    && (m.claimedAt.Some? <==> m.attempts > 0)
  }

  /** A message row: its recipient exists, its attempts are the runs naming it, and its lease names one of those. */
  ghost predicate MsgInv(db: Db, k: Key)
    requires k in db.messages
  {
    var m := db.messages[k];
    && RowOk(m)
    && Key(k.ns, m.recipient) in db.agents
    && m.attempts == |RunsOf(db, k)|
    && (m.status == Leased ==> Key(k.ns, m.run) in RunsOf(db, k))
  }

  ghost predicate Inv(db: Db) {
    && (forall k :: k in db.messages ==> MsgInv(db, k))
    && (forall r :: r in db.runs ==> Key(r.ns, db.runs[r].message) in db.messages)
  }

  lemma FreshRowOk(now: int, m: New, id: string)
    ensures RowOk(FreshRow(now, m, id)) && FreshRow(now, m, id).attempts == 0 && FreshRow(now, m, id).status == Queued
    ensures FreshRow(now, m, id).recipient == m.recipient
  { }

  lemma LeasedRowOk(m: Msg, now: int, owner: string, duration: int, run: string)
    requires RowOk(m) && Claimable(m, Millis(now)) && owner != "" && run != ""
    ensures var l := LeasedRow(m, now, owner, duration, run);
            RowOk(l) && l.attempts == m.attempts + 1 && l.run == run && l.recipient == m.recipient
  { }

  lemma DoneRowOk(m: Msg, now: int, p: Finish)
    requires RowOk(m)
    ensures var d := DoneRow(m, now, p);
            RowOk(d) && d.attempts == m.attempts && d.status != Leased && d.recipient == m.recipient
  { }

  /** A row is judged by its own content, its runs and the agents. */
  lemma MsgInvSame(db: Db, after: Db, k: Key)
    requires k in db.messages && k in after.messages && after.messages[k] == db.messages[k]
    requires after.agents == db.agents && RunsOf(after, k) == RunsOf(db, k) && MsgInv(db, k)
    ensures MsgInv(after, k)
  { }

  lemma InsertInv(db: Db, now: int, m: New, newId: string)
    requires Inv(db) && Insert(db, now, m, newId).Ok?
    ensures Inv(Insert(db, now, m, newId).value)
    ensures |Insert(db, now, m, newId).value.messages| == |db.messages| + 1
  {
    hide MsgInv, RowOk, FreshRow, OrElse;
    var key := NewKey(m, newId);
    var after := Insert(db, now, m, newId).value;
    assert after.messages.Keys == db.messages.Keys + {key};
    forall k | k in after.messages ensures MsgInv(after, k) {
      if k == key {
        InsertedInv(db, after, now, m, key);
      } else {
        assert RunsOf(after, k) == RunsOf(db, k);
        MsgInvSame(db, after, k);
      }
    }
  }

  lemma InsertedInv(db: Db, after: Db, now: int, m: New, key: Key)
    requires Inv(db) && key !in db.messages && key in after.messages && after.messages[key] == FreshRow(now, m, key.id)
    requires after.runs == db.runs && Key(key.ns, m.recipient) in after.agents
    ensures MsgInv(after, key)
  {
    hide MsgInv, RowOk, FreshRow;
    assert RunsOf(after, key) == {};
    FreshRowOk(now, m, key.id);
    NoRuns(after, key);
  }

  lemma NoRuns(db: Db, k: Key)
    requires k in db.messages && RunsOf(db, k) == {} && RowOk(db.messages[k]) && db.messages[k].attempts == 0
    requires db.messages[k].status == Queued && Key(k.ns, db.messages[k].recipient) in db.agents
    ensures MsgInv(db, k)
  { }

  lemma {:induction false} InsertAllInv(db: Db, now: int, ms: seq<New>, newIds: seq<string>)
    requires |newIds| == |ms| && Inv(db) && InsertAll(db, now, ms, newIds).Ok?
    ensures Inv(InsertAll(db, now, ms, newIds).value)
    ensures |InsertAll(db, now, ms, newIds).value.messages| == |db.messages| + |ms|
    decreases |ms|
  {
    hide Insert, Inv;
    if ms != [] {
      var n := |ms| - 1;
      InsertAllInv(db, now, ms[..n], newIds[..n]);
      InsertInv(InsertAll(db, now, ms[..n], newIds[..n]).value, now, ms[n], newIds[n]);
    }
  }

  lemma ClaimInv(db: Db, now: int, agent: string, owner: string, duration: int, k: Key, run: string)
    requires Inv(db) && k in db.messages && Claimable(db.messages[k], Millis(now))
    requires owner != "" && run != "" && Key(k.ns, run) !in db.runs
    ensures Inv(Claimed(db, now, agent, owner, duration, k, run))
  {
    hide MsgInv, RowOk, LeasedRow, Claimable;
    var after := Claimed(db, now, agent, owner, duration, k, run);
    assert after.messages.Keys == db.messages.Keys;
    ClaimedInv(db, now, agent, owner, duration, k, run);
    forall j | j in after.messages && j != k ensures MsgInv(after, j) {
      assert RunsOf(after, j) == RunsOf(db, j);
      MsgInvSame(db, after, j);
    }
  }

  lemma ClaimedInv(db: Db, now: int, agent: string, owner: string, duration: int, k: Key, run: string)
    requires k in db.messages && MsgInv(db, k) && Claimable(db.messages[k], Millis(now))
    requires owner != "" && run != "" && Key(k.ns, run) !in db.runs
    ensures MsgInv(Claimed(db, now, agent, owner, duration, k, run), k)
  {
    hide RowOk, LeasedRow, Claimable;
    var after := Claimed(db, now, agent, owner, duration, k, run);
    LeasedRowOk(db.messages[k], now, owner, duration, run);
    assert RunsOf(after, k) == RunsOf(db, k) + {Key(k.ns, run)};
  }

  lemma RecordedInv(db: Db, now: int, p: Finish)
    requires Inv(db) && Key(p.ns, p.run) in db.runs && Key(p.ns, p.message) in db.messages
    ensures Inv(Recorded(db, now, p))
  {
    hide MsgInv, RowOk, DoneRow;
    var after := Recorded(db, now, p);
    forall j | j in after.messages ensures MsgInv(after, j) {
      assert RunsOf(after, j) == RunsOf(db, j);
      if j == Key(p.ns, p.message) {
        DoneRowOk(db.messages[j], now, p) by { assert MsgInv(db, j); MsgInvRow(db, j); }
        DoneInv(db, after, j);
      } else {
        MsgInvSame(db, after, j);
      }
    }
  }

  lemma MsgInvRow(db: Db, k: Key)
    requires k in db.messages && MsgInv(db, k)
    ensures RowOk(db.messages[k])
  { }

  lemma DoneInv(db: Db, after: Db, k: Key)
    requires k in db.messages && k in after.messages && MsgInv(db, k) && RowOk(after.messages[k])
    requires after.messages[k].attempts == db.messages[k].attempts && after.messages[k].status != Leased
    requires after.messages[k].recipient == db.messages[k].recipient
    requires after.agents == db.agents && RunsOf(after, k) == RunsOf(db, k)
    ensures MsgInv(after, k)
  { }

  lemma CompleteInv(db: Db, now: int, p: Finish)
    requires |p.ids| == |p.outbox| && Inv(db) && Complete(db, now, p).Ok?
    ensures Inv(Complete(db, now, p).value)
    ensures |Complete(db, now, p).value.messages| == |db.messages| + |p.outbox|
  {
    hide Inv, DoneRow, InsertAll;
    RecordedInv(db, now, p);
    assert Recorded(db, now, p).messages.Keys == db.messages.Keys;
    InsertAllInv(Recorded(db, now, p), now, p.outbox, p.ids);
  }

  // ---------- the candidate ----------

  /** Among rows there is always one first in order. */
  lemma {:induction false} FirstOf(db: Db, ks: set<Key>) returns (k: Key)
    requires ks != {} && ks <= db.messages.Keys
    ensures k in ks && forall j :: j in ks ==> Before(db.messages[k], db.messages[j])
    decreases |ks|
  {
    var x :| x in ks;
    if ks == {x} {
      k := x;
    } else {
      var y := FirstOf(db, ks - {x});
      k := if Before(db.messages[x], db.messages[y]) then x else y;
    }
  }

  /** A claim finds a candidate exactly when some row is eligible. */
  lemma CandidateExists(db: Db, ns: string, agent: string, now: int)
    ensures (exists k :: Eligible(db, ns, agent, now, k)) <==> exists k :: Best(db, ns, agent, now, k)
  {
    var ks := set k | k in db.messages && Eligible(db, ns, agent, now, k);
    if ks != {} {
      var k := FirstOf(db, ks);
      assert Best(db, ns, agent, now, k);
    }
    forall k | Eligible(db, ns, agent, now, k) ensures k in ks { }
  }

  /** What an insertion leaves alone. */
  lemma {:induction false} InsertAllKeeps(db: Db, now: int, ms: seq<New>, newIds: seq<string>, k: Key)
    requires |newIds| == |ms| && InsertAll(db, now, ms, newIds).Ok?
    ensures k in db.messages ==>
              k in InsertAll(db, now, ms, newIds).value.messages
                  && InsertAll(db, now, ms, newIds).value.messages[k] == db.messages[k]
    ensures k !in db.messages && k in InsertAll(db, now, ms, newIds).value.messages ==>
              exists i :: 0 <= i < |ms| && k == NewKey(ms[i], newIds[i])
                          && InsertAll(db, now, ms, newIds).value.messages[k] == FreshRow(now, ms[i], k.id)
    decreases |ms|
  {
    hide FreshRow, NewKey;
    if ms != [] {
      var n := |ms| - 1;
      InsertAllKeeps(db, now, ms[..n], newIds[..n], k);
    }
  }
}

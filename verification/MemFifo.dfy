/** Named pipes: one reader and one writer at a time over an unbounded buffer. */
module MemFifo {
  import opened MemGraph
  import opened MemLookup
  import opened MemFiles

  /** fifoState. */
  datatype PipeState = PipeState(data: seq<byte>, readOpen: bool, writeOpen: bool, readerClosed: bool,
                                 writerClosed: bool)

  const NEW_PIPE: PipeState := PipeState([], false, false, false, false)

  datatype PipeResult = Got(p: seq<byte>) | Sent(n: nat) | PipeErr(err: Err) | Blocked | Opened | Shut

  predicate WantsRead(f: Flags) { !f.write }
  predicate WantsWrite(f: Flags) { f.write || f.rdwr }

  /** An open with neither end open starts over with an empty buffer. */
  function Fresh(s: PipeState): PipeState {
    if !s.readOpen && !s.writeOpen then NEW_PIPE else s
  }

  /** openFIFOLocked. Opening for both, or an end already open, is refused. */
  function OpenPipe(s: PipeState, f: Flags): (PipeState, PipeResult) {
    if WantsRead(f) && WantsWrite(f) then (s, PipeErr(Invalid))
    else
      var t := Fresh(s);
      if WantsRead(f) then if t.readOpen then (t, PipeErr(FifoBusy)) else (t.(readOpen := true), Opened)
      else if t.writeOpen then (t, PipeErr(FifoBusy)) else (t.(writeOpen := true), Opened)
  }

  /** A read with nothing buffered and no writer closed waits: the state does not change and nothing is returned yet. */
  function ReadPipe(s: PipeState, closed: bool, n: nat): (PipeState, PipeResult) {
    if closed then (s, PipeErr(Closed))
    else if s.data == [] && !s.writerClosed then (s, Blocked)
    else if s.data == [] then (s, PipeErr(EOF))
    else
      var c := ReadCount(s.data, 0, n);
      (s.(data := s.data[c..]), Got(s.data[..c]))
  }

  function WritePipe(s: PipeState, closed: bool, p: seq<byte>): (PipeState, PipeResult) {
    if closed then (s, PipeErr(Closed))
    else if s.readerClosed then (s, PipeErr(ClosedPipe))
    else (s.(data := s.data + p), Sent(|p|))
  }

  function CloseReader(s: PipeState, closed: bool): PipeState {
    if closed then s else s.(readOpen := false, readerClosed := true)
  }

  function CloseWriter(s: PipeState, closed: bool): PipeState {
    if closed then s else s.(writeOpen := false, writerClosed := true)
  }

  // ---------- runs over one pipe ----------

  datatype End = End(reader: bool, closed: bool)

  datatype Event = EvOpen(f: Flags) | EvRead(i: nat, n: nat) | EvWrite(i: nat, p: seq<byte>) | EvClose(i: nat)

  /**
   * `accepted` and `delivered` are what the writer was told was sent and the reader got since the buffer was last
   * emptied by an open.
   */
  datatype PipeRun = PipeRun(s: PipeState, ends: seq<End>, accepted: seq<byte>, delivered: seq<byte>)

  const NEW_RUN: PipeRun := PipeRun(NEW_PIPE, [], [], [])

  function StepPipe(r: PipeRun, ev: Event): (PipeRun, PipeResult) {
    match ev
    case EvOpen(f) =>
      var (s, res) := OpenPipe(r.s, f);
      var epoch := !(WantsRead(f) && WantsWrite(f)) && !r.s.readOpen && !r.s.writeOpen;
      (PipeRun(s, if res.Opened? then r.ends + [End(WantsRead(f), false)] else r.ends,
               if epoch then [] else r.accepted, if epoch then [] else r.delivered), res)
    case EvRead(i, n) =>
      if i < |r.ends| && r.ends[i].reader then
        var (s, res) := ReadPipe(r.s, r.ends[i].closed, n);
        (r.(s := s, delivered := if res.Got? then r.delivered + res.p else r.delivered), res)
      else (r, PipeErr(BadFD))
    case EvWrite(i, p) =>
      if i < |r.ends| && !r.ends[i].reader then
        var (s, res) := WritePipe(r.s, r.ends[i].closed, p);
        (r.(s := s, accepted := if res.Sent? then r.accepted + p else r.accepted), res)
      else (r, PipeErr(BadFD))
    case EvClose(i) =>
      if i < |r.ends| then
        var e := r.ends[i];
        var s := if e.reader then CloseReader(r.s, e.closed) else CloseWriter(r.s, e.closed);
        (r.(s := s, ends := r.ends[i := e.(closed := true)]), Shut)
      else (r, Shut)
  }

  function RunPipe(r: PipeRun, evs: seq<Event>): PipeRun
    decreases |evs|
  {
    if evs == [] then r else RunPipe(StepPipe(r, evs[0]).0, evs[1..])
  }

  /** Bytes come out in the order they went in, and each end is held by exactly one live handle or none. */
  ghost predicate PipeInv(r: PipeRun) {
    && r.accepted == r.delivered + r.s.data
    && (r.s.readOpen <==> exists i :: 0 <= i < |r.ends| && r.ends[i] == End(true, false))
    && (r.s.writeOpen <==> exists i :: 0 <= i < |r.ends| && r.ends[i] == End(false, false))
    && (forall i, j :: 0 <= i < j < |r.ends| && !r.ends[i].closed && !r.ends[j].closed ==>
        r.ends[i].reader != r.ends[j].reader)
  }

  lemma OpenInv(r: PipeRun, f: Flags)
    requires PipeInv(r)
    ensures PipeInv(StepPipe(r, EvOpen(f)).0)
  {
    var t := StepPipe(r, EvOpen(f)).0;
    if t.ends != r.ends {
      assert t.ends[|r.ends|] == End(WantsRead(f), false);
      assert forall i :: 0 <= i < |r.ends| ==> t.ends[i] == r.ends[i];
    }
  }

  lemma CloseInv(r: PipeRun, k: nat)
    requires PipeInv(r) && k < |r.ends|
    ensures PipeInv(StepPipe(r, EvClose(k)).0)
  {
    var t := StepPipe(r, EvClose(k)).0;
    assert forall i :: 0 <= i < |r.ends| && i != k ==> t.ends[i] == r.ends[i];
    if r.ends[k].closed {
      assert t.ends == r.ends;
    } else {
      forall i | 0 <= i < |r.ends| && i != k && !r.ends[i].closed ensures r.ends[i].reader != r.ends[k].reader {
        if i < k { } else { }
      }
      OtherEnd(r, t, k, !r.ends[k].reader);
    }
  }

  /** Closing one end leaves whether the other is held as it was. */
  lemma OtherEnd(r: PipeRun, t: PipeRun, k: nat, reader: bool)
    requires k < |r.ends| && t.ends == r.ends[k := r.ends[k].(closed := true)] && r.ends[k].reader != reader
    ensures (exists i :: 0 <= i < |t.ends| && t.ends[i] == End(reader, false)) <==>
            (exists i :: 0 <= i < |r.ends| && r.ends[i] == End(reader, false))
  {
    if i :| 0 <= i < |r.ends| && r.ends[i] == End(reader, false) {
      assert t.ends[i] == End(reader, false);
    }
    if i :| 0 <= i < |t.ends| && t.ends[i] == End(reader, false) {
      assert r.ends[i] == End(reader, false);
    }
  }

  lemma ReadInv(r: PipeRun, i: nat, n: nat)
    requires PipeInv(r)
    ensures PipeInv(StepPipe(r, EvRead(i, n)).0)
  {
    if i < |r.ends| && r.ends[i].reader && StepPipe(r, EvRead(i, n)).1.Got? {
      var c := ReadCount(r.s.data, 0, n);
      assert r.s.data == r.s.data[..c] + r.s.data[c..];
    }
  }

  lemma StepInv(r: PipeRun, ev: Event)
    requires PipeInv(r)
    ensures PipeInv(StepPipe(r, ev).0)
  {
    match ev
    case EvOpen(f) => OpenInv(r, f);
    case EvRead(i, n) => ReadInv(r, i, n);
    case EvWrite(i, p) =>
    case EvClose(i) => if i < |r.ends| { CloseInv(r, i); }
  }

  /** Over every run: what came out followed by what is buffered is what went in, in order. */
  lemma {:induction false} RunInv(r: PipeRun, evs: seq<Event>)
    requires PipeInv(r)
    ensures PipeInv(RunPipe(r, evs))
    decreases |evs|
  {
    if evs != [] {
      StepInv(r, evs[0]);
      RunInv(StepPipe(r, evs[0]).0, evs[1..]);
    }
  }

  /** End of file means a writer has closed and everything accepted was delivered. */
  lemma EofMeansAllDelivered(evs: seq<Event>, i: nat, n: nat)
    ensures var r := RunPipe(NEW_RUN, evs);
            StepPipe(r, EvRead(i, n)).1 == PipeErr(EOF) ==> r.s.writerClosed && r.delivered == r.accepted
  {
    RunInv(NEW_RUN, evs);
  }

  /**
   * Once the reader has closed, nothing the writer w sends is accepted as long as w stays open, not even after a
   * new reader has opened.
   */
  lemma {:induction false} ReaderGone(r: PipeRun, evs: seq<Event>, w: nat)
    requires PipeInv(r) && r.s.readerClosed && w < |r.ends| && r.ends[w] == End(false, false)
    requires EvClose(w) !in evs
    ensures var t := RunPipe(r, evs); t.accepted == r.accepted && t.s.readerClosed && t.s.writeOpen
    decreases |evs|
  {
    if evs != [] {
      var t := StepPipe(r, evs[0]).0;
      StepInv(r, evs[0]);
      assert t.ends[w] == r.ends[w];
      ReaderGone(t, evs[1..], w);
    }
  }

  /** A reader waits exactly when nothing is buffered and no writer has closed; otherwise it makes progress or ends. */
  lemma BlockedIff(evs: seq<Event>, i: nat, n: nat)
    ensures var r := RunPipe(NEW_RUN, evs);
            i < |r.ends| && r.ends[i] == End(true, false) && n > 0 ==>
              match StepPipe(r, EvRead(i, n)).1
              case Blocked => r.accepted == r.delivered && !r.s.writerClosed
              case PipeErr(e) => e == EOF && r.accepted == r.delivered && r.s.writerClosed
              case Got(p) => p != [] && r.delivered + p <= r.accepted
              case _ => false
  {
    RunInv(NEW_RUN, evs);
  }

  ghost predicate Live(r: PipeRun, reader: bool) {
    exists i :: 0 <= i < |r.ends| && r.ends[i] == End(reader, false)
  }

  /**
   * An open succeeds exactly when it is for one of reading and writing and nobody has that end open. With neither end
   * open it starts over with an empty buffer; otherwise it leaves the buffer and what has closed.
   */
  lemma OpenIff(r: PipeRun, f: Flags)
    requires PipeInv(r)
    ensures var (t, res) := StepPipe(r, EvOpen(f));
            var reader := !f.write;
            && (reader && f.rdwr ==> res == PipeErr(Invalid) && t == r)
            && (!(reader && f.rdwr) ==>
                && res == (if Live(r, reader) then PipeErr(FifoBusy) else Opened)
                && t.ends == (if Live(r, reader) then r.ends else r.ends + [End(reader, false)])
                && (t.s.readOpen <==> r.s.readOpen || reader) && (t.s.writeOpen <==> r.s.writeOpen || !reader)
                && if Live(r, true) || Live(r, false) then
                     && t.s.data == r.s.data
                     && t.s.readerClosed == r.s.readerClosed && t.s.writerClosed == r.s.writerClosed
                   else t.s.data == [] && !t.s.readerClosed && !t.s.writerClosed)
  { }

  /**
   * What the two live ends see: a write is buffered behind what is there, a read takes from the front, a write after
   * the reader has closed is refused, a drained read after the writer has closed ends, and a closed end does nothing.
   */
  lemma EndsSee(r: PipeRun, i: nat, w: nat, p: seq<byte>, n: nat)
    requires PipeInv(r) && i < |r.ends| && r.ends[i] == End(true, false)
    requires w < |r.ends| && r.ends[w] == End(false, false)
    ensures var (t, res) := StepPipe(r, EvWrite(w, p));
            if r.s.readerClosed then res == PipeErr(ClosedPipe) && t == r
            else res == Sent(|p|) && t.s == r.s.(data := r.s.data + p)
    ensures var (t, res) := StepPipe(r, EvRead(i, n));
            r.s.data != [] ==> res.Got? && res.p <= r.s.data && t.s == r.s.(data := r.s.data[|res.p|..])
                                && |res.p| == if n < |r.s.data| then n else |r.s.data|
    ensures var t := StepPipe(r, EvClose(i)).0;
            && t.s.data == r.s.data && t.s.writeOpen && !t.s.readOpen
            && StepPipe(t, EvWrite(w, p)) == (t, PipeErr(ClosedPipe))
            && StepPipe(t, EvRead(i, n)) == (t, PipeErr(Closed))
    ensures var t := StepPipe(r, EvClose(w)).0;
            && t.s.data == r.s.data && t.s.readOpen && !t.s.writeOpen
            && StepPipe(t, EvWrite(w, p)) == (t, PipeErr(Closed))
            && (r.s.data == [] ==> StepPipe(t, EvRead(i, n)) == (t, PipeErr(EOF)))
    ensures StepPipe(StepPipe(r, EvClose(i)).0, EvClose(i)).0 == StepPipe(r, EvClose(i)).0
    ensures StepPipe(StepPipe(r, EvClose(w)).0, EvClose(w)).0 == StepPipe(r, EvClose(w)).0
  {
    assert i != w;
    var t := StepPipe(r, EvClose(i)).0;
    assert t.ends[w] == r.ends[w] && t.ends[i] == End(true, true) && t.ends[i := End(true, true)] == t.ends;
    var u := StepPipe(r, EvClose(w)).0;
    assert u.ends[i] == r.ends[i] && u.ends[w] == End(false, true) && u.ends[w := End(false, true)] == u.ends;
  }

  // ---------- the objects ----------

  class FifoState {
    var data: seq<byte>
    var readOpen: bool
    var writeOpen: bool
    var readerClosed: bool
    var writerClosed: bool

    constructor ()
      ensures State() == NEW_PIPE
    {
      data, readOpen, writeOpen, readerClosed, writerClosed := [], false, false, false, false;
    }

    function State(): PipeState
      reads this
    {
      PipeState(data, readOpen, writeOpen, readerClosed, writerClosed)
    }

    method Open(f: Flags) returns (r: PipeResult)
      modifies this
      ensures (State(), r) == OpenPipe(old(State()), f)
    {
      if WantsRead(f) && WantsWrite(f) {
        return PipeErr(Invalid);
      }
      if !readOpen && !writeOpen {
        data, readerClosed, writerClosed := [], false, false;
      }
      if WantsRead(f) {
        if readOpen {
          return PipeErr(FifoBusy);
        }
        readOpen := true;
      } else {
        if writeOpen {
          return PipeErr(FifoBusy);
        }
        writeOpen := true;
      }
      r := Opened;
    }
  }

  class FifoReadFile {
    const state: FifoState
    var closed: bool

    constructor (state: FifoState)
      ensures this.state == state && !closed
    {
      this.state, closed := state, false;
    }

    method Read(n: nat) returns (r: PipeResult)
      modifies state
      ensures (state.State(), r) == ReadPipe(old(state.State()), closed, n)
    {
      if closed {
        return PipeErr(Closed);
      }
      if state.data == [] && !state.writerClosed {
        return Blocked;
      }
      if state.data == [] {
        return PipeErr(EOF);
      }
      var c := if |state.data| < n then |state.data| else n;
      r := Got(state.data[..c]);
      state.data := state.data[c..];
    }

    method Close()
      modifies this, state
      ensures closed && state.State() == CloseReader(old(state.State()), old(closed))
    {
      if !closed {
        closed := true;
        state.readOpen := false;
        state.readerClosed := true;
      }
    }
  }

  class FifoWriteFile {
    const state: FifoState
    var closed: bool

    constructor (state: FifoState)
      ensures this.state == state && !closed
    {
      this.state, closed := state, false;
    }

    method Write(p: seq<byte>) returns (r: PipeResult)
      modifies state
      ensures (state.State(), r) == WritePipe(old(state.State()), closed, p)
    {
      if closed {
        return PipeErr(Closed);
      }
      if state.readerClosed {
        return PipeErr(ClosedPipe);
      }
      state.data := state.data + p;
      r := Sent(|p|);
    }

    method Close()
      modifies this, state
      ensures closed && state.State() == CloseWriter(old(state.State()), old(closed))
    {
      if !closed {
        closed := true;
        state.writeOpen := false;
        state.writerClosed := true;
      }
    }
  }
}

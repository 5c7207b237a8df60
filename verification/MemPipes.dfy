/** Opening and writing by name when the name may be a FIFO's: the filesystem object and its pipes together. */
module MemPipes {
  import opened Basics
  import opened Paths
  import opened MemGraph
  import opened MemLookup
  import opened MemOps
  import opened MemFiles
  import opened MemRuns
  import opened MemFs
  import opened MemFifo

  /** What OpenFile returns. */
  datatype Opening = FileOf(file: RegularFile) | ReaderOf(reader: FifoReadFile) | WriterOf(writer: FifoWriteFile)

  /** A filesystem with the pipe states its FIFO nodes hold; a FIFO gets one when it has none. */
  class Files {
    const fs: FS
    var pipes: map<nat, FifoState>

    constructor (fs: FS)
      requires fs.Valid()
      ensures Valid() && this.fs == fs && pipes == map[]
    {
      this.fs, pipes := fs, map[];
    }

    ghost predicate Valid()
      reads this, fs, fs.nodes.Values
    {
      && fs.Valid()
      && forall i, j :: i in pipes && j in pipes && i != j ==> pipes[i] != pipes[j]
    }

    /** The state of a FIFO's pipe. */
    ghost function PipeAt(i: nat): PipeState
      reads this`pipes, pipes.Values
    {
      if i in pipes then pipes[i].State() else NEW_PIPE
    }

    /** openFIFOLocked */
    method OpenFifo(i: nat, f: Flags) returns (r: Res<Opening>)
      requires Valid()
      modifies this`pipes, if i in pipes then {pipes[i]} else {}
      ensures Valid() && fresh(pipes.Values - old(pipes.Values))
      ensures PipeAt(i) == OpenPipe(old(PipeAt(i)), f).0
      ensures forall j :: j != i ==> PipeAt(j) == old(PipeAt(j))
      ensures i in pipes && Opens(r, i, OpenPipe(old(PipeAt(i)), f).1, f)
      ensures if old(i in pipes) then pipes == old(pipes) else fresh(pipes[i])
      ensures r.Ok? && r.value.ReaderOf? ==> fresh(r.value.reader)
      ensures r.Ok? && r.value.WriterOf? ==> fresh(r.value.writer)
    {
      if i !in pipes {
        var s := new FifoState();
        pipes := pipes[i := s];
      }
      var answer := pipes[i].Open(f);
      if answer.PipeErr? {
        return Fail(answer.err);
      }
      if WantsRead(f) {
        var reader := new FifoReadFile(pipes[i]);
        return Ok(ReaderOf(reader));
      }
      var writer := new FifoWriteFile(pipes[i]);
      r := Ok(WriterOf(writer));
    }

    /** The result is the pipe's answer: an open end of the kind asked for, on the pipe's own state, or its error. */
    ghost predicate Opens(r: Res<Opening>, i: nat, p: PipeResult, f: Flags)
      reads this`pipes, if r.Ok? && r.value.ReaderOf? then {r.value.reader} else {}
      reads if r.Ok? && r.value.WriterOf? then {r.value.writer} else {}
    {
      match r
      case Fail(e) => p == PipeErr(e)
      case Ok(FileOf(_)) => false
      case Ok(ReaderOf(h)) => p == MemFifo.Opened && WantsRead(f) && i in pipes && h.state == pipes[i] && !h.closed
      case Ok(WriterOf(h)) => p == MemFifo.Opened && WantsWrite(f) && i in pipes && h.state == pipes[i] && !h.closed
    }

    /** OpenFile, FIFOs included. */
    method OpenFile(name: Raw, f: Flags) returns (r: Res<Opening>)
      requires Valid()
      modifies this`pipes, fs, fs.nodes.Values, pipes.Values
      ensures Valid() && fresh(fs.nodes.Values - old(fs.nodes.Values)) && fresh(pipes.Values - old(pipes.Values))
      ensures fs.View() == old(fs.OpenedAs(name, f)).fs
      ensures match old(fs.OpenedAs(name, f)).res
              case Fail(e) => r == Fail(e) && forall j :: PipeAt(j) == old(PipeAt(j))
              case Ok(File(i, h)) =>
                && r.Ok? && r.value.FileOf? && r.value.file.fs == fs && fs.Has(r.value.file.node)
                && r.value.file.node.ino == i && r.value.file.State() == h && forall j :: PipeAt(j) == old(PipeAt(j))
              case Ok(Pipe(i)) =>
                && PipeAt(i) == OpenPipe(old(PipeAt(i)), f).0 && Opens(r, i, OpenPipe(old(PipeAt(i)), f).1, f)
                && forall j :: j != i ==> PipeAt(j) == old(PipeAt(j))
    {
      hide FS.Valid, FS.OpenedAs, FS.View, OpenPipe;
      var answer := fs.OpenFileName(name, f);
      if answer.Fail? {
        return Fail(answer.err);
      }
      if answer.value.FileHandle? {
        return Ok(FileOf(answer.value.file));
      }
      r := OpenFifo(answer.value.node.ino, f);
    }

    /** WriteFile, FIFOs included: the error, if any. */
    method WriteFile(name: Raw, data: seq<byte>) returns (e: Option<Err>)
      requires Valid()
      modifies this`pipes, fs, fs.nodes.Values, pipes.Values
      ensures Valid() && fresh(fs.nodes.Values - old(fs.nodes.Values)) && fresh(pipes.Values - old(pipes.Values))
      ensures fs.View() == old(fs.WrittenTo(name, data)).fs
      ensures match old(fs.WrittenTo(name, data)).res
              case Fail(err) => e == Some(err) && forall j :: PipeAt(j) == old(PipeAt(j))
              case Ok(File(_, _)) => e == None && forall j :: PipeAt(j) == old(PipeAt(j))
              case Ok(Pipe(i)) =>
                && (PipeAt(i), e) == FillPipe(old(PipeAt(i)), data)
                && forall j :: j != i ==> PipeAt(j) == old(PipeAt(j))
    {
      hide FS.Valid, FS.WrittenTo, FS.View, OpenPipe;
      var written := fs.WriteFileName(name, data);
      if written.Fail? {
        return Some(written.err);
      }
      if written.value.FileHandle? {
        return None;
      }
      e := WriteFifo(written.value.node.ino, data);
    }

    method WriteFifo(i: nat, data: seq<byte>) returns (e: Option<Err>)
      requires Valid()
      modifies this`pipes, if i in pipes then {pipes[i]} else {}
      ensures Valid() && fresh(pipes.Values - old(pipes.Values))
      ensures (PipeAt(i), e) == FillPipe(old(PipeAt(i)), data)
      ensures forall j :: j != i ==> PipeAt(j) == old(PipeAt(j))
    {
      hide FS.Valid, OpenPipe, WritePipe, CloseWriter;
      var end := OpenFifo(i, WRITE_FLAGS);
      if end.Fail? {
        return Some(end.err);
      }
      assert forall j :: j in pipes && j != i ==> pipes[j] != end.value.writer.state;
      var sent := end.value.writer.Write(data);
      end.value.writer.Close();
      e := if sent.PipeErr? then Some(sent.err) else None;
    }
  }

  /** What WriteFile does to a FIFO's pipe: open for writing, write, close. */
  function FillPipe(s: PipeState, data: seq<byte>): (PipeState, Option<Err>) {
    var (t, o) := OpenPipe(s, WRITE_FLAGS);
    if o.PipeErr? then (t, Some(o.err))
    else
      var (u, w) := WritePipe(t, false, data);
      (CloseWriter(u, false), if w.PipeErr? then Some(w.err) else None)
  }

  /**
   * Writing a FIFO by name succeeds exactly when no writer has it open and, if a reader has, no reader before it closed
   * in the same epoch; then the data is the last buffered, after what was there if a reader has it open.
   */
  lemma FillIff(s: PipeState, data: seq<byte>)
    ensures var (t, e) := FillPipe(s, data);
            && (e == None <==> !s.writeOpen && !(s.readOpen && s.readerClosed))
            && (e == None ==> t.data == (if s.readOpen then s.data else []) + data && t.writerClosed && !t.writeOpen)
            && (e != None ==> t.data == s.data)
  { }

  /**
   * The failing history: a reader closes while a writer has the pipe open, another reader opens, and the writer closes.
   * From then on, while that reader waits, every write by name is refused as if none were there.
   */
  lemma SecondReaderStarves(data: seq<byte>)
    ensures var r := Flags(false, false, false, false, false, false);
            var s := RunPipe(NEW_RUN, [EvOpen(WRITE_FLAGS), EvOpen(r), EvClose(1), EvOpen(r), EvClose(0)]).s;
            s.readOpen && !s.writeOpen && FillPipe(s, data).1 == Some(ClosedPipe)
  {
    var r := Flags(false, false, false, false, false, false);
    var r1 := StepPipe(NEW_RUN, EvOpen(WRITE_FLAGS)).0;
    var r2 := StepPipe(r1, EvOpen(r)).0;
    var r3 := StepPipe(r2, EvClose(1)).0;
    var r4 := StepPipe(r3, EvOpen(r)).0;
    var r5 := StepPipe(r4, EvClose(0)).0;
    RunOne(r4, EvClose(0), []);
    RunOne(r3, EvOpen(r), [EvClose(0)]);
    RunOne(r2, EvClose(1), [EvOpen(r), EvClose(0)]);
    RunOne(r1, EvOpen(r), [EvClose(1), EvOpen(r), EvClose(0)]);
    RunOne(NEW_RUN, EvOpen(WRITE_FLAGS), [EvOpen(r), EvClose(1), EvOpen(r), EvClose(0)]);
  }

  lemma RunOne(r: PipeRun, ev: Event, evs: seq<Event>)
    ensures RunPipe(r, [ev] + evs) == RunPipe(StepPipe(r, ev).0, evs)
    ensures evs == [] ==> RunPipe(r, [ev]) == StepPipe(r, ev).0
  {
    assert ([ev] + evs)[1..] == evs;
    assert evs == [] ==> [ev] + evs == [ev];
  }
}

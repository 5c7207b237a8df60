/** Regular file contents: reads, writes, appends and truncations through any number of handles on one node. */
module MemFiles {
  import opened MemGraph
  import opened MemLookup

  /** The open flags the filesystem looks at; `write` is O_WRONLY. */
  datatype Flags = Flags(write: bool, rdwr: bool, create: bool, excl: bool, trunc: bool, append: bool)

  /** regularFile without its node. */
  datatype Handle = Handle(offset: nat, readable: bool, writable: bool, append: bool, closed: bool)

  function OpenHandle(data: seq<byte>, f: Flags, writable: bool): Handle {
    Handle(if f.append then |data| else 0, !f.write, writable, f.append, false)
  }

  /** O_TRUNC empties the file only for a handle that can write and does not append. */
  predicate Truncates(f: Flags) {
    (f.write || f.rdwr) && f.trunc && !f.append
  }

  const NUL: byte := 0

  function Zeros(n: nat): seq<byte> {
    seq(n, i => NUL)
  }

  /** Grow with zeros up to the end of the write, then copy the bytes in. */
  function WriteAt(data: seq<byte>, off: nat, p: seq<byte>): seq<byte> {
    var end := off + |p|;
    var grown := if end > |data| then data + Zeros(end - |data|) else data;
    grown[..off] + p + grown[end..]
  }

  /** How many bytes a read into a buffer of n bytes copies. */
  function ReadCount(data: seq<byte>, off: nat, n: nat): nat {
    if off >= |data| then 0 else if |data| - off < n then |data| - off else n
  }

  // ---------- one file, many handles ----------

  datatype FileOp =
    | OpenOp(flags: Flags)
    | ReadOp(h: nat, n: nat)
    | WriteOp(h: nat, p: seq<byte>)
    | CloseOp(h: nat)

  /** What a write put where; kept for the specification only. */
  datatype Effect = Wrote(off: nat, p: seq<byte>) | Emptied

  datatype FileState = FileState(data: seq<byte>, handles: seq<Handle>, log: seq<Effect>)

  datatype IoResult = Bytes(p: seq<byte>) | Count(n: nat) | IoErr(err: Err) | Done

  function ReadFile(h: Handle, data: seq<byte>, n: nat): (Handle, IoResult) {
    if h.closed then (h, IoErr(Closed))
    else if !h.readable then (h, IoErr(BadFD))
    else if h.offset >= |data| then (h, IoErr(EOF))
    else
      var c := ReadCount(data, h.offset, n);
      (h.(offset := h.offset + c), Bytes(data[h.offset..h.offset + c]))
  }

  /** The new handle, the new contents, the result and the offset written at. */
  function WriteFileAt(h: Handle, data: seq<byte>, p: seq<byte>): (Handle, seq<byte>, IoResult) {
    if h.closed then (h, data, IoErr(Closed))
    else if !h.writable then (h, data, IoErr(BadFD))
    else
      var off := if h.append then |data| else h.offset;
      (h.(offset := off + |p|), WriteAt(data, off, p), Count(|p|))
  }

  function Apply(s: FileState, op: FileOp): FileState {
    match op
    case OpenOp(f) =>
      var data := if Truncates(f) then [] else s.data;
      FileState(data, s.handles + [OpenHandle(data, f, f.write || f.rdwr)], if Truncates(f) then s.log + [Emptied]
          else s.log)
    case ReadOp(h, n) =>
      if h < |s.handles| then s.(handles := s.handles[h := ReadFile(s.handles[h], s.data, n).0]) else s
    case WriteOp(h, p) =>
      if h < |s.handles| then
        var (h', data, r) := WriteFileAt(s.handles[h], s.data, p);
        FileState(data, s.handles[h := h'], if r.Count? then s.log + [Wrote(h'.offset - |p|, p)] else s.log)
      else s
    case CloseOp(h) =>
      if h < |s.handles| then s.(handles := s.handles[h := s.handles[h].(closed := true)]) else s
  }

  function Run(s: FileState, ops: seq<FileOp>): FileState
    decreases |ops|
  {
    if ops == [] then s else Run(Apply(s, ops[0]), ops[1..])
  }

  /** The length the file has after its log: the furthest end written since it was last emptied. */
  function LogLength(log: seq<Effect>): nat {
    if log == [] then 0
    else
      var before := LogLength(log[..|log| - 1]);
      match log[|log| - 1]
      case Emptied => 0
      case Wrote(off, p) => if off + |p| > before then off + |p| else before
  }

  /** The byte at k: the last write covering k since the file was last emptied, zero if there is none. */
  function LogByte(log: seq<Effect>, k: nat): byte {
    if log == [] then NUL
    else match log[|log| - 1]
      case Emptied => NUL
      case Wrote(off, p) => if off <= k < off + |p| then p[k - off] else LogByte(log[..|log| - 1], k)
  }

  ghost predicate Refines(s: FileState) {
    |s.data| == LogLength(s.log) && forall k: nat :: k < |s.data| ==> s.data[k] == LogByte(s.log, k)
  }

  lemma {:induction false} PastEnd(log: seq<Effect>, k: nat)
    requires k >= LogLength(log)
    ensures LogByte(log, k) == 0
  {
    if log != [] && log[|log| - 1].Wrote? {
      PastEnd(log[..|log| - 1], k);
    }
  }

  lemma ApplyRefines(s: FileState, op: FileOp)
    requires Refines(s)
    ensures Refines(Apply(s, op))
  {
    var t := Apply(s, op);
    if t.log != s.log {
      assert t.log[..|t.log| - 1] == s.log;
      forall k: nat | k < |t.data| ensures t.data[k] == LogByte(t.log, k) {
        if k >= |s.data| { PastEnd(s.log, k); }
      }
    }
  }

  /** Any interleaving of opens, reads, writes and closes leaves exactly the bytes last written, gaps zero. */
  lemma {:induction false} RunRefines(s: FileState, ops: seq<FileOp>)
    requires Refines(s)
    ensures Refines(Run(s, ops))
    decreases |ops|
  {
    if ops != [] {
      ApplyRefines(s, ops[0]);
      RunRefines(Apply(s, ops[0]), ops[1..]);
    }
  }

  /** An append lands after everything written so far, wherever the handle was. */
  lemma AppendKeeps(h: Handle, data: seq<byte>, p: seq<byte>)
    requires h.append && h.writable && !h.closed
    ensures WriteFileAt(h, data, p).1 == data + p
  { }

  /** Reading back where a write went returns the written bytes and then the rest of the old contents. */
  lemma ReadAfterWrite(h: Handle, data: seq<byte>, p: seq<byte>, r: Handle, n: nat)
    requires h.writable && !h.closed && r.readable && !r.closed && p != []
    requires r.offset == (if h.append then |data| else h.offset)
    ensures var data' := WriteFileAt(h, data, p).1;
            n == |p| ==> ReadFile(r, data', n) == (r.(offset := r.offset + n), Bytes(p))
  {
    var off := if h.append then |data| else h.offset;
    var data' := WriteAt(data, off, p);
    assert data'[off..off + |p|] == p;
  }

  /** A read gives the next bytes there are, as many as fit, and moves past them; at the end it says so. */
  lemma ReadOutcome(h: Handle, data: seq<byte>, n: nat)
    ensures var (h', r) := ReadFile(h, data, n);
            match r
            case IoErr(e) =>
              && h' == h
              && if h.closed then e == Closed else if !h.readable then e == BadFD else e == EOF && h.offset >= |data|
            case Bytes(p) =>
              && !h.closed && h.readable && h.offset < |data| && h' == h.(offset := h.offset + |p|)
              && p <= data[h.offset..] && (|p| == n || (|p| < n && h'.offset == |data|))
            case _ => false
  { }

  /** A write sets the bytes it covers, fills a gap before it with zeros and leaves every other byte. */
  lemma WriteOutcome(h: Handle, data: seq<byte>, p: seq<byte>)
    ensures var (h', data', r) := WriteFileAt(h, data, p);
            match r
            case IoErr(e) =>
              h' == h && data' == data && if h.closed then e == Closed else !h.writable && e == BadFD
            case Count(n) =>
              var off := if h.append then |data| else h.offset;
              && !h.closed && h.writable && n == |p| && h' == h.(offset := off + |p|)
              && |data'| == (if off + |p| > |data| then off + |p| else |data|)
              && forall k :: 0 <= k < |data'| ==>
                   data'[k] == if off <= k < off + |p| then p[k - off] else if k < |data| then data[k] else 0
            case _ => false
  { }
}

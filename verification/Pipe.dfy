/** src/fs/pipe.c: pipes over a ring buffer, with any number of sleeping readers and writers. */
module Pipes {
  import opened Lists
  import opened RingBuffers

  const EPIPE: int := 32
  const EAGAIN: int := 11
  const ERESTARTSYS: int := 512

  /** What the locked part of a call does: return a value, or sleep and try again. */
  datatype Outcome = Return(value: int) | Sleep

  class PipeInode {
    const rb: RingBuffer
    var readers: nat
    var writers: nat

    ghost predicate Valid()
      reads this, rb, rb.data
    {
      rb.Valid()
    }

    /** init_pipe_inode_info */
    constructor ()
      ensures Valid() && rb.Contents() == [] && readers == writers == 1
      ensures fresh(rb) && fresh(rb.data)
    {
      rb := new RingBuffer();
      readers, writers := 1, 1;
    }

    /** The locked part of pipe_read. */
    method TryRead(count: nat, nonblock: bool) returns (r: Outcome, out: seq<Byte>)
      requires Valid()
      modifies rb
      ensures Valid() && (r, out, rb.Contents()) == Reading(old(rb.Contents()), writers, count, nonblock)
    {
      out := [];
      if rb.len == 0 {
        if writers == 0 { return Return(0), []; }
        if nonblock { return Return(-EAGAIN), []; }
        return Sleep, [];
      }
      ghost var was := rb.Contents();
      out := rb.Read(count);
      r := Return(|out|);
      assert out == was[..|out|] && rb.Contents() == was[|out|..];
    }

    /** The locked part of pipe_write. */
    method TryWrite(buf: seq<Byte>, nonblock: bool) returns (r: Outcome)
      requires Valid()
      modifies rb, rb.data
      ensures Valid() && (r, rb.Contents()) == Writing(old(rb.Contents()), readers, buf, nonblock)
    {
      if readers == 0 { return Return(-EPIPE); }
      if rb.len == PAGE_SIZE {
        if nonblock { return Return(-EAGAIN); }
        return Sleep;
      }
      var n := rb.Write(buf);
      r := Return(n);
    }
  }

  /** pipe_read on the bytes in the pipe: the outcome, the bytes read, the bytes left. */
  function Reading(bytes: seq<Byte>, writers: nat, count: nat, nonblock: bool): (Outcome, seq<Byte>, seq<Byte>)
  {
    if bytes == [] then
      (if writers == 0 then Return(0) else if nonblock then Return(-EAGAIN) else Sleep, [], bytes)
    else
      var n := Min(count, |bytes|);
      (Return(n), bytes[..n], bytes[n..])
  }

  /** pipe_write: the outcome and the bytes in the pipe afterwards. */
  function Writing(bytes: seq<Byte>, readers: nat, buf: seq<Byte>, nonblock: bool): (Outcome, seq<Byte>)
  {
    if readers == 0 then (Return(-EPIPE), bytes)
    else if |bytes| >= PAGE_SIZE then (if nonblock then Return(-EAGAIN) else Sleep, bytes)
    else
      var n := Min(|buf|, PAGE_SIZE - |bytes|);
      (Return(n), bytes + buf[..n])
  }

  // Threads at a pipe.

  datatype Pc =
    | Idle
    | Read(count: nat, nonblock: bool)          // before the lock in pipe_read
    | ReadAsleep(count: nat, nonblock: bool)    // on wait_read
    | Write(buf: seq<Byte>, nonblock: bool)     // before the lock in pipe_write
    | WriteAsleep(buf: seq<Byte>, nonblock: bool)

  /** The pipe, its threads, and all bytes ever written and read. */
  datatype State = State(bytes: seq<Byte>, readers: nat, writers: nat, pcs: map<nat, Pc>, written: seq<Byte>,
                         got: seq<Byte>)

  datatype Act =
    | CallRead(t: nat, count: nat, nonblock: bool)
    | CallWrite(t: nat, buf: seq<Byte>, nonblock: bool)
    | Step(t: nat)                       // the locked part of the call of t
    | Interrupt(t: nat)                  // a signal ends the call of t with -ERESTARTSYS
    | Stir(t: nat)                       // t wakes without reason and tries again
    | OpenReader | OpenWriter            // one more reader or writer
    | CloseReader | CloseWriter          // pipe_read_release, pipe_write_release

  function WakeReaders(pcs: map<nat, Pc>): map<nat, Pc>
  {
    map t | t in pcs :: if pcs[t].ReadAsleep? then Read(pcs[t].count, pcs[t].nonblock) else pcs[t]
  }

  function WakeWriters(pcs: map<nat, Pc>): map<nat, Pc>
  {
    map t | t in pcs :: if pcs[t].WriteAsleep? then Write(pcs[t].buf, pcs[t].nonblock) else pcs[t]
  }

  predicate Enabled(s: State, a: Act) {
    match a
    case CallRead(t, _, _) => t in s.pcs && s.pcs[t].Idle?
    case CallWrite(t, _, _) => t in s.pcs && s.pcs[t].Idle?
    case Step(t) => t in s.pcs && (s.pcs[t].Read? || s.pcs[t].Write?)
    case Interrupt(t) => t in s.pcs && !s.pcs[t].Idle?
    case Stir(t) => t in s.pcs && (s.pcs[t].ReadAsleep? || s.pcs[t].WriteAsleep?)
    case OpenReader => true
    case OpenWriter => true
    case CloseReader => s.readers > 0
    case CloseWriter => s.writers > 0
  }

  /** What the call of t returns in this step, when it does. */
  function Result(s: State, a: Act): Outcome
    requires Enabled(s, a)
  {
    match a
    case Step(t) =>
      var pc := s.pcs[t];
      if pc.Read? then Reading(s.bytes, s.writers, pc.count, pc.nonblock).0
      else Writing(s.bytes, s.readers, pc.buf, pc.nonblock).0
    case Interrupt(_) => Return(-ERESTARTSYS)
    case _ => Sleep
  }

  function Next(s: State, a: Act): State
    requires Enabled(s, a)
  {
    match a
    case CallRead(t, count, nonblock) => s.(pcs := s.pcs[t := Read(count, nonblock)])
    case CallWrite(t, buf, nonblock) => s.(pcs := s.pcs[t := Write(buf, nonblock)])
    case Step(t) =>
      var pc := s.pcs[t];
      if pc.Read? then
        var (r, out, rest) := Reading(s.bytes, s.writers, pc.count, pc.nonblock);
        if r.Sleep? then s.(pcs := s.pcs[t := ReadAsleep(pc.count, pc.nonblock)])
        else s.(bytes := rest, got := s.got + out,
                pcs := (if s.bytes != [] then WakeWriters(s.pcs) else s.pcs)[t := Idle])
      else
        var (r, after) := Writing(s.bytes, s.readers, pc.buf, pc.nonblock);
        if r.Sleep? then s.(pcs := s.pcs[t := WriteAsleep(pc.buf, pc.nonblock)])
        else s.(bytes := after, written := s.written + after[|s.bytes|..],
                pcs := (if r.value >= 0 then WakeReaders(s.pcs) else s.pcs)[t := Idle])
    case Interrupt(t) => s.(pcs := s.pcs[t := Idle])
    case Stir(t) =>
      var pc := s.pcs[t];
      s.(pcs := s.pcs[t := if pc.ReadAsleep? then Read(pc.count, pc.nonblock) else Write(pc.buf, pc.nonblock)])
    case OpenReader => s.(readers := s.readers + 1, pcs := WakeWriters(s.pcs))
    case OpenWriter => s.(writers := s.writers + 1, pcs := WakeReaders(s.pcs))
    case CloseReader => s.(readers := s.readers - 1, pcs := WakeWriters(s.pcs))
    case CloseWriter => s.(writers := s.writers - 1, pcs := WakeReaders(s.pcs))
  }

  /** Bytes come out as they went in; readers sleep only on an empty pipe with a writer, writers on a full one with a
      reader. */
  ghost predicate Inv(s: State) {
    && s.written == s.got + s.bytes && |s.bytes| <= PAGE_SIZE
    && (forall t :: t in s.pcs && s.pcs[t].ReadAsleep? ==> s.bytes == [] && s.writers > 0)
    && (forall t :: t in s.pcs && s.pcs[t].WriteAsleep? ==> |s.bytes| == PAGE_SIZE && s.readers > 0)
  }

  /** Reading keeps the order of bytes, and wakes the writers when it makes room. */
  lemma ReadStepKeeps(s: State, t: nat)
    requires Inv(s) && Enabled(s, Step(t)) && s.pcs[t].Read?
    ensures Inv(Next(s, Step(t)))
  {
    var (r, out, rest) := Reading(s.bytes, s.writers, s.pcs[t].count, s.pcs[t].nonblock);
    assert s.got + s.bytes == (s.got + out) + rest;
  }

  /** Writing appends, and wakes the readers. */
  lemma WriteStepKeeps(s: State, t: nat)
    requires Inv(s) && Enabled(s, Step(t)) && s.pcs[t].Write?
    ensures Inv(Next(s, Step(t)))
  {
    var (r, after) := Writing(s.bytes, s.readers, s.pcs[t].buf, s.pcs[t].nonblock);
    assert after == s.bytes + after[|s.bytes|..];
    assert s.written + after[|s.bytes|..] == s.got + after;
  }

  lemma StepKeeps(s: State, a: Act)
    requires Inv(s) && Enabled(s, a)
    ensures Inv(Next(s, a))
  {
    if a.Step? {
      hide Inv, Next;
      if s.pcs[a.t].Read? { ReadStepKeeps(s, a.t); } else { WriteStepKeeps(s, a.t); }
    } else {
      hide Reading, Writing;
      assert Next(s, a).bytes == s.bytes && Next(s, a).got == s.got && Next(s, a).written == s.written;
    }
  }

  ghost predicate Reaches(s: State, acts: seq<Act>, s': State)
    decreases |acts|
  {
    if acts == [] then s' == s else Enabled(s, acts[0]) && Reaches(Next(s, acts[0]), acts[1..], s')
  }

  /** Over every run the bytes read so far are a prefix of those written, and the rest is in the pipe. */
  lemma {:induction false} RunKeeps(s: State, acts: seq<Act>, s': State)
    requires Inv(s) && Reaches(s, acts, s')
    ensures Inv(s') && s'.got <= s'.written && s'.written[|s'.got|..] == s'.bytes
    decreases |acts|
  {
    hide Next;
    if acts != [] {
      StepKeeps(s, acts[0]);
      RunKeeps(Next(s, acts[0]), acts[1..], s');
    }
  }

  /** A read returns 0 exactly when it asks for nothing of a pipe that holds something, or finds it empty with no
      writer. */
  lemma ReadReturnsZero(s: State, t: nat)
    requires Inv(s) && Enabled(s, Step(t)) && s.pcs[t].Read?
    ensures Result(s, Step(t)) == Return(0) <==>
      if s.bytes == [] then s.writers == 0 else s.pcs[t].count == 0
  {
  }

  /** What a read does in every case: the end of the stream, no waiting, a sleep, or all it asks for that is there. */
  lemma ReadOutcome(s: State, t: nat)
    requires Inv(s) && Enabled(s, Step(t)) && s.pcs[t].Read?
    ensures var r, s', count := Result(s, Step(t)), Next(s, Step(t)), s.pcs[t].count;
      if s.bytes == [] then
        && s'.bytes == [] && s'.got == s.got
        && r == (if s.writers == 0 then Return(0) else if s.pcs[t].nonblock then Return(-11) else Sleep)
        && (if r.Sleep? then s'.pcs[t] == ReadAsleep(count, false) else s'.pcs[t] == Idle)
      else
        var n := if count <= |s.bytes| then count else |s.bytes|;
        && r == Return(n) && s'.got == s.got + s.bytes[..n] && s'.bytes == s.bytes[n..] && s'.pcs[t] == Idle
        && forall u :: u in s.pcs ==> !s'.pcs[u].WriteAsleep?
  {
  }

  /** What a write does: a broken pipe, no waiting, a sleep, or all of it that fits. */
  lemma WriteOutcome(s: State, t: nat)
    requires Inv(s) && Enabled(s, Step(t)) && s.pcs[t].Write?
    ensures var r, s', buf := Result(s, Step(t)), Next(s, Step(t)), s.pcs[t].buf;
      if s.readers == 0 || |s.bytes| == 4096 then
        && s'.bytes == s.bytes && s'.written == s.written
        && r == (if s.readers == 0 then Return(-32) else if s.pcs[t].nonblock then Return(-11) else Sleep)
        && (if r.Sleep? then s'.pcs[t] == WriteAsleep(buf, false) else s'.pcs[t] == Idle)
      else
        var n := if |buf| <= 4096 - |s.bytes| then |buf| else 4096 - |s.bytes|;
        && r == Return(n) && s'.written == s.written + buf[..n] && s'.bytes == s.bytes + buf[..n] && s'.pcs[t] == Idle
        && forall u :: u in s.pcs ==> !s'.pcs[u].ReadAsleep?
  {
  }

  /** A call that returns a positive number has moved that many bytes, in order, between the buffer and the caller. */
  lemma TransfersInOrder(s: State, t: nat)
    requires Inv(s) && Enabled(s, Step(t)) && Result(s, Step(t)).Return? && Result(s, Step(t)).value > 0
    ensures var n, s' := Result(s, Step(t)).value, Next(s, Step(t));
      if s.pcs[t].Read? then
        n <= s.pcs[t].count && s'.got == s.got + s.written[|s.got|..|s.got| + n] && s'.written == s.written
      else n <= |s.pcs[t].buf| && s'.written == s.written + s.pcs[t].buf[..n] && s'.got == s.got
  {
  }
}

/** src/fs/socket.c: descriptors that travel with the bytes of a stream. */
module SocketRights {
  import opened Lists

  import RingBuffers

  const UNIX_RIGHTS_MAX: nat := 16
  const EPIPE: int := 32
  const EMSGSIZE: int := 90

  type Byte = RingBuffers.Byte

  /** A file queued with the message that lies at [position, end) of the stream. */
  datatype Right = Right(file: nat, position: nat, end: nat)

  /** A call returns, or waits to try again. */
  datatype Outcome = Return(value: int) | Block

  /** Messages with rights are in order, apart, not behind the reader and within what was written. */
  ghost predicate Ordered(rs: seq<Right>, read: nat, written: nat) {
    && (forall i :: 0 <= i < |rs| ==> read <= rs[i].position < rs[i].end <= written)
    && (forall i, j :: 0 <= i < j < |rs| ==> rs[i].end <= rs[j].position)
  }

  /** The rights that a reader at `position` has not passed. */
  function NotPassed(rs: seq<Right>, position: nat): seq<Right>
  {
    if rs == [] || rs[0].position >= position then rs else NotPassed(rs[1..], position)
  }

  lemma {:induction false} NotPassedIs(rs: seq<Right>, position: nat, read: nat, written: nat)
    requires Ordered(rs, read, written) && read <= position <= written
    ensures var r := NotPassed(rs, position);
      Ordered(r, position, written) && |r| <= |rs| && r == rs[|rs| - |r|..]
      && forall i :: 0 <= i < |rs| - |r| ==> rs[i].position < position
  {
    if rs != [] && rs[0].position < position {
      NotPassedIs(rs[1..], position, read, written);
      var r := NotPassed(rs[1..], position);
      assert rs[1..][|rs| - 1 - |r|..] == rs[|rs| - |r|..];
      forall i | 0 <= i < |rs| - |r| ensures rs[i].position < position { assert i > 0 ==> rs[i] == rs[1..][i - 1]; }
    } else if rs != [] {
      assert forall i :: 0 < i < |rs| ==> rs[0].end <= rs[i].position;
    }
  }

  /** A recvmsg-style read stops before the next message with a right, or at the end of the one it starts. */
  function Clipped(rs: seq<Right>, start: nat, count: nat): nat
  {
    if rs == [] then count
    else if rs[0].position > start && rs[0].position < start + count then rs[0].position - start
    else if rs[0].position == start && rs[0].end < start + count
      then (if rs[0].end > start then rs[0].end - start else 0)
    else count
  }

  /** How often f is queued. */
  function Queued(rs: seq<Right>, f: nat): nat
  {
    if rs == [] then 0 else (if rs[0].file == f then 1 else 0) + Queued(rs[1..], f)
  }

  lemma {:induction false} QueuedConcat(rs: seq<Right>, ts: seq<Right>, f: nat)
    ensures Queued(rs + ts, f) == Queued(rs, f) + Queued(ts, f)
  {
    if rs == [] {
      assert rs + ts == ts;
    } else {
      assert (rs + ts)[1..] == rs[1..] + ts;
      QueuedConcat(rs[1..], ts, f);
    }
  }

  function Ring(a: seq<Right>, head: nat, count: nat): (r: seq<Right>)
    requires |a| == UNIX_RIGHTS_MAX
    ensures |r| == count
  {
    seq(count, j requires 0 <= j < count => a[(head + j) % UNIX_RIGHTS_MAX])
  }

  lemma RingPop(a: seq<Right>, head: nat, count: nat)
    requires |a| == UNIX_RIGHTS_MAX && head < UNIX_RIGHTS_MAX && 0 < count <= UNIX_RIGHTS_MAX
    ensures Ring(a, head, count)[0] == a[head] && Ring(a, head, count)[1..] ==
      Ring(a, (head + 1) % UNIX_RIGHTS_MAX, count - 1)
    ensures (head + count) % UNIX_RIGHTS_MAX == ((head + 1) % UNIX_RIGHTS_MAX + (count - 1)) % UNIX_RIGHTS_MAX
  {
    var rest := Ring(a, (head + 1) % UNIX_RIGHTS_MAX, count - 1);
    forall j: nat | j < count - 1 ensures rest[j] == Ring(a, head, count)[j + 1] {
      assert ((head + 1) % UNIX_RIGHTS_MAX + j) % UNIX_RIGHTS_MAX == (head + (j + 1)) % UNIX_RIGHTS_MAX;
    }
  }

  lemma RingPush(a: seq<Right>, head: nat, count: nat, r: Right)
    requires |a| == UNIX_RIGHTS_MAX && head < UNIX_RIGHTS_MAX && count < UNIX_RIGHTS_MAX
    ensures Ring(a[(head + count) % UNIX_RIGHTS_MAX := r], head, count + 1) == Ring(a, head, count) + [r]
  {
    var t := (head + count) % UNIX_RIGHTS_MAX;
    var before, after := Ring(a, head, count), Ring(a[t := r], head, count + 1);
    forall j: nat | j < count ensures after[j] == before[j] { NotTail(head, j, count); }
  }

  lemma TailMoves(head: nat, count: nat)
    ensures ((head + count) % UNIX_RIGHTS_MAX + 1) % UNIX_RIGHTS_MAX == (head + (count + 1)) % UNIX_RIGHTS_MAX
  {
  }

  lemma NotTail(head: nat, j: nat, count: nat)
    requires j < count < UNIX_RIGHTS_MAX
    ensures (head + j) % UNIX_RIGHTS_MAX != (head + count) % UNIX_RIGHTS_MAX
  {
  }

  /** The receiving end of a connected stream socket; `sent` is every byte ever written to it. */
  class Endpoint {
    const receive: RingBuffers.RingBuffer
    const rights: array<Right>
    var rightsHead: nat
    var rightsTail: nat
    var rightsCount: nat
    var readPosition: nat
    var writePosition: nat
    var readShutdown: bool
    var refs: map<nat, int>  // per file, the references it holds
    ghost var sent: seq<Byte>

    ghost predicate RightsOk()
      reads this`rightsHead, this`rightsTail, this`rightsCount
    {
      && rights.Length == UNIX_RIGHTS_MAX && rightsHead < UNIX_RIGHTS_MAX && rightsCount <= UNIX_RIGHTS_MAX
      && rightsTail == (rightsHead + rightsCount) % UNIX_RIGHTS_MAX
    }

    /** The queued rights, the oldest first. */
    ghost function Rights(): seq<Right>
      reads this`rightsHead, this`rightsTail, this`rightsCount, rights
      requires RightsOk()
    {
      Ring(rights[..], rightsHead, rightsCount)
    }

    ghost predicate StreamOk()
      reads this`readPosition, this`writePosition, this`sent, receive, receive.data
    {
      && receive.Valid() && readPosition <= writePosition == |sent| && receive.Contents() == sent[readPosition..]
    }

    ghost predicate Valid()
      reads this, rights, receive, receive.data
    {
      RightsOk() && StreamOk() && Ordered(Rights(), readPosition, writePosition)
    }

    function RefCount(f: nat): int
      reads this`refs
    {
      if f in refs then refs[f] else 0
    }

    /** socket_alloc */
    constructor ()
      ensures Valid() && Rights() == [] && sent == [] && fresh(rights) && fresh(receive) && fresh(receive.data)
    {
      receive := new RingBuffers.RingBuffer();
      rights := new Right[UNIX_RIGHTS_MAX](_ => Right(0, 0, 0));
      rightsHead, rightsTail, rightsCount, readPosition, writePosition := 0, 0, 0, 0, 0;
      readShutdown, refs, sent := false, map[], [];
    }

    /** The oldest right leaves the queue; the caller has its reference. */
    method Pop() returns (r: Right)
      requires RightsOk() && rightsCount > 0
      modifies this`rightsHead, this`rightsCount
      ensures RightsOk() && r == old(Rights())[0] && Rights() == old(Rights())[1..]
    {
      RingPop(rights[..], rightsHead, rightsCount);
      r := rights[rightsHead];
      rightsHead := (rightsHead + 1) % UNIX_RIGHTS_MAX;
      rightsCount := rightsCount - 1;
    }

    /** socket_discard_rights: rights behind position go, with their references. */
    method DiscardRights(position: nat)
      requires RightsOk()
      modifies this`rightsHead, this`rightsCount, this`refs
      ensures RightsOk() && Rights() == NotPassed(old(Rights()), position)
      ensures forall f: nat :: RefCount(f) - Queued(Rights(), f) == old(RefCount(f)) - Queued(old(Rights()), f)
    {
      while rightsCount > 0 && rights[rightsHead].position < position
        invariant RightsOk() && NotPassed(Rights(), position) == NotPassed(old(Rights()), position)
        invariant forall f: nat :: RefCount(f) - Queued(Rights(), f) == old(RefCount(f)) - Queued(old(Rights()), f)
        decreases rightsCount
      {
        RingPop(rights[..], rightsHead, rightsCount);
        var r := Pop();
        refs := refs[r.file := RefCount(r.file) - 1];
      }
      if rightsCount > 0 { RingPop(rights[..], rightsHead, rightsCount); }
    }

    /** socket_take_right: the right of a message that starts at start, when something of it was read. */
    method TakeRight(start: nat, end: nat) returns (file: Option<nat>)
      requires RightsOk() && (forall i :: 0 <= i < |Rights()| ==> start <= Rights()[i].position)
      modifies this`rightsHead, this`rightsCount, this`refs
      ensures RightsOk()
      ensures var rs := old(Rights());
        if rs != [] && rs[0].position == start && end > start then file == Some(rs[0].file) && Rights() == rs[1..]
        else file == None && Rights() == rs
      ensures forall f: nat :: RefCount(f) == old(RefCount(f))
    {
      file := None;
      NothingPassed(Rights(), start);
      DiscardRights(start);
      if rightsCount > 0 { RingPop(rights[..], rightsHead, rightsCount); }
      if rightsCount > 0 && rights[rightsHead].position == start && end > start {
        var r := Pop();
        file := Some(r.file);
      }
    }

    /** How far a recvmsg-style read may go. */
    method ClipCount(count: nat) returns (n: nat)
      requires Valid()
      modifies this`rightsHead, this`rightsCount, this`refs
      ensures Valid() && n == Clipped(Rights(), readPosition, count) && Rights() == old(Rights())
      ensures forall f: nat :: RefCount(f) == old(RefCount(f))
    {
      NothingPassed(Rights(), readPosition);
      DiscardRights(readPosition);
      n := count;
      if rightsCount > 0 {
        RingPop(rights[..], rightsHead, rightsCount);
        var next := rights[rightsHead];
        if next.position > readPosition && next.position < readPosition + count {
          n := next.position - readPosition;
        } else if next.position == readPosition && next.end < readPosition + count {
          n := next.end - readPosition;
        }
      }
    }

    /** Takes bytes off the stream. */
    method TakeBytes(count: nat) returns (out: seq<Byte>)
      requires StreamOk()
      modifies this`readPosition, receive
      ensures StreamOk() && |out| == Min(count, |old(receive.Contents())|)
      ensures readPosition == old(readPosition) + |out| && out == sent[old(readPosition)..readPosition]
    {
      ghost var bytes := receive.Contents();
      out := receive.Read(count);
      assert out == bytes[..|out|] && receive.Contents() == bytes[|out|..];
      readPosition := readPosition + |out|;
    }

    /** socket_read_data under the lock; want is a recvmsg-style read, which may come back with a file. */
    method ReadData(count: nat, want: bool, closed: bool) returns (r: Outcome, out: seq<Byte>, right: Option<nat>)
      requires Valid()
      modifies this`rightsHead, this`rightsCount, this`refs, this`readPosition, receive
      ensures Valid() && readPosition == old(readPosition) + |out| && out == sent[old(readPosition)..readPosition]
      ensures var avail, p := |old(receive.Contents())|,
        Plan(old(Rights()), old(readPosition), count, |old(receive.Contents())|, want);
        if avail == 0 then r == (if closed then Return(0) else Block) && out == [] && right == None
          && Rights() == old(Rights())
        else r == Return(|out|) && |out| == p.n && right == p.right && Rights() == p.left
      ensures forall f: nat ::
        RefCount(f) - Queued(Rights(), f) - (if right == Some(f) then 1 else 0) ==
          old(RefCount(f) - Queued(Rights(), f))
    {
      hide Ordered, NotPassed, Ring, Clipped;
      out, right := [], None;
      if receive.len == 0 { return if closed then Return(0) else Block, out, right; }
      var start := readPosition;
      ghost var rs, avail := Rights(), |receive.Contents()|;
      var count' := count;
      if want { count' := ClipCount(count); }
      out := TakeBytes(count');
      PlanOrdered(rs, start, writePosition, count, avail, want);
      OrderedAll(rs, start, writePosition);
      if want { right := TakeRight(start, readPosition); }
      if right == None { DiscardRights(readPosition); }
      r := Return(|out|);
    }

    /** socket_write by the peer, under the lock. */
    method PeerWrite(buf: seq<Byte>, closed: bool) returns (r: Outcome)
      requires Valid()
      modifies this`writePosition, this`sent, receive, receive.data
      ensures Valid() && readPosition == old(readPosition) && Rights() == old(Rights())
      ensures var n := Min(|buf|, RingBuffers.PAGE_SIZE - |old(receive.Contents())|);
        if closed || readShutdown then r == Return(-EPIPE) && sent == old(sent)
        else if n == 0 then r == Block && sent == old(sent)
        else r == Return(n) && sent == old(sent) + buf[..n]
    {
      if closed || readShutdown { return Return(-EPIPE); }
      GrowKeeps(Rights(), readPosition, writePosition);
      var n := AddBytes(buf);
      r := if n > 0 then Return(n) else Block;
    }

    /** Puts bytes on the stream. */
    method AddBytes(buf: seq<Byte>) returns (n: nat)
      requires StreamOk()
      modifies this`writePosition, this`sent, receive, receive.data
      ensures StreamOk() && n == Min(|buf|, RingBuffers.PAGE_SIZE - |old(receive.Contents())|)
      ensures sent == old(sent) + buf[..n] && receive.Contents() == old(receive.Contents()) + buf[..n]
    {
      n := receive.Write(buf);
      writePosition := writePosition + n;
      sent := sent + buf[..n];
    }

    /** socket_queue_right */
    method QueueRight(file: nat, position: nat, end: nat) returns (ok: bool)
      requires RightsOk()
      modifies this`rightsTail, this`rightsCount, this`refs, rights
      ensures RightsOk() && ok == (|old(Rights())| < UNIX_RIGHTS_MAX)
      ensures Rights() == if ok then old(Rights()) + [Right(file, position, end)] else old(Rights())
      ensures forall f: nat :: RefCount(f) - Queued(Rights(), f) == old(RefCount(f)) - Queued(old(Rights()), f)
    {
      if rightsCount == UNIX_RIGHTS_MAX { return false; }
      var right := Right(file, position, end);
      RingPush(rights[..], rightsHead, rightsCount, right);
      TailMoves(rightsHead, rightsCount);
      ghost var before, a := Rights(), rights[..];
      refs := refs[file := RefCount(file) + 1];
      rights[rightsTail] := right;
      assert rights[..] == a[rightsTail := right];
      rightsTail := (rightsTail + 1) % UNIX_RIGHTS_MAX;
      rightsCount := rightsCount + 1;
      forall f: nat ensures Queued(Rights(), f) == Queued(before, f) + (if file == f then 1 else 0) {
        QueuedConcat(before, [right], f);
        assert [right][1..] == [];
      }
      ok := true;
    }

    /** sys_sendmsg with a right: the whole message with its right, or nothing. */
    method SendMessage(iovs: seq<seq<Byte>>, file: nat, closed: bool) returns (r: Outcome)
      requires Valid()
      modifies this`writePosition, this`sent, this`rightsTail, this`rightsCount, this`refs, rights, receive,
        receive.data
      ensures Valid() && readPosition == old(readPosition)
      ensures forall f: nat :: RefCount(f) - Queued(Rights(), f) == old(RefCount(f)) - Queued(old(Rights()), f)
      ensures var message, at := Joined(iovs), old(writePosition);
        if message == [] then r == Return(0) && sent == old(sent) && Rights() == old(Rights())
        else if |message| > RingBuffers.PAGE_SIZE
        then r == Return(-EMSGSIZE) && sent == old(sent) && Rights() == old(Rights())
        else if closed || readShutdown then r == Return(-EPIPE) && sent == old(sent) && Rights() == old(Rights())
        else if |old(Rights())| == UNIX_RIGHTS_MAX || RingBuffers.PAGE_SIZE - |old(receive.Contents())| < |message|
        then r == Block && sent == old(sent) && Rights() == old(Rights())
        else
          r == Return(|message|) && sent == old(sent) + message
          && Rights() == old(Rights()) + [Right(file, at, at + |message|)]
    {
      hide Ring, Ordered, Queued;
      ghost var message := Joined(iovs);
      var length := 0;
      assert iovs[..0] == [];
      for i := 0 to |iovs|
        invariant length == |Joined(iovs[..i])|
      {
        assert iovs[..i + 1][..i] == iovs[..i];
        length := length + |iovs[i]|;
      }
      assert iovs[..|iovs|] == iovs;
      if length == 0 { return Return(0); }
      if length > RingBuffers.PAGE_SIZE { return Return(-EMSGSIZE); }
      if closed || readShutdown { return Return(-EPIPE); }
      if rightsCount == UNIX_RIGHTS_MAX || RingBuffers.PAGE_SIZE - receive.len < length { return Block; }
      var position := writePosition;
      ghost var rs := Rights();
      SendBytes(iovs);
      var queued := QueueRight(file, position, position + length);
      MessageOrdered(rs, readPosition, position, length, file);
      r := Return(length);
    }

    /** The copying loop of sys_sendmsg: every part fits, as its assert demands. */
    method SendBytes(iovs: seq<seq<Byte>>)
      requires StreamOk() && |receive.Contents()| + |Joined(iovs)| <= RingBuffers.PAGE_SIZE
      modifies this`writePosition, this`sent, receive, receive.data
      ensures StreamOk() && sent == old(sent) + Joined(iovs)
    {
      assert iovs[..0] == [];
      for i := 0 to |iovs|
        invariant StreamOk() && sent == old(sent) + Joined(iovs[..i])
        invariant |receive.Contents()| == |old(receive.Contents())| + |Joined(iovs[..i])|
      {
        assert iovs[..i + 1][..i] == iovs[..i];
        JoinedPrefix(iovs, i + 1);
        if |iovs[i]| > 0 {
          var n := AddBytes(iovs[i]);
          assert n == |iovs[i]|;
          assert iovs[i][..n] == iovs[i];
        }
      }
      assert iovs[..|iovs|] == iovs;
    }

    /** The read half of sys_shutdown: what was written and not read is gone, with its rights. */
    method ShutdownRead()
      requires Valid()
      modifies this`readShutdown, this`readPosition, this`rightsHead, this`rightsCount, this`refs, receive
      ensures Valid() && readShutdown && receive.Contents() == [] && Rights() == [] && readPosition == writePosition
      ensures forall f: nat :: RefCount(f) == old(RefCount(f)) - Queued(old(Rights()), f)
    {
      readShutdown := true;
      receive.Clear();
      AllPassed(Rights(), readPosition, writePosition);
      readPosition := writePosition;
      DiscardRights(readPosition);
    }

    /** The rights of a socket that is destroyed are released. */
    method ReleaseRights()
      requires RightsOk()
      modifies this`rightsHead, this`rightsCount, this`refs
      ensures RightsOk() && Rights() == [] && forall f: nat ::
        RefCount(f) == old(RefCount(f)) - Queued(old(Rights()), f)
    {
      while rightsCount > 0
        invariant RightsOk()
        invariant forall f: nat :: RefCount(f) - Queued(Rights(), f) == old(RefCount(f)) - Queued(old(Rights()), f)
        decreases rightsCount
      {
        RingPop(rights[..], rightsHead, rightsCount);
        var r := Pop();
        refs := refs[r.file := RefCount(r.file) - 1];
      }
    }
  }

  datatype Reading = Reading(n: nat, right: Option<nat>, left: seq<Right>)

  /** What a read of `count` bytes at start takes when `avail` bytes are there. */
  function Plan(rs: seq<Right>, start: nat, count: nat, avail: nat, want: bool): Reading
  {
    var n := Min(if want then Clipped(rs, start, count) else count, avail);
    if want && n > 0 && rs != [] && rs[0].position == start then Reading(n, Some(rs[0].file), rs[1..])
    else Reading(n, None, NotPassed(rs, start + n))
  }

  lemma OrderedAll(rs: seq<Right>, read: nat, written: nat)
    requires Ordered(rs, read, written)
    ensures forall i :: 0 <= i < |rs| ==> read <= rs[i].position
  {
  }

  lemma PlanOrdered(rs: seq<Right>, start: nat, written: nat, count: nat, avail: nat, want: bool)
    requires Ordered(rs, start, written) && start + avail == written
    ensures var p := Plan(rs, start, count, avail, want); Ordered(p.left, start + p.n, written)
  {
    var p := Plan(rs, start, count, avail, want);
    NotPassedIs(rs, start + p.n, start, written);
  }

  /** A recvmsg-style read loses no right: it takes the one whose message starts where it reads, and only then,
      does not read past that message, and stops in front of the next one. A plain read drops those it passes. */
  lemma RightsStayAligned(rs: seq<Right>, start: nat, written: nat, count: nat, avail: nat, want: bool)
    requires Ordered(rs, start, written) && start + avail == written
    ensures var p := Plan(rs, start, count, avail, want);
      && p.n <= count && p.n <= avail
      && (p.n == count || p.n == avail || (want && rs != [] &&
            start + p.n == if start < rs[0].position then rs[0].position else rs[0].end))
      && (want ==> (p.right.Some? <==> p.n > 0 && rs != [] && rs[0].position == start))
      && (want ==> p.left == if p.right.Some? then rs[1..] else rs)
      && (p.right.Some? ==> want && p.right.value == rs[0].file && start + p.n <= rs[0].end)
      && (want && rs != [] && start < rs[0].position ==> start + p.n <= rs[0].position)
      && (!want ==> p.right == None && forall i :: 0 <= i < |rs| ==>
        (rs[i] in p.left <==> start + p.n <= rs[i].position))
  {
    var p := Plan(rs, start, count, avail, want);
    NotPassedIs(rs, start + p.n, start, written);
    if want && p.right == None { NothingPassed(rs, start + p.n); }
    var k := |rs| - |p.left|;
    if !want {
      forall i | 0 <= i < |rs| ensures rs[i] in p.left <==> start + p.n <= rs[i].position {
        if i >= k { assert rs[i] == p.left[i - k]; }
      }
    }
  }

  /** A read that asks for something of a non-empty stream gets something. */
  lemma ReadsProgress(rs: seq<Right>, start: nat, written: nat, count: nat, avail: nat, want: bool)
    requires Ordered(rs, start, written) && count > 0 && avail > 0
    ensures Plan(rs, start, count, avail, want).n > 0
  {
  }

  lemma NothingPassed(rs: seq<Right>, position: nat)
    requires forall i :: 0 <= i < |rs| ==> position <= rs[i].position
    ensures NotPassed(rs, position) == rs
  {
  }

  /** A message in several parts. */
  function Joined(iovs: seq<seq<Byte>>): seq<Byte>
  {
    if iovs == [] then [] else Joined(iovs[..|iovs| - 1]) + iovs[|iovs| - 1]
  }

  lemma {:induction false} JoinedPrefix(iovs: seq<seq<Byte>>, i: nat)
    requires i <= |iovs|
    ensures |Joined(iovs[..i])| <= |Joined(iovs)|
  {
    if i < |iovs| {
      assert iovs[..|iovs| - 1][..i] == iovs[..i];
      JoinedPrefix(iovs[..|iovs| - 1], i);
    } else {
      assert iovs[..i] == iovs;
    }
  }

  lemma GrowKeeps(rs: seq<Right>, read: nat, written: nat)
    requires Ordered(rs, read, written)
    ensures forall more: nat :: more >= written ==> Ordered(rs, read, more)
  {
  }

  /** A new message is queued behind the others. */
  lemma MessageOrdered(rs: seq<Right>, read: nat, at: nat, length: nat, file: nat)
    requires Ordered(rs, read, at) && read <= at && length > 0
    ensures Ordered(rs + [Right(file, at, at + length)], read, at + length)
  {
  }

  lemma {:induction false} AllPassed(rs: seq<Right>, read: nat, written: nat)
    requires Ordered(rs, read, written)
    ensures NotPassed(rs, written) == []
  {
    if rs != [] { AllPassed(rs[1..], read, written); }
  }
}

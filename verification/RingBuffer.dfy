/** src/lib/ring_buffer.c: a byte queue in one page. */
module RingBuffers {
  import opened Lists

  const PAGE_SIZE: nat := 4096

  type Byte = x | 0 <= x < 256

  /** Slot j of the ring when the oldest byte lies at tail; masking with size - 1 is this wrap for a power of two. */
  function Place(tail: nat, j: nat): (p: nat)
    requires tail < PAGE_SIZE && j < PAGE_SIZE
    ensures p < PAGE_SIZE
  {
    if tail + j < PAGE_SIZE then tail + j else tail + j - PAGE_SIZE
  }

  function Stored(data: seq<Byte>, tail: nat, len: nat): (s: seq<Byte>)
    requires |data| == PAGE_SIZE && tail < PAGE_SIZE && len <= PAGE_SIZE
    ensures |s| == len
  {
    seq(len, j requires 0 <= j < len => data[Place(tail, j)])
  }

  class RingBuffer {
    const data: array<Byte>
    var head: nat  // index of next write
    var tail: nat  // index of next read
    var len: nat   // number of bytes stored

    ghost predicate Valid()
      reads this, data
    {
      data.Length == PAGE_SIZE && tail < PAGE_SIZE && len <= PAGE_SIZE && head == (tail + len) % PAGE_SIZE
    }

    /** The bytes stored, the oldest first. */
    ghost function Contents(): seq<Byte>
      reads this, data
      requires Valid()
    {
      Stored(data[..], tail, len)
    }

    constructor ()
      ensures Valid() && Contents() == [] && fresh(data)
    {
      data := new Byte[PAGE_SIZE];
      head, tail, len := 0, 0, 0;
    }

    method Clear()
      requires Valid()
      modifies this
      ensures Valid() && Contents() == []
    {
      head, tail, len := 0, 0, 0;
    }

    /** Appends as much of buf as there is room for. */
    method Write(buf: seq<Byte>) returns (n: nat)
      requires Valid()
      modifies this, data
      ensures Valid() && n == Min(|buf|, PAGE_SIZE - |old(Contents())|) && Contents() == old(Contents()) + buf[..n]
    {
      if |buf| == 0 { return 0; }
      n := Min(|buf|, PAGE_SIZE - len);
      if n == 0 { return; }
      CopyIn(buf[..n]);
      head := (head + n) % PAGE_SIZE;
      len := len + n;
      HeadMoves(tail, old(len), n);
    }

    /** The one or two copies of ring_buffer_write. */
    method CopyIn(src: seq<Byte>)
      requires Valid() && len + |src| <= PAGE_SIZE
      modifies data
      ensures Stored(data[..], tail, len + |src|) == Stored(old(data[..]), tail, len) + src
    {
      var n := |src|;
      var chunk1 := if head + n <= PAGE_SIZE then n else PAGE_SIZE - head;
      var h := head;
      forall i | 0 <= i < chunk1 { data[h + i] := src[i]; }
      if n > chunk1 {
        forall i | 0 <= i < n - chunk1 { data[i] := src[chunk1 + i]; }
      }
      BytesAppended(old(data[..]), data[..], tail, len, src);
    }

    /** Takes up to count of the oldest bytes. */
    method Read(count: nat) returns (out: seq<Byte>)
      requires Valid()
      modifies this
      ensures Valid() && old(Contents()) == out + Contents() && |out| == Min(count, |old(Contents())|)
    {
      if count == 0 { return []; }
      var n := Min(count, len);
      if n == 0 { return []; }
      var chunk1 := if tail + n <= PAGE_SIZE then n else PAGE_SIZE - tail;
      out := data[tail..tail + chunk1];
      if n > chunk1 { out := out + data[..n - chunk1]; } else { assert data[..n - chunk1] == []; }
      ghost var bytes := data[..];
      TakenOut(bytes, tail, n, chunk1);
      Taken(bytes, tail, len, n);
      hide Stored, Place;
      HeadStays(tail, len, n);
      tail := (tail + n) % PAGE_SIZE;
      len := len - n;
    }

    /** Takes the byte written last, or gives -1. */
    method Pop() returns (ch: int)
      requires Valid()
      modifies this
      ensures Valid()
      ensures old(Contents()) == [] ==> ch == -1 && Contents() == []
      ensures old(Contents()) != [] ==> ch >= 0 && old(Contents()) == Contents() + [ch]
    {
      if len == 0 { return -1; }
      head := (head - 1) % PAGE_SIZE;
      len := len - 1;
      ch := data[head];
    }
  }

  lemma BytesAppended(data: seq<Byte>, data': seq<Byte>, tail: nat, len: nat, s: seq<Byte>)
    requires |data| == |data'| == PAGE_SIZE && tail < PAGE_SIZE && len + |s| <= PAGE_SIZE
    requires forall j :: 0 <= j < len ==> data'[Place(tail, j)] == data[Place(tail, j)]
    requires forall j :: 0 <= j < |s| ==> data'[Place(tail, len + j)] == s[j]
    ensures Stored(data', tail, len + |s|) == Stored(data, tail, len) + s
  {
    forall j | 0 <= j < |s| ensures Stored(data', tail, len + |s|)[len + j] == s[j] {}
  }

  lemma HeadMoves(tail: nat, len: nat, n: nat)
    ensures ((tail + len) % PAGE_SIZE + n) % PAGE_SIZE == (tail + (len + n)) % PAGE_SIZE
  {
  }

  lemma Taken(data: seq<Byte>, tail: nat, len: nat, n: nat)
    requires |data| == PAGE_SIZE && tail < PAGE_SIZE && n <= len <= PAGE_SIZE
    ensures Stored(data, tail, len) == Stored(data, tail, n) + Stored(data, (tail + n) % PAGE_SIZE, len - n)
  {
    var rest := Stored(data, (tail + n) % PAGE_SIZE, len - n);
    forall j: nat | j < len - n ensures rest[j] == Stored(data, tail, len)[n + j] {}
  }

  lemma TakenOut(data: seq<Byte>, tail: nat, n: nat, chunk1: nat)
    requires |data| == PAGE_SIZE && tail < PAGE_SIZE && n <= PAGE_SIZE
    requires chunk1 == if tail + n <= PAGE_SIZE then n else PAGE_SIZE - tail
    ensures Stored(data, tail, n) == data[tail..tail + chunk1] + data[..n - chunk1]
  {
  }

  lemma HeadStays(tail: nat, len: nat, n: nat)
    requires n <= len
    ensures (tail + len) % PAGE_SIZE == ((tail + n) % PAGE_SIZE + (len - n)) % PAGE_SIZE
  {
  }
}

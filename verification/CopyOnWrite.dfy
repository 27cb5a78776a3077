/** src/mm/fault.c, src/mm/paging.c: demand paging and copy-on-write fork, refining a machine that copies eagerly. */
module EagerMemory {
  import opened Lists

  const USER_PAGES: nat := 0xC_0000

  /** The bytes of one page that are not zero. */
  type Bytes = map<nat, nat>

  function ByteAt(c: Bytes, off: nat): nat { if off in c then c[off] else 0 }

  datatype Perm = NoAccess | ReadOnly | ReadWrite
  datatype Backing = Anonymous | PrivateFile(page: nat) | SharedFile(page: nat)

  /** What a process mapped at one page: the VMA's protection and backing. */
  datatype Area = Area(perm: Perm, backing: Backing)

  predicate Private(b: Backing) { !b.SharedFile? }

  /** A process and a virtual page number. */
  datatype Key = Key(pid: nat, vpn: nat)

  datatype Op =
    | Map(pid: nat, vpn: nat, area: Area)
    | Unmap(pid: nat, vpn: nat)
    | Fork(parent: nat, child: nat)
    | Exit(pid: nat)
    | Read(pid: nat, vpn: nat, off: nat)
    | Write(pid: nat, vpn: nat, off: nat, byte: nat)
    | FileWrite(page: nat, off: nat, byte: nat)
    | Evict(page: nat)

  /** What a program sees of an operation. */
  datatype Seen = Done | Fault | Byte(byte: nat)

  /** own is None while the page still shows the file. */
  datatype Slot = Slot(area: Area, own: Option<Bytes>)

  datatype Eager = Eager(procs: set<nat>, slots: map<Key, Slot>, files: map<nat, Bytes>)

  function FileBytes(files: map<nat, Bytes>, f: nat): Bytes { if f in files then files[f] else map[] }

  function SlotBytes(e: Eager, k: Key): Bytes
    requires k in e.slots
  {
    var s := e.slots[k];
    if s.own.Some? then s.own.value
    else if s.area.backing.Anonymous? then map[]
    else FileBytes(e.files, s.area.backing.page)
  }

  function NewSlot(area: Area): Slot { Slot(area, if area.backing.Anonymous? then Some(map[]) else None) }

  /** The slots of a fork: the child's pages are copies made at once. */
  function Forked(slots: map<Key, Slot>, parent: nat, child: nat): map<Key, Slot>
  {
    slots + map v: nat | v < USER_PAGES && Key(parent, v) in slots :: Key(child, v) := slots[Key(parent, v)]
  }

  function Without(slots: map<Key, Slot>, pid: nat): map<Key, Slot>
  {
    map k | k in slots && k.pid != pid :: slots[k]
  }

  function Step(e: Eager, op: Op): (Eager, Seen)
  {
    match op
    case Map(pid, vpn, area) =>
      if pid in e.procs && vpn < USER_PAGES && Key(pid, vpn) !in e.slots
      then (e.(slots := e.slots[Key(pid, vpn) := NewSlot(area)]), Done) else (e, Fault)
    case Unmap(pid, vpn) =>
      (e.(slots := e.slots - {Key(pid, vpn)}), Done)
    case Fork(parent, child) =>
      if parent in e.procs && child !in e.procs
      then (e.(procs := e.procs + {child}, slots := Forked(e.slots, parent, child)), Done) else (e, Fault)
    case Exit(pid) =>
      (e.(procs := e.procs - {pid}, slots := Without(e.slots, pid)), Done)
    case Read(pid, vpn, off) =>
      var k := Key(pid, vpn);
      if k in e.slots && e.slots[k].area.perm != NoAccess then (e, Byte(ByteAt(SlotBytes(e, k), off))) else (e, Fault)
    case Write(pid, vpn, off, byte) =>
      var k := Key(pid, vpn);
      if k !in e.slots || e.slots[k].area.perm != ReadWrite then (e, Fault)
      else if e.slots[k].area.backing.SharedFile?
      then (e.(files := e.files[e.slots[k].area.backing.page := SlotBytes(e, k)[off := byte]]), Done)
      else (e.(slots := e.slots[k := e.slots[k].(own := Some(SlotBytes(e, k)[off := byte]))]), Done)
    case FileWrite(f, off, byte) =>
      (e.(files := e.files[f := FileBytes(e.files, f)[off := byte]]), Done)
    case Evict(f) => (e, Done)
  }

  function Run(e: Eager, ops: seq<Op>): (Eager, seq<Seen>)
  {
    if ops == [] then (e, [])
    else
      var (e', seen) := Run(e, ops[..|ops| - 1]);
      var (e'', last) := Step(e', ops[|ops| - 1]);
      (e'', seen + [last])
  }

  /** An operation of process pid itself on its memory, or the one that creates or ends it. */
  predicate Touches(op: Op, pid: nat) {
    match op
    case Map(p, _, _) => p == pid
    case Unmap(p, _) => p == pid
    case Fork(_, c) => c == pid
    case Exit(p) => p == pid
    case Write(p, _, _, _) => p == pid
    case _ => false
  }

  /** Whatever other processes do, forks of this one included, a page of its own stays as it is. */
  lemma {:induction false} OwnPagesUndisturbed(e: Eager, ops: seq<Op>, k: Key)
    requires k in e.slots && k.vpn < USER_PAGES && k.pid in e.procs && e.slots[k].own.Some?
    requires forall i :: 0 <= i < |ops| ==> !Touches(ops[i], k.pid)
    ensures var e' := Run(e, ops).0; k.pid in e'.procs && k in e'.slots && e'.slots[k] == e.slots[k]
  {
    if ops != [] { OwnPagesUndisturbed(e, ops[..|ops| - 1], k); }
  }

  /** A fork gives the child every page of the parent as it is, and parent and child then write apart. */
  lemma ForkCopies(e: Eager, parent: nat, child: nat, v: nat, off: nat, byte: nat)
    requires parent in e.procs && child !in e.procs && v < USER_PAGES && Key(parent, v) in e.slots
    requires forall k :: k in e.slots ==> k.pid in e.procs
    requires Private(e.slots[Key(parent, v)].area.backing)
    ensures var e' := Step(e, Fork(parent, child)).0;
      && SlotBytes(e', Key(child, v)) == SlotBytes(e, Key(parent, v)) == SlotBytes(e', Key(parent, v))
      && SlotBytes(Step(e', Write(child, v, off, byte)).0, Key(parent, v)) == SlotBytes(e, Key(parent, v))
      && SlotBytes(Step(e', Write(parent, v, off, byte)).0, Key(child, v)) == SlotBytes(e, Key(parent, v))
  {
    assert Key(parent, v) != Key(child, v);
  }

  // What programs read.

  /** A process reads back what it wrote, at every other offset what was there, whatever others do meanwhile. */
  lemma ReadsBack(e: Eager, pid: nat, v: nat, off: nat, byte: nat, ops: seq<Op>, at: nat)
    requires Step(e, Write(pid, v, off, byte)).1 == Done && pid in e.procs && v < USER_PAGES
    requires Private(e.slots[Key(pid, v)].area.backing)
    requires forall i :: 0 <= i < |ops| ==> !Touches(ops[i], pid)
    ensures var e' := Run(Step(e, Write(pid, v, off, byte)).0, ops).0;
      Step(e', Read(pid, v, at)).1 == if at == off then Byte(byte) else Step(e, Read(pid, v, at)).1
  {
    OwnPagesUndisturbed(Step(e, Write(pid, v, off, byte)).0, ops, Key(pid, v));
  }

  /** New anonymous memory reads as zeroes until its process writes it, unless no access is allowed. */
  lemma NewMemoryIsZero(e: Eager, pid: nat, v: nat, perm: Perm, ops: seq<Op>, at: nat)
    requires Step(e, Map(pid, v, Area(perm, Anonymous))).1 == Done
    requires forall i :: 0 <= i < |ops| ==> !Touches(ops[i], pid)
    ensures var e' := Run(Step(e, Map(pid, v, Area(perm, Anonymous))).0, ops).0;
      Step(e', Read(pid, v, at)).1 == if perm == NoAccess then Fault else Byte(0)
  {
    OwnPagesUndisturbed(Step(e, Map(pid, v, Area(perm, Anonymous))).0, ops, Key(pid, v));
  }

  /** The byte at an offset of a file page. */
  function FileByte(files: map<nat, Bytes>, f: nat, at: nat): nat
  {
    if f in files && at in files[f] then files[f][at] else 0
  }

  /** A mapped file page shows the file as it then is, until the process itself writes there. */
  lemma {:induction false} MappedFileShows(e: Eager, pid: nat, v: nat, area: Area, ops: seq<Op>, at: nat)
    requires Step(e, Map(pid, v, area)).1 == Done && !area.backing.Anonymous? && area.perm != NoAccess
    requires forall i :: 0 <= i < |ops| ==> !Touches(ops[i], pid)
    ensures var e' := Run(Step(e, Map(pid, v, area)).0, ops).0;
      Step(e', Read(pid, v, at)).1 == Byte(FileByte(e'.files, area.backing.page, at))
  {
    SlotStays(Step(e, Map(pid, v, area)).0, ops, Key(pid, v));
  }

  lemma {:induction false} SlotStays(e: Eager, ops: seq<Op>, k: Key)
    requires k in e.slots && k.vpn < USER_PAGES && k.pid in e.procs
    requires forall i :: 0 <= i < |ops| ==> !Touches(ops[i], k.pid)
    ensures var e' := Run(e, ops).0; k.pid in e'.procs && k in e'.slots && e'.slots[k] == e.slots[k]
  {
    if ops != [] { SlotStays(e, ops[..|ops| - 1], k); }
  }

  /** The operation may store a byte at this offset of the file page. */
  predicate StoresAt(e: Eager, op: Op, f: nat, at: nat) {
    match op
    case FileWrite(g, off, _) => g == f && off == at
    case Write(pid, v, off, _) =>
      off == at && Key(pid, v) in e.slots && e.slots[Key(pid, v)].area.backing == SharedFile(f)
    case _ => false
  }

  /** Every page belongs to a live process, and shared file pages are no one's own. */
  ghost predicate Sound(e: Eager) {
    forall k :: k in e.slots ==> k.pid in e.procs && (e.slots[k].area.backing.SharedFile? ==> e.slots[k].own == None)
  }

  /** So it is in every run from a machine with nothing mapped. */
  lemma {:induction false} RunsSound(e: Eager, ops: seq<Op>)
    requires Sound(e)
    ensures Sound(Run(e, ops).0)
  {
    if ops != [] { RunsSound(e, ops[..|ops| - 1]); }
  }

  /** A file changes where it is written, or where a shared mapping of it is, and nowhere else. */
  lemma FilesChange(e: Eager, op: Op, f: nat, at: nat)
    requires Sound(e)
    ensures op.FileWrite? && op.page == f ==>
      FileByte(Step(e, op).0.files, f, at) == if op.off == at then op.byte else FileByte(e.files, f, at)
    ensures op.Write? && Step(e, op).1 == Done && e.slots[Key(op.pid, op.vpn)].area.backing == SharedFile(f) ==>
      FileByte(Step(e, op).0.files, f, at) == if op.off == at then op.byte else FileByte(e.files, f, at)
    ensures !StoresAt(e, op, f, at) ==> FileByte(Step(e, op).0.files, f, at) == FileByte(e.files, f, at)
  {
  }

  /** After a fork the child reads what the parent read, whatever parent and others then do to their own memory. */
  lemma ChildReads(e: Eager, parent: nat, child: nat, v: nat, ops: seq<Op>, at: nat)
    requires Step(e, Fork(parent, child)).1 == Done && v < USER_PAGES && Key(parent, v) in e.slots
    requires e.slots[Key(parent, v)].own.Some?
    requires forall i :: 0 <= i < |ops| ==> !Touches(ops[i], child)
    ensures Step(Run(Step(e, Fork(parent, child)).0, ops).0, Read(child, v, at)).1 == Step(e, Read(parent, v, at)).1
  {
    OwnPagesUndisturbed(Step(e, Fork(parent, child)).0, ops, Key(child, v));
  }

  /** And the parent keeps reading what it read before, whatever the child does. */
  lemma ParentReads(e: Eager, parent: nat, child: nat, v: nat, ops: seq<Op>, at: nat)
    requires Step(e, Fork(parent, child)).1 == Done && v < USER_PAGES && Key(parent, v) in e.slots
    requires e.slots[Key(parent, v)].own.Some? && Sound(e)
    requires forall i :: 0 <= i < |ops| ==> !Touches(ops[i], parent)
    ensures Step(Run(Step(e, Fork(parent, child)).0, ops).0, Read(parent, v, at)).1 == Step(e, Read(parent, v, at)).1
  {
    OwnPagesUndisturbed(Step(e, Fork(parent, child)).0, ops, Key(parent, v));
  }

  /** The byte the parent wrote is the byte its child reads, also after the parent has written another one. */
  lemma ChildReadsWritten(e: Eager, parent: nat, child: nat, v: nat, off: nat, byte: nat, ops: seq<Op>)
    requires Step(e, Write(parent, v, off, byte)).1 == Done && parent in e.procs && child !in e.procs && v < USER_PAGES
    requires Private(e.slots[Key(parent, v)].area.backing)
    requires forall i :: 0 <= i < |ops| ==> !Touches(ops[i], child)
    ensures var e1 := Step(Step(e, Write(parent, v, off, byte)).0, Fork(parent, child)).0;
      Step(Run(e1, ops).0, Read(child, v, off)).1 == Byte(byte)
  {
    ReadsBack(e, parent, v, off, byte, [], off);
    ChildReads(Step(e, Write(parent, v, off, byte)).0, parent, child, v, ops, off);
  }

  /** Whether an access faults is decided by the mapping alone; what is unmapped, or belonged to a process that is gone,
      faults. */
  lemma FaultsExactly(e: Eager, pid: nat, v: nat, area: Area, ops: seq<Op>, at: nat, byte: nat)
    requires forall i :: 0 <= i < |ops| ==> !Touches(ops[i], pid)
    ensures Step(e, Map(pid, v, area)).1 == Done ==>
      var e' := Run(Step(e, Map(pid, v, area)).0, ops).0;
      && (Step(e', Read(pid, v, at)).1 == Fault <==> area.perm == NoAccess)
      && (Step(e', Write(pid, v, at, byte)).1 == Fault <==> area.perm != ReadWrite)
    ensures var e' := Run(Step(e, Unmap(pid, v)).0, ops).0;
      Step(e', Read(pid, v, at)).1 == Fault == Step(e', Write(pid, v, at, byte)).1
    ensures var e' := Run(Step(e, Exit(pid)).0, ops).0;
      Step(e', Read(pid, v, at)).1 == Fault == Step(e', Write(pid, v, at, byte)).1
  {
    if Step(e, Map(pid, v, area)).1 == Done { SlotStays(Step(e, Map(pid, v, area)).0, ops, Key(pid, v)); }
    StaysUnmapped(Step(e, Unmap(pid, v)).0, ops, Key(pid, v));
    StaysUnmapped(Step(e, Exit(pid)).0, ops, Key(pid, v));
  }

  /** Which forks and mappings succeed, and who is alive afterwards: a process is there from its fork to its exit. */
  lemma DoneExactly(e: Eager, p: nat, q: nat, v: nat, area: Area)
    ensures Step(e, Fork(p, q)).1 == Done <==> p in e.procs && q !in e.procs
    ensures Step(e, Fork(p, q)).1 == Done ==> Step(e, Fork(p, q)).0.procs == e.procs + {q}
    ensures Step(e, Exit(p)).0.procs == e.procs - {p}
    ensures Step(e, Map(p, v, area)).1 == Done <==> p in e.procs && v < USER_PAGES && Key(p, v) !in e.slots
    ensures Key(p, v) !in Step(e, Unmap(p, v)).0.slots
  {
  }

  lemma {:induction false} StaysUnmapped(e: Eager, ops: seq<Op>, k: Key)
    requires k !in e.slots && forall i :: 0 <= i < |ops| ==> !Touches(ops[i], k.pid)
    ensures k !in Run(e, ops).0.slots
  {
    if ops != [] { StaysUnmapped(e, ops[..|ops| - 1], k); }
  }
}

module PageFrames {
  import opened Lists
  import opened EagerMemory

  /** A present page-table entry. */
  datatype Pte = Pte(frame: nat, rw: bool, dirty: bool)

  function Mappers(ptes: map<Key, Pte>, p: nat): set<Key> { set k | k in ptes && ptes[k].frame == p }

  function CacheRefs(owner: map<nat, nat>, p: nat): nat { if p in owner then 1 else 0 }

  /** Entries and the page cache refer to frames in use. */
  ghost predicate Referring(count: map<nat, nat>, ptes: map<Key, Pte>, owner: map<nat, nat>) {
    (forall k :: k in ptes ==> ptes[k].frame in count) && (forall p :: p in owner ==> p in count)
  }

  /** A count is the number of page-table entries and cache entries that refer to the frame. */
  ghost predicate Counted(count: map<nat, nat>, ptes: map<Key, Pte>, owner: map<nat, nat>) {
    forall p :: p in count ==> 0 < count[p] == |Mappers(ptes, p)| + CacheRefs(owner, p)
  }

  /** cache maps file pages to frames and owner is its inverse. */
  ghost predicate CacheOk(cache: map<nat, nat>, owner: map<nat, nat>) {
    && (forall p :: p in owner ==> owner[p] in cache && cache[owner[p]] == p)
    && (forall f :: f in cache ==> cache[f] in owner && owner[cache[f]] == f)
  }

  /** A shared mapping of file page f was written through. */
  ghost predicate HasDirty(ptes: map<Key, Pte>, areas: map<Key, Area>, f: nat) {
    exists k :: k in ptes && k in areas && areas[k].backing == SharedFile(f) && ptes[k].dirty
  }

  predicate Clean(content: map<nat, Bytes>, cache: map<nat, nat>, disk: map<nat, Bytes>, f: nat)
    requires f in cache
  {
    FileBytes(content, cache[f]) == FileBytes(disk, f)
  }

  /** A cached page that differs from the file is mapped by a dirty entry. */
  ghost predicate DiskOk(content: map<nat, Bytes>, cache: map<nat, nat>, disk: map<nat, Bytes>,
                         ptes: map<Key, Pte>, areas: map<Key, Area>)
  {
    forall f :: f in cache ==> Clean(content, cache, disk, f) || HasDirty(ptes, areas, f)
  }

  /** The frame of an entry suits its area's backing, and private entries are writable only on frames of their own. */
  ghost predicate EntryOk(e: Pte, area: Area, count: map<nat, nat>, owner: map<nat, nat>) {
    && area.perm != NoAccess && (e.rw || e.dirty ==> area.perm == ReadWrite)
    && (match area.backing
        case Anonymous => e.frame !in owner
        case PrivateFile(f) => e.frame in owner ==> owner[e.frame] == f
        case SharedFile(f) => e.frame in owner && owner[e.frame] == f)
    && (Private(area.backing) && e.rw ==> e.frame in count && count[e.frame] == 1)
  }

  ghost predicate PtesOk(ptes: map<Key, Pte>, areas: map<Key, Area>, count: map<nat, nat>, owner: map<nat, nat>) {
    forall k :: k in ptes ==> k in areas && EntryOk(ptes[k], areas[k], count, owner)
  }

  /** What file page f holds: the cached frame when there is one. */
  function View(content: map<nat, Bytes>, cache: map<nat, nat>, disk: map<nat, Bytes>, f: nat): Bytes
  {
    if f in cache then FileBytes(content, cache[f]) else FileBytes(disk, f)
  }

  function EntryAt(ptes: map<Key, Pte>, k: Key): Option<Pte> { if k in ptes then Some(ptes[k]) else None }

  /** The page seen through an entry as the process's own, or None while it shows the file. */
  function Own(content: map<nat, Bytes>, owner: map<nat, nat>, e: Option<Pte>, area: Area): Option<Bytes>
  {
    match area.backing
    case Anonymous => Some(if e.Some? then FileBytes(content, e.value.frame) else map[])
    case PrivateFile(f) =>
      if e.Some? && e.value.frame !in owner then Some(FileBytes(content, e.value.frame)) else None
    case SharedFile(f) => None
  }

  /** The eager machine's slots that the page tables stand for. */
  function Slots(content: map<nat, Bytes>, owner: map<nat, nat>, ptes: map<Key, Pte>,
                 areas: map<Key, Area>): map<Key, Slot>
  {
    map k | k in areas :: Slot(areas[k], Own(content, owner, EntryAt(ptes, k), areas[k]))
  }

  // Reference counts under the primitive changes of entries and cache.

  lemma MappersSet(ptes: map<Key, Pte>, k: Key, e: Pte, p: nat)
    ensures var was := Mappers(ptes, p) - {k};
      Mappers(ptes[k := e], p) == (if e.frame == p then was + {k} else was)
      && Mappers(ptes - {k}, p) == was
      && |Mappers(ptes[k := e], p)| == |was| + (if e.frame == p then 1 else 0)
      && |was| == |Mappers(ptes, p)| - (if k in ptes && ptes[k].frame == p then 1 else 0)
  {
    var was := Mappers(ptes, p) - {k};
    assert Mappers(ptes[k := e], p) == if e.frame == p then was + {k} else was;
    assert Mappers(ptes - {k}, p) == was;
    if k in ptes && ptes[k].frame == p {
      assert Mappers(ptes, p) == was + {k};
    } else {
      assert Mappers(ptes, p) == was;
    }
  }

  /** A count of one leaves room for one reference. */
  lemma SoleReference(count: map<nat, nat>, ptes: map<Key, Pte>, owner: map<nat, nat>, k: Key)
    requires Counted(count, ptes, owner) && k in ptes && ptes[k].frame in count && count[ptes[k].frame] == 1
    ensures ptes[k].frame !in owner && forall j :: j in ptes && ptes[j].frame == ptes[k].frame ==> j == k
  {
    var all := Mappers(ptes, ptes[k].frame);
    assert k in all;
    assert |all - {k}| == |all| - 1;
    assert all == (all - {k}) + {k};
    assert forall j :: j in ptes && ptes[j].frame == ptes[k].frame ==> j in all;
  }

  lemma SoleCache(count: map<nat, nat>, ptes: map<Key, Pte>, owner: map<nat, nat>, p: nat)
    requires Counted(count, ptes, owner) && p in owner && p in count && count[p] == 1
    ensures forall k :: k in ptes ==> ptes[k].frame != p
  {
    assert Mappers(ptes, p) == {};
    assert forall k :: k in ptes && ptes[k].frame == p ==> k in Mappers(ptes, p);
  }

  /** Some frame is not in use. */
  lemma FreeFrameExists(used: set<nat>)
    ensures exists p: nat :: p !in used
  {
    var p := Above(used);
    assert p !in used;
  }

  lemma {:induction false} Above(used: set<nat>) returns (top: nat)
    ensures forall x :: x in used ==> x < top
  {
    if used == {} { return 0; }
    var y :| y in used;
    var rest := Above(used - {y});
    top := if y < rest then rest else y + 1;
    assert forall x :: x in used ==> x == y || x in used - {y};
  }

  lemma CountedEnter(count: map<nat, nat>, ptes: map<Key, Pte>, owner: map<nat, nat>, k: Key, e: Pte)
    requires Counted(count, ptes, owner) && k !in ptes && e.frame in count
    ensures Counted(count[e.frame := count[e.frame] + 1], ptes[k := e], owner)
  {
    hide Mappers;
    forall p ensures |Mappers(ptes[k := e], p)| == |Mappers(ptes, p)| + (if e.frame == p then 1 else 0) {
      MappersSet(ptes, k, e, p);
    }
  }

  lemma CountedFresh(count: map<nat, nat>, ptes: map<Key, Pte>, owner: map<nat, nat>, k: Key, e: Pte)
    requires Referring(count, ptes, owner) && Counted(count, ptes, owner) && k !in ptes && e.frame !in count
    ensures Counted(count[e.frame := 1], ptes[k := e], owner)
  {
    assert Mappers(ptes, e.frame) == {} && e.frame !in owner;
    hide Mappers;
    forall p ensures |Mappers(ptes[k := e], p)| == |Mappers(ptes, p)| + (if e.frame == p then 1 else 0) {
      MappersSet(ptes, k, e, p);
    }
  }

  lemma CountedSame(count: map<nat, nat>, ptes: map<Key, Pte>, owner: map<nat, nat>, k: Key, e: Pte)
    requires Counted(count, ptes, owner) && k in ptes && e.frame == ptes[k].frame
    ensures Counted(count, ptes[k := e], owner)
  {
    hide Mappers;
    forall p ensures |Mappers(ptes[k := e], p)| == |Mappers(ptes, p)| {
      MappersSet(ptes, k, e, p);
    }
  }

  function PutPage(count: map<nat, nat>, p: nat): map<nat, nat>
  {
    if p in count && count[p] > 1 then count[p := count[p] - 1] else count - {p}
  }

  lemma CountedLeave(count: map<nat, nat>, ptes: map<Key, Pte>, owner: map<nat, nat>, k: Key)
    requires Referring(count, ptes, owner) && Counted(count, ptes, owner) && k in ptes
    ensures var count' := PutPage(count, ptes[k].frame);
      Referring(count', ptes - {k}, owner) && Counted(count', ptes - {k}, owner)
  {
    var q := ptes[k].frame;
    var count' := PutPage(count, q);
    if count[q] == 1 { SoleReference(count, ptes, owner, k); }
    assert Referring(count', ptes - {k}, owner) by { hide Counted, Mappers; }
    hide Mappers, Referring;
    forall p | p in count' ensures 0 < count'[p] == |Mappers(ptes - {k}, p)| + CacheRefs(owner, p) {
      LeaveOne(ptes, k, p);
      assert count[p] == |Mappers(ptes, p)| + CacheRefs(owner, p);
    }
  }

  lemma LeaveOne(ptes: map<Key, Pte>, k: Key, p: nat)
    requires k in ptes
    ensures |Mappers(ptes - {k}, p)| == |Mappers(ptes, p)| - (if ptes[k].frame == p then 1 else 0)
  {
    hide Mappers;
    MappersSet(ptes, k, ptes[k], p);
  }

  lemma CountedCached(count: map<nat, nat>, ptes: map<Key, Pte>, owner: map<nat, nat>, f: nat, p: nat)
    requires Referring(count, ptes, owner) && Counted(count, ptes, owner) && p !in count
    ensures Counted(count[p := 1], ptes, owner[p := f])
  {
    assert Mappers(ptes, p) == {};
  }

  // What entries may rely on, and what processes see, under those changes.

  /** Count and owner of the frame of e are unchanged where e relies on them. */
  predicate ReliesKept(e: Pte, area: Area, count: map<nat, nat>, owner: map<nat, nat>, count': map<nat, nat>,
                       owner': map<nat, nat>)
  {
    && (e.frame in owner' <==> e.frame in owner)
    && (e.frame in owner && e.frame in owner' ==> owner'[e.frame] == owner[e.frame])
    && (e.rw && Private(area.backing) && e.frame in count ==> e.frame in count' && count'[e.frame] == count[e.frame])
  }

  lemma EntryKept(e: Pte, area: Area, count: map<nat, nat>, owner: map<nat, nat>, count': map<nat, nat>,
                  owner': map<nat, nat>)
    requires EntryOk(e, area, count, owner) && ReliesKept(e, area, count, owner, count', owner')
    ensures EntryOk(e, area, count', owner')
  {
  }

  lemma PtesKept(ptes: map<Key, Pte>, areas: map<Key, Area>, count: map<nat, nat>, owner: map<nat, nat>,
                 count': map<nat, nat>, owner': map<nat, nat>)
    requires PtesOk(ptes, areas, count, owner)
    requires forall k :: k in ptes && k in areas ==> ReliesKept(ptes[k], areas[k], count, owner, count', owner')
    ensures PtesOk(ptes, areas, count', owner')
  {
    hide EntryOk, ReliesKept;
    forall k | k in ptes ensures k in areas && EntryOk(ptes[k], areas[k], count', owner') {
      EntryKept(ptes[k], areas[k], count, owner, count', owner');
    }
  }

  lemma PtesSet(ptes: map<Key, Pte>, areas: map<Key, Area>, count: map<nat, nat>, owner: map<nat, nat>, k: Key, e: Pte)
    requires PtesOk(ptes, areas, count, owner) && k in areas && EntryOk(e, areas[k], count, owner)
    ensures PtesOk(ptes[k := e], areas, count, owner)
  {
    hide EntryOk;
  }

  /** Dirty mappings other than k's stay, and k's when it is one. */
  lemma DirtyKept(ptes: map<Key, Pte>, ptes': map<Key, Pte>, areas: map<Key, Area>, k: Key, f: nat)
    requires forall j :: j in ptes && j != k ==> j in ptes' && ptes'[j] == ptes[j]
    requires k in ptes && k in areas && areas[k].backing.SharedFile? && ptes[k].dirty ==> k in ptes' && ptes'[k].dirty
    requires HasDirty(ptes, areas, f)
    ensures HasDirty(ptes', areas, f)
  {
  }

  /** The frame of entry j has not changed for what j shows. */
  ghost predicate FrameKept(content: map<nat, Bytes>, owner: map<nat, nat>, content': map<nat, Bytes>,
                            owner': map<nat, nat>, p: nat)
  {
    (p in owner' <==> p in owner) && (p !in owner ==> FileBytes(content', p) == FileBytes(content, p))
  }

  lemma OwnKept(content: map<nat, Bytes>, owner: map<nat, nat>, content': map<nat, Bytes>, owner': map<nat, nat>,
                e: Pte, e': Pte, area: Area, count: map<nat, nat>)
    requires EntryOk(e, area, count, owner) && e'.frame == e.frame
      && FrameKept(content, owner, content', owner', e.frame)
    ensures Own(content', owner', Some(e'), area) == Own(content, owner, Some(e), area)
  {
    hide FileBytes;
  }

  /** Entry j shows what it did. */
  ghost predicate EntryShows(content: map<nat, Bytes>, owner: map<nat, nat>, ptes: map<Key, Pte>,
                             content': map<nat, Bytes>, owner': map<nat, nat>, ptes': map<Key, Pte>, j: Key)
  {
    && (j in ptes' <==> j in ptes)
    && (j in ptes && j in ptes' ==>
      ptes'[j].frame == ptes[j].frame && FrameKept(content, owner, content', owner', ptes[j].frame))
  }

  lemma ShowsOwn(content: map<nat, Bytes>, owner: map<nat, nat>, ptes: map<Key, Pte>, areas: map<Key, Area>,
                 content': map<nat, Bytes>, owner': map<nat, nat>, ptes': map<Key, Pte>, count: map<nat, nat>, j: Key)
    requires j in areas && PtesOk(ptes, areas, count, owner)
      && EntryShows(content, owner, ptes, content', owner', ptes', j)
    ensures Own(content', owner', EntryAt(ptes', j), areas[j]) == Own(content, owner, EntryAt(ptes, j), areas[j])
  {
    hide FileBytes, FrameKept, EntryOk;
    if j in ptes {
      hide Own;
      assert EntryOk(ptes[j], areas[j], count, owner);
      OwnKept(content, owner, content', owner', ptes[j], ptes'[j], areas[j], count);
    }
  }

  /** What is seen changes at k only, when no other entry shows a frame that changed. */
  lemma SlotsExcept(content: map<nat, Bytes>, owner: map<nat, nat>, ptes: map<Key, Pte>, areas: map<Key, Area>,
                    content': map<nat, Bytes>, owner': map<nat, nat>, ptes': map<Key, Pte>, count: map<nat, nat>,
                    k: Key)
    requires k in areas && PtesOk(ptes, areas, count, owner)
    requires forall j :: j != k ==> EntryShows(content, owner, ptes, content', owner', ptes', j)
    ensures Slots(content', owner', ptes', areas) ==
      Slots(content, owner, ptes, areas)[k := Slot(areas[k], Own(content', owner', EntryAt(ptes', k), areas[k]))]
  {
    hide Own, PtesOk, EntryShows, EntryAt;
    forall j | j in areas && j != k
      ensures Own(content', owner', EntryAt(ptes', j), areas[j]) == Own(content, owner, EntryAt(ptes, j), areas[j])
    {
      ShowsOwn(content, owner, ptes, areas, content', owner', ptes', count, j);
    }
  }

  lemma SlotsSame(content: map<nat, Bytes>, owner: map<nat, nat>, ptes: map<Key, Pte>, areas: map<Key, Area>,
                  content': map<nat, Bytes>, owner': map<nat, nat>, ptes': map<Key, Pte>, count: map<nat, nat>)
    requires PtesOk(ptes, areas, count, owner)
    requires forall j :: EntryShows(content, owner, ptes, content', owner', ptes', j)
    ensures Slots(content', owner', ptes', areas) == Slots(content, owner, ptes, areas)
  {
    hide Own, PtesOk, EntryShows, EntryAt;
    forall j | j in areas
      ensures Own(content', owner', EntryAt(ptes', j), areas[j]) == Own(content, owner, EntryAt(ptes, j), areas[j])
    {
      ShowsOwn(content, owner, ptes, areas, content', owner', ptes', count, j);
    }
  }

  /** Every area belongs to a live process's user space. */
  ghost predicate AreasOk(areas: map<Key, Area>, procs: set<nat>) {
    forall k :: k in areas ==> k.pid in procs && k.vpn < USER_PAGES
  }

  // What copy_one_pte keeps: the entry of one process appears in another, both without write access.

  function RefPage(count: map<nat, nat>, p: nat): map<nat, nat>
  {
    if p in count then count[p := count[p] + 1] else count
  }

  function Shared(ptes: map<Key, Pte>, from: Key, to: Key): map<Key, Pte>
  {
    if from in ptes then ptes[from := ptes[from].(rw := false)][to := ptes[from].(rw := false)] else ptes
  }

  function SharedCount(count: map<nat, nat>, ptes: map<Key, Pte>, from: Key): map<nat, nat>
  {
    if from in ptes then RefPage(count, ptes[from].frame) else count
  }

  /** The slot of `from` copied to `to`. */
  function CopySlot(slots: map<Key, Slot>, from: Key, to: Key): map<Key, Slot>
  {
    if from in slots then slots[to := slots[from]] else slots
  }

  lemma ShareCounted(count: map<nat, nat>, ptes: map<Key, Pte>, owner: map<nat, nat>, from: Key, to: Key)
    requires Referring(count, ptes, owner) && Counted(count, ptes, owner) && to !in ptes
    ensures var count', ptes' := SharedCount(count, ptes, from), Shared(ptes, from, to);
      Referring(count', ptes', owner) && Counted(count', ptes', owner)
  {
    if from in ptes {
      var e := ptes[from].(rw := false);
      CountedSame(count, ptes, owner, from, e);
      CountedEnter(count, ptes[from := e], owner, to, e);
      hide Counted;
    }
  }

  lemma SharePtes(count: map<nat, nat>, ptes: map<Key, Pte>, areas: map<Key, Area>, owner: map<nat, nat>, from: Key,
                  to: Key)
    requires Referring(count, ptes, owner) && Counted(count, ptes, owner) && PtesOk(ptes, areas, count, owner)
    requires to !in ptes && (from in areas ==> to in areas && areas[to] == areas[from])
    ensures PtesOk(Shared(ptes, from, to), areas, SharedCount(count, ptes, from), owner)
  {
    if from in ptes {
      var e := ptes[from].(rw := false);
      if count[e.frame] == 1 { SoleReference(count, ptes, owner, from); }
      hide Counted, Referring;
      var count' := RefPage(count, e.frame);
      assert EntryOk(e, areas[from], count', owner);
      hide EntryOk;
      PtesSet(ptes, areas, count, owner, from, e);
      PtesKept(ptes[from := e], areas, count, owner, count', owner);
      PtesSet(ptes[from := e], areas, count', owner, to, e);
    }
  }

  lemma ShareSlots(content: map<nat, Bytes>, count: map<nat, nat>, ptes: map<Key, Pte>, areas: map<Key, Area>,
                   owner: map<nat, nat>, from: Key, to: Key)
    requires PtesOk(ptes, areas, count, owner)
    requires to !in ptes && (from in areas ==> to in areas && areas[to] == areas[from])
    ensures Slots(content, owner, Shared(ptes, from, to), areas) ==
      CopySlot(Slots(content, owner, ptes, areas), from, to)
  {
    if from in areas { SlotsExcept(content, owner, ptes, areas, content, owner, Shared(ptes, from, to), count, to); }
  }

  lemma ShareDisk(content: map<nat, Bytes>, cache: map<nat, nat>, disk: map<nat, Bytes>, ptes: map<Key, Pte>,
                  areas: map<Key, Area>, from: Key, to: Key)
    requires DiskOk(content, cache, disk, ptes, areas) && to !in ptes
    ensures DiskOk(content, cache, disk, Shared(ptes, from, to), areas)
  {
    forall f | HasDirty(ptes, areas, f) ensures HasDirty(Shared(ptes, from, to), areas, f) {
      DirtyKept(ptes, Shared(ptes, from, to), areas, from, f);
    }
    hide HasDirty, Clean;
  }


  // All of memory, and its primitive changes.

  /** Page frames, struct page counts, all page tables, the VMAs by page, the file page cache, the files, the
      processes. */
  datatype Mem = Mem(
    content: map<nat, Bytes>, count: map<nat, nat>, ptes: map<Key, Pte>, areas: map<Key, Area>,
    cache: map<nat, nat>, owner: map<nat, nat>, disk: map<nat, Bytes>, procs: set<nat>)

  ghost predicate Inv(m: Mem) {
    && Referring(m.count, m.ptes, m.owner) && Counted(m.count, m.ptes, m.owner) && CacheOk(m.cache, m.owner)
    && PtesOk(m.ptes, m.areas, m.count, m.owner) && DiskOk(m.content, m.cache, m.disk, m.ptes, m.areas)
    && AreasOk(m.areas, m.procs)
  }

  /** What every process sees at each of its pages. */
  function Shown(m: Mem): map<Key, Slot> { Slots(m.content, m.owner, m.ptes, m.areas) }

  function FileView(m: Mem, f: nat): Bytes { View(m.content, m.cache, m.disk, f) }

  ghost predicate SameFiles(m: Mem, m': Mem) { forall f: nat :: FileView(m', f) == FileView(m, f) }

  function ShareEntry(m: Mem, from: Key, to: Key): Mem
  {
    m.(count := SharedCount(m.count, m.ptes, from), ptes := Shared(m.ptes, from, to))
  }

  lemma ShareEntryKeeps(m: Mem, from: Key, to: Key)
    requires Inv(m) && to !in m.ptes && (from in m.areas ==> to in m.areas && m.areas[to] == m.areas[from])
    ensures Inv(ShareEntry(m, from, to)) && SameFiles(m, ShareEntry(m, from, to))
    ensures Shown(ShareEntry(m, from, to)) == CopySlot(Shown(m), from, to)
  {
    hide Referring, Counted, CacheOk, PtesOk, DiskOk, Slots;
    ShareCounted(m.count, m.ptes, m.owner, from, to);
    SharePtes(m.count, m.ptes, m.areas, m.owner, from, to);
    ShareSlots(m.content, m.count, m.ptes, m.areas, m.owner, from, to);
    ShareDisk(m.content, m.cache, m.disk, m.ptes, m.areas, from, to);
  }

  function AllowWrite(m: Mem, k: Key): Mem
  {
    if k in m.ptes then m.(ptes := m.ptes[k := m.ptes[k].(rw := true)]) else m
  }

  lemma AllowWriteKeeps(m: Mem, k: Key)
    requires Inv(m) && k in m.ptes && k in m.areas && m.areas[k].perm == ReadWrite
    requires Private(m.areas[k].backing) ==> m.ptes[k].frame in m.count && m.count[m.ptes[k].frame] == 1
    ensures Inv(AllowWrite(m, k)) && SameFiles(m, AllowWrite(m, k)) && Shown(AllowWrite(m, k)) == Shown(m)
  {
    hide Referring, Counted, CacheOk, PtesOk, DiskOk, Slots;
    var e := m.ptes[k].(rw := true);
    SameFrameCounted(m.count, m.ptes, m.owner, k, e);
    SameFramePtes(m.ptes, m.areas, m.count, m.owner, k, e);
    SameFrameSlots(m.content, m.count, m.ptes, m.areas, m.owner, k, e);
    EntryChanged(m.content, m.cache, m.disk, m.ptes, m.areas, k, e);
  }

  lemma SameFrameCounted(count: map<nat, nat>, ptes: map<Key, Pte>, owner: map<nat, nat>, k: Key, e: Pte)
    requires Referring(count, ptes, owner) && Counted(count, ptes, owner) && k in ptes && e.frame == ptes[k].frame
    ensures Referring(count, ptes[k := e], owner) && Counted(count, ptes[k := e], owner)
  {
    CountedSame(count, ptes, owner, k, e);
    hide Counted;
  }

  lemma SameFramePtes(ptes: map<Key, Pte>, areas: map<Key, Area>, count: map<nat, nat>, owner: map<nat, nat>, k: Key,
                      e: Pte)
    requires PtesOk(ptes, areas, count, owner) && k in ptes && e.frame == ptes[k].frame
    requires k in areas && (e.rw || e.dirty ==> areas[k].perm == ReadWrite)
    requires Private(areas[k].backing) && e.rw ==> e.frame in count && count[e.frame] == 1
    ensures PtesOk(ptes[k := e], areas, count, owner)
  {
    assert EntryOk(ptes[k], areas[k], count, owner) && EntryOk(e, areas[k], count, owner);
    hide EntryOk;
    PtesSet(ptes, areas, count, owner, k, e);
  }

  lemma SameFrameSlots(content: map<nat, Bytes>, count: map<nat, nat>, ptes: map<Key, Pte>, areas: map<Key, Area>,
                       owner: map<nat, nat>, k: Key, e: Pte)
    requires PtesOk(ptes, areas, count, owner) && k in ptes && e.frame == ptes[k].frame
    ensures Slots(content, owner, ptes[k := e], areas) == Slots(content, owner, ptes, areas)
  {
    hide PtesOk;
    SlotsSame(content, owner, ptes, areas, content, owner, ptes[k := e], count);
  }

  /** Files stay synced when entry k changes and stays dirty. */
  lemma EntryChanged(content: map<nat, Bytes>, cache: map<nat, nat>, disk: map<nat, Bytes>, ptes: map<Key, Pte>,
                     areas: map<Key, Area>, k: Key, e: Pte)
    requires DiskOk(content, cache, disk, ptes, areas)
    requires k in ptes ==> e.dirty || !ptes[k].dirty || (k in areas && Private(areas[k].backing))
    ensures DiskOk(content, cache, disk, ptes[k := e], areas)
  {
    forall f | HasDirty(ptes, areas, f) ensures HasDirty(ptes[k := e], areas, f) {
      DirtyKept(ptes, ptes[k := e], areas, k, f);
    }
    hide HasDirty, Clean;
  }

  /** A frame of its own for k, holding c. */
  function GiveFrame(m: Mem, k: Key, e: Pte, c: Bytes): Mem
  {
    m.(content := m.content[e.frame := c], count := m.count[e.frame := 1], ptes := m.ptes[k := e])
  }

  lemma GiveFrameKeeps(m: Mem, k: Key, e: Pte, c: Bytes)
    requires Inv(m) && k in m.areas && k !in m.ptes && e.frame !in m.count && !e.dirty
    requires Private(m.areas[k].backing) && m.areas[k].perm != NoAccess && (e.rw ==> m.areas[k].perm == ReadWrite)
    ensures Inv(GiveFrame(m, k, e, c)) && SameFiles(m, GiveFrame(m, k, e, c))
    ensures Shown(GiveFrame(m, k, e, c)) == Shown(m)[k := Slot(m.areas[k], Some(c))]
  {
    hide Referring, Counted, CacheOk, PtesOk, DiskOk, Slots, View;
    FreshCounted(m.count, m.ptes, m.owner, k, e);
    FreshPtes(m.ptes, m.areas, m.count, m.owner, k, e);
    FreshSlots(m.content, m.count, m.ptes, m.areas, m.owner, k, e, c);
    FreshDisk(m.content, m.cache, m.disk, m.ptes, m.areas, m.count, m.owner, e.frame, c);
    EntryChanged(m.content[e.frame := c], m.cache, m.disk, m.ptes, m.areas, k, e);
    forall f: nat { FreshView(m.content, m.cache, m.disk, m.count, m.ptes, m.owner, e.frame, c, f); }
  }

  lemma FreshCounted(count: map<nat, nat>, ptes: map<Key, Pte>, owner: map<nat, nat>, k: Key, e: Pte)
    requires Referring(count, ptes, owner) && Counted(count, ptes, owner) && k !in ptes && e.frame !in count
    ensures Referring(count[e.frame := 1], ptes[k := e], owner) && Counted(count[e.frame := 1], ptes[k := e], owner)
  {
    CountedFresh(count, ptes, owner, k, e);
    hide Counted;
  }

  lemma FreshPtes(ptes: map<Key, Pte>, areas: map<Key, Area>, count: map<nat, nat>, owner: map<nat, nat>, k: Key,
                  e: Pte)
    requires Referring(count, ptes, owner) && PtesOk(ptes, areas, count, owner) && k in areas && e.frame !in count
      && !e.dirty
    requires Private(areas[k].backing) && areas[k].perm != NoAccess && (e.rw ==> areas[k].perm == ReadWrite)
    ensures PtesOk(ptes[k := e], areas, count[e.frame := 1], owner)
  {
    assert EntryOk(e, areas[k], count[e.frame := 1], owner);
    hide EntryOk;
    PtesKept(ptes, areas, count, owner, count[e.frame := 1], owner);
    PtesSet(ptes, areas, count[e.frame := 1], owner, k, e);
  }

  lemma FreshSlots(content: map<nat, Bytes>, count: map<nat, nat>, ptes: map<Key, Pte>, areas: map<Key, Area>,
                   owner: map<nat, nat>, k: Key, e: Pte, c: Bytes)
    requires Referring(count, ptes, owner) && PtesOk(ptes, areas, count, owner) && k in areas && k !in ptes
      && e.frame !in count
    requires Private(areas[k].backing)
    ensures Slots(content[e.frame := c], owner, ptes[k := e], areas) ==
      Slots(content, owner, ptes, areas)[k := Slot(areas[k], Some(c))]
  {
    hide PtesOk;
    assert Own(content[e.frame := c], owner, Some(e), areas[k]) == Some(c);
    hide Own;
    SlotsExcept(content, owner, ptes, areas, content[e.frame := c], owner, ptes[k := e], count, k);
  }

  lemma FreshDisk(content: map<nat, Bytes>, cache: map<nat, nat>, disk: map<nat, Bytes>, ptes: map<Key, Pte>,
                  areas: map<Key, Area>, count: map<nat, nat>, owner: map<nat, nat>, p: nat, c: Bytes)
    requires Referring(count, ptes, owner) && CacheOk(cache, owner) && DiskOk(content, cache, disk, ptes, areas)
      && p !in count
    ensures DiskOk(content[p := c], cache, disk, ptes, areas)
  {
    assert p !in owner;
    hide CacheOk, Referring, DiskOk;
    UncachedDisk(content, cache, disk, ptes, areas, owner, p, c);
  }

  lemma UncachedDisk(content: map<nat, Bytes>, cache: map<nat, nat>, disk: map<nat, Bytes>, ptes: map<Key, Pte>,
                     areas: map<Key, Area>, owner: map<nat, nat>, p: nat, c: Bytes)
    requires CacheOk(cache, owner) && DiskOk(content, cache, disk, ptes, areas) && p !in owner
    ensures DiskOk(content[p := c], cache, disk, ptes, areas)
  {
    hide HasDirty;
    assert forall f :: f in cache ==> cache[f] in owner && cache[f] != p;
    hide CacheOk;
  }

  lemma UncachedView(content: map<nat, Bytes>, cache: map<nat, nat>, disk: map<nat, Bytes>, owner: map<nat, nat>,
                     p: nat, c: Bytes, f: nat)
    requires CacheOk(cache, owner) && p !in owner
    ensures View(content[p := c], cache, disk, f) == View(content, cache, disk, f)
  {
  }

  lemma FreshView(content: map<nat, Bytes>, cache: map<nat, nat>, disk: map<nat, Bytes>, count: map<nat, nat>,
                  ptes: map<Key, Pte>, owner: map<nat, nat>, p: nat, c: Bytes, f: nat)
    requires Referring(count, ptes, owner) && CacheOk(cache, owner) && p !in count
    ensures View(content[p := c], cache, disk, f) == View(content, cache, disk, f)
  {
  }

  /** The entry of k goes and its frame loses a reference. */
  function DropEntry(m: Mem, k: Key): Mem
  {
    if k in m.ptes then m.(ptes := m.ptes - {k}, count := PutPage(m.count, m.ptes[k].frame)) else m
  }

  lemma DropEntryKeeps(m: Mem, k: Key)
    requires Inv(m) && k in m.areas && (k in m.ptes ==> Private(m.areas[k].backing) || !m.ptes[k].dirty)
    ensures Inv(DropEntry(m, k)) && SameFiles(m, DropEntry(m, k))
    ensures Shown(DropEntry(m, k)) == Shown(m)[k := NewSlot(m.areas[k])]
  {
    if k in m.ptes {
      assert m.ptes[k].frame in m.count;
      hide Referring, Counted, CacheOk, PtesOk, DiskOk, Slots;
      CountedLeave(m.count, m.ptes, m.owner, k);
      LeavePtes(m.count, m.ptes, m.areas, m.owner, k);
      LeaveDisk(m.content, m.cache, m.disk, m.ptes, m.areas, k);
    }
    LeaveSlots(m.content, m.count, m.ptes, m.areas, m.owner, k);
  }

  lemma LeavePtes(count: map<nat, nat>, ptes: map<Key, Pte>, areas: map<Key, Area>, owner: map<nat, nat>, k: Key)
    requires Counted(count, ptes, owner) && PtesOk(ptes, areas, count, owner) && k in ptes && ptes[k].frame in count
    ensures PtesOk(ptes - {k}, areas, PutPage(count, ptes[k].frame), owner)
  {
    var p := ptes[k].frame;
    assert PtesOk(ptes - {k}, areas, count, owner) by { hide Counted, EntryOk; }
    hide Counted;
    forall j | j in ptes - {k} && j in areas
      ensures ReliesKept(ptes[j], areas[j], count, owner, PutPage(count, p), owner)
    {
      if ptes[j].frame == p { NotSole(count, ptes, owner, j, k); }
      assert EntryOk(ptes[j], areas[j], count, owner);
    }
    hide EntryOk, ReliesKept;
    PtesKept(ptes - {k}, areas, count, owner, PutPage(count, p), owner);
  }

  lemma NotSole(count: map<nat, nat>, ptes: map<Key, Pte>, owner: map<nat, nat>, j: Key, k: Key)
    requires Counted(count, ptes, owner) && j in ptes && k in ptes && j != k && ptes[j].frame == ptes[k].frame
      && ptes[k].frame in count
    ensures count[ptes[k].frame] > 1
  {
    if count[ptes[k].frame] == 1 { SoleReference(count, ptes, owner, k); }
  }

  lemma LeaveDisk(content: map<nat, Bytes>, cache: map<nat, nat>, disk: map<nat, Bytes>, ptes: map<Key, Pte>,
                  areas: map<Key, Area>, k: Key)
    requires DiskOk(content, cache, disk, ptes, areas) && k in ptes && k in areas
      && (Private(areas[k].backing) || !ptes[k].dirty)
    ensures DiskOk(content, cache, disk, ptes - {k}, areas)
  {
    forall f | HasDirty(ptes, areas, f) ensures HasDirty(ptes - {k}, areas, f) {
      DirtyKept(ptes, ptes - {k}, areas, k, f);
    }
    hide HasDirty, Clean;
  }

  lemma LeaveSlots(content: map<nat, Bytes>, count: map<nat, nat>, ptes: map<Key, Pte>, areas: map<Key, Area>,
                   owner: map<nat, nat>, k: Key)
    requires PtesOk(ptes, areas, count, owner) && k in areas
    ensures Slots(content, owner, ptes - {k}, areas) == Slots(content, owner, ptes, areas)[k := NewSlot(areas[k])]
  {
    assert Own(content, owner, None, areas[k]) == NewSlot(areas[k]).own;
    hide PtesOk, Own;
    SlotsExcept(content, owner, ptes, areas, content, owner, ptes - {k}, count, k);
  }

  /** The page cache gains frame p with the bytes of file page f. */
  function LoadPage(m: Mem, f: nat, p: nat): Mem
  {
    m.(content := m.content[p := FileBytes(m.disk, f)], count := m.count[p := 1], cache := m.cache[f := p],
      owner := m.owner[p := f])
  }

  lemma LoadPageKeeps(m: Mem, f: nat, p: nat)
    requires Inv(m) && f !in m.cache && p !in m.count
    ensures Inv(LoadPage(m, f, p)) && SameFiles(m, LoadPage(m, f, p)) && Shown(LoadPage(m, f, p)) == Shown(m)
  {
    hide Referring, Counted, CacheOk, PtesOk, DiskOk, Slots, View;
    var c, cache', owner' := FileBytes(m.disk, f), m.cache[f := p], m.owner[p := f];
    LoadCounted(m.count, m.ptes, m.cache, m.owner, f, p);
    LoadPtes(m.ptes, m.areas, m.count, m.owner, f, p);
    LoadSlots(m.content, m.count, m.ptes, m.areas, m.owner, f, p, c);
    LoadDisk(m.content, m.cache, m.disk, m.ptes, m.areas, m.count, m.owner, f, p);
    forall g: nat { LoadView(m.content, m.cache, m.disk, m.count, m.ptes, m.owner, f, p, g); }
  }

  lemma LoadCounted(count: map<nat, nat>, ptes: map<Key, Pte>, cache: map<nat, nat>, owner: map<nat, nat>, f: nat,
                    p: nat)
    requires Referring(count, ptes, owner) && Counted(count, ptes, owner) && CacheOk(cache, owner) && p !in count
      && f !in cache
    ensures Referring(count[p := 1], ptes, owner[p := f]) && Counted(count[p := 1], ptes, owner[p := f])
    ensures CacheOk(cache[f := p], owner[p := f])
  {
    CountedCached(count, ptes, owner, f, p);
    assert p !in owner;
    hide Counted;
  }

  lemma LoadPtes(ptes: map<Key, Pte>, areas: map<Key, Area>, count: map<nat, nat>, owner: map<nat, nat>, f: nat, p: nat)
    requires Referring(count, ptes, owner) && PtesOk(ptes, areas, count, owner) && p !in count
    ensures PtesOk(ptes, areas, count[p := 1], owner[p := f])
  {
    assert forall k :: k in ptes ==> ptes[k].frame != p;
    hide Referring, PtesOk, EntryOk;
    PtesKept(ptes, areas, count, owner, count[p := 1], owner[p := f]);
  }

  lemma LoadSlots(content: map<nat, Bytes>, count: map<nat, nat>, ptes: map<Key, Pte>, areas: map<Key, Area>,
                  owner: map<nat, nat>, f: nat, p: nat, c: Bytes)
    requires Referring(count, ptes, owner) && PtesOk(ptes, areas, count, owner) && p !in count
    ensures Slots(content[p := c], owner[p := f], ptes, areas) == Slots(content, owner, ptes, areas)
  {
    assert forall k :: k in ptes ==> ptes[k].frame != p;
    hide Referring, PtesOk, Own;
    SlotsSame(content, owner, ptes, areas, content[p := c], owner[p := f], ptes, count);
  }

  lemma LoadDisk(content: map<nat, Bytes>, cache: map<nat, nat>, disk: map<nat, Bytes>, ptes: map<Key, Pte>,
                 areas: map<Key, Area>, count: map<nat, nat>, owner: map<nat, nat>, f: nat, p: nat)
    requires Referring(count, ptes, owner) && CacheOk(cache, owner) && DiskOk(content, cache, disk, ptes, areas)
    requires p !in count && f !in cache
    ensures DiskOk(content[p := FileBytes(disk, f)], cache[f := p], disk, ptes, areas)
  {
    FreshDisk(content, cache, disk, ptes, areas, count, owner, p, FileBytes(disk, f));
    hide HasDirty, CacheOk, Referring;
  }

  lemma LoadView(content: map<nat, Bytes>, cache: map<nat, nat>, disk: map<nat, Bytes>, count: map<nat, nat>,
                 ptes: map<Key, Pte>, owner: map<nat, nat>, f: nat, p: nat, g: nat)
    requires Referring(count, ptes, owner) && CacheOk(cache, owner) && p !in count && f !in cache
    ensures View(content[p := FileBytes(disk, f)], cache[f := p], disk, g) == View(content, cache, disk, g)
  {
    assert g in cache ==> cache[g] in owner && cache[g] != p;
    hide CacheOk, Referring;
  }

  /** An entry of k on a frame in use, which gains a reference. */
  function EnterFrame(m: Mem, k: Key, e: Pte): Mem
  {
    m.(count := RefPage(m.count, e.frame), ptes := m.ptes[k := e])
  }

  lemma EnterFrameKeeps(m: Mem, k: Key, e: Pte, f: nat)
    requires Inv(m) && k in m.areas && k !in m.ptes && f in m.cache && e.frame == m.cache[f] && !e.dirty
    requires m.areas[k].perm != NoAccess && (e.rw ==> m.areas[k].perm == ReadWrite)
    requires m.areas[k].backing == SharedFile(f) || (m.areas[k].backing == PrivateFile(f) && !e.rw)
    ensures Inv(EnterFrame(m, k, e)) && SameFiles(m, EnterFrame(m, k, e)) && Shown(EnterFrame(m, k, e)) == Shown(m)
  {
    assert e.frame in m.owner && m.owner[e.frame] == f && e.frame in m.count;
    hide Referring, Counted, CacheOk, PtesOk, DiskOk, Slots, View;
    EnterCounted(m.count, m.ptes, m.owner, k, e);
    EnterPtes(m.ptes, m.areas, m.count, m.owner, k, e);
    EnterSlots(m.content, m.count, m.ptes, m.areas, m.owner, k, e);
    EntryChanged(m.content, m.cache, m.disk, m.ptes, m.areas, k, e);
  }

  lemma EnterCounted(count: map<nat, nat>, ptes: map<Key, Pte>, owner: map<nat, nat>, k: Key, e: Pte)
    requires Referring(count, ptes, owner) && Counted(count, ptes, owner) && k !in ptes && e.frame in count
    ensures Referring(RefPage(count, e.frame), ptes[k := e], owner)
      && Counted(RefPage(count, e.frame), ptes[k := e], owner)
  {
    CountedEnter(count, ptes, owner, k, e);
    hide Counted;
  }

  lemma EnterPtes(ptes: map<Key, Pte>, areas: map<Key, Area>, count: map<nat, nat>, owner: map<nat, nat>, k: Key,
                  e: Pte)
    requires Referring(count, ptes, owner) && Counted(count, ptes, owner) && PtesOk(ptes, areas, count, owner)
    requires k in areas && e.frame in owner && EntryOk(e, areas[k], count, owner)
      && (Private(areas[k].backing) ==> !e.rw)
    ensures PtesOk(ptes[k := e], areas, RefPage(count, e.frame), owner)
  {
    var p, count' := e.frame, RefPage(count, e.frame);
    forall j | j in ptes && j in areas ensures ReliesKept(ptes[j], areas[j], count, owner, count', owner) {
      assert EntryOk(ptes[j], areas[j], count, owner);
      if ptes[j].frame == p && count[p] == 1 { SoleReference(count, ptes, owner, j); }
    }
    assert EntryOk(e, areas[k], count', owner);
    hide Referring, Counted, EntryOk, ReliesKept;
    PtesKept(ptes, areas, count, owner, count', owner);
    PtesSet(ptes, areas, count', owner, k, e);
  }

  lemma EnterSlots(content: map<nat, Bytes>, count: map<nat, nat>, ptes: map<Key, Pte>, areas: map<Key, Area>,
                   owner: map<nat, nat>, k: Key, e: Pte)
    requires PtesOk(ptes, areas, count, owner) && k in areas && k !in ptes && e.frame in owner
      && !areas[k].backing.Anonymous?
    ensures Slots(content, owner, ptes[k := e], areas) == Slots(content, owner, ptes, areas)
  {
    assert Own(content, owner, Some(e), areas[k]) == None == Own(content, owner, None, areas[k]);
    hide PtesOk, Own;
    SlotsExcept(content, owner, ptes, areas, content, owner, ptes[k := e], count, k);
  }

  /** The page cache gives up a page that only it refers to. */
  function EvictPage(m: Mem, f: nat): Mem
  {
    if f in m.cache then
      m.(cache := m.cache - {f}, owner := m.owner - {m.cache[f]}, count := m.count - {m.cache[f]})
    else m
  }

  lemma EvictPageKeeps(m: Mem, f: nat)
    requires Inv(m) && f in m.cache && m.cache[f] in m.count && m.count[m.cache[f]] == 1
    ensures Inv(EvictPage(m, f)) && SameFiles(m, EvictPage(m, f)) && Shown(EvictPage(m, f)) == Shown(m)
  {
    var p := m.cache[f];
    assert p in m.owner && m.owner[p] == f;
    hide Referring, Counted, CacheOk, PtesOk, DiskOk, Slots, View;
    SoleCache(m.count, m.ptes, m.owner, p);
    EvictCounted(m.count, m.ptes, m.cache, m.owner, f);
    EvictPtes(m.ptes, m.areas, m.count, m.owner, p);
    EvictSlots(m.content, m.count, m.ptes, m.areas, m.owner, p);
    EvictDisk(m.content, m.cache, m.disk, m.ptes, m.areas, m.count, m.owner, f);
  }

  lemma EvictCounted(count: map<nat, nat>, ptes: map<Key, Pte>, cache: map<nat, nat>, owner: map<nat, nat>, f: nat)
    requires Referring(count, ptes, owner) && Counted(count, ptes, owner) && CacheOk(cache, owner)
    requires f in cache && forall k :: k in ptes ==> ptes[k].frame != cache[f]
    ensures Referring(count - {cache[f]}, ptes, owner - {cache[f]})
      && Counted(count - {cache[f]}, ptes, owner - {cache[f]})
    ensures CacheOk(cache - {f}, owner - {cache[f]})
  {
    hide Mappers;
  }

  lemma EvictPtes(ptes: map<Key, Pte>, areas: map<Key, Area>, count: map<nat, nat>, owner: map<nat, nat>, p: nat)
    requires PtesOk(ptes, areas, count, owner) && forall k :: k in ptes ==> ptes[k].frame != p
    ensures PtesOk(ptes, areas, count - {p}, owner - {p})
  {
    hide PtesOk, EntryOk;
    PtesKept(ptes, areas, count, owner, count - {p}, owner - {p});
  }

  lemma EvictSlots(content: map<nat, Bytes>, count: map<nat, nat>, ptes: map<Key, Pte>, areas: map<Key, Area>,
                   owner: map<nat, nat>, p: nat)
    requires PtesOk(ptes, areas, count, owner) && forall k :: k in ptes ==> ptes[k].frame != p
    ensures Slots(content, owner - {p}, ptes, areas) == Slots(content, owner, ptes, areas)
  {
    hide PtesOk, Own;
    SlotsSame(content, owner, ptes, areas, content, owner - {p}, ptes, count);
  }

  /** A cached page no entry maps is clean, so the file already holds it. */
  lemma EvictDisk(content: map<nat, Bytes>, cache: map<nat, nat>, disk: map<nat, Bytes>, ptes: map<Key, Pte>,
                  areas: map<Key, Area>, count: map<nat, nat>, owner: map<nat, nat>, f: nat)
    requires CacheOk(cache, owner) && DiskOk(content, cache, disk, ptes, areas) && PtesOk(ptes, areas, count, owner)
    requires f in cache && forall k :: k in ptes ==> ptes[k].frame != cache[f]
    ensures DiskOk(content, cache - {f}, disk, ptes, areas)
    ensures forall g: nat :: View(content, cache - {f}, disk, g) == View(content, cache, disk, g)
  {
    NotDirty(ptes, areas, count, owner, cache, f);
    hide HasDirty, PtesOk, CacheOk, FileBytes;
  }

  lemma NotDirty(ptes: map<Key, Pte>, areas: map<Key, Area>, count: map<nat, nat>, owner: map<nat, nat>,
                 cache: map<nat, nat>, f: nat)
    requires PtesOk(ptes, areas, count, owner) && CacheOk(cache, owner) && f in cache
    requires forall k :: k in ptes ==> ptes[k].frame != cache[f]
    ensures !HasDirty(ptes, areas, f)
  {
    assert forall k :: k in ptes ==> EntryOk(ptes[k], areas[k], count, owner);
  }

  /** A byte stored through the entry of k, which becomes dirty. */
  function StoreByte(m: Mem, k: Key, off: nat, byte: nat): Mem
  {
    if k in m.ptes then
      var p := m.ptes[k].frame;
      m.(content := m.content[p := FileBytes(m.content, p)[off := byte]],
        ptes := m.ptes[k := m.ptes[k].(dirty := true)])
    else m
  }

  lemma StorePrivateKeeps(m: Mem, k: Key, off: nat, byte: nat)
    requires Inv(m) && k in m.ptes && k in m.areas && m.ptes[k].rw && Private(m.areas[k].backing)
    ensures Inv(StoreByte(m, k, off, byte)) && SameFiles(m, StoreByte(m, k, off, byte))
    ensures Shown(StoreByte(m, k, off, byte)) ==
      Shown(m)[k := Slot(m.areas[k], Some(FileBytes(m.content, m.ptes[k].frame)[off := byte]))]
  {
    var e, p := m.ptes[k].(dirty := true), m.ptes[k].frame;
    var c := FileBytes(m.content, p)[off := byte];
    assert EntryOk(m.ptes[k], m.areas[k], m.count, m.owner);
    hide Referring, Counted, CacheOk, PtesOk, DiskOk, Slots, View;
    SoleReference(m.count, m.ptes, m.owner, k);
    SameFrameCounted(m.count, m.ptes, m.owner, k, e);
    SameFramePtes(m.ptes, m.areas, m.count, m.owner, k, e);
    UncachedDisk(m.content, m.cache, m.disk, m.ptes, m.areas, m.owner, p, c);
    EntryChanged(m.content[p := c], m.cache, m.disk, m.ptes, m.areas, k, e);
    StoreSlots(m.content, m.count, m.ptes, m.areas, m.owner, k, e, c);
    forall f: nat { UncachedView(m.content, m.cache, m.disk, m.owner, p, c, f); }
  }

  lemma StoreSlots(content: map<nat, Bytes>, count: map<nat, nat>, ptes: map<Key, Pte>, areas: map<Key, Area>,
                   owner: map<nat, nat>, k: Key, e: Pte, c: Bytes)
    requires PtesOk(ptes, areas, count, owner) && k in areas && k in ptes && e.frame == ptes[k].frame
      && e.frame !in owner
    requires Private(areas[k].backing) && forall j :: j in ptes && ptes[j].frame == e.frame ==> j == k
    ensures Slots(content[e.frame := c], owner, ptes[k := e], areas) ==
      Slots(content, owner, ptes, areas)[k := Slot(areas[k], Some(c))]
  {
    assert Own(content[e.frame := c], owner, Some(e), areas[k]) == Some(c);
    hide PtesOk, Own;
    SlotsExcept(content, owner, ptes, areas, content[e.frame := c], owner, ptes[k := e], count, k);
  }

  lemma StoreSharedKeeps(m: Mem, k: Key, off: nat, byte: nat, f: nat)
    requires Inv(m) && k in m.ptes && k in m.areas && m.ptes[k].rw && m.areas[k].backing == SharedFile(f)
    ensures Inv(StoreByte(m, k, off, byte)) && Shown(StoreByte(m, k, off, byte)) == Shown(m)
    ensures forall g: nat :: (FileView(StoreByte(m, k, off, byte), g) ==
      if g == f then FileBytes(m.content, m.ptes[k].frame)[off := byte] else FileView(m, g))
  {
    var e, p := m.ptes[k].(dirty := true), m.ptes[k].frame;
    var c := FileBytes(m.content, p)[off := byte];
    assert EntryOk(m.ptes[k], m.areas[k], m.count, m.owner) && m.cache[f] == p && f in m.cache;
    hide Referring, Counted, CacheOk, PtesOk, DiskOk, Slots, View;
    SameFrameCounted(m.count, m.ptes, m.owner, k, e);
    SameFramePtes(m.ptes, m.areas, m.count, m.owner, k, e);
    EntryChanged(m.content, m.cache, m.disk, m.ptes, m.areas, k, e);
    assert HasDirty(m.ptes[k := e], m.areas, f);
    CachedDisk(m.content, m.cache, m.disk, m.ptes[k := e], m.areas, m.owner, f, c);
    CachedSlots(m.content, m.count, m.ptes, m.areas, m.owner, p, c);
    SameFrameSlots(m.content[p := c], m.count, m.ptes, m.areas, m.owner, k, e);
    forall g: nat { CachedView(m.content, m.cache, m.disk, m.owner, f, c, g); }
  }

  lemma CachedDisk(content: map<nat, Bytes>, cache: map<nat, nat>, disk: map<nat, Bytes>, ptes: map<Key, Pte>,
                   areas: map<Key, Area>, owner: map<nat, nat>, f: nat, c: Bytes)
    requires CacheOk(cache, owner) && DiskOk(content, cache, disk, ptes, areas) && f in cache
      && HasDirty(ptes, areas, f)
    ensures DiskOk(content[cache[f] := c], cache, disk, ptes, areas)
  {
    hide HasDirty, FileBytes;
    forall g | g in cache && g != f
      ensures Clean(content[cache[f] := c], cache, disk, g) == Clean(content, cache, disk, g)
    {
      assert cache[g] != cache[f];
      OtherFrame(content, cache[f], c, cache[g]);
    }
  }

  lemma OtherFrame(content: map<nat, Bytes>, p: nat, c: Bytes, q: nat)
    ensures FileBytes(content[p := c], q) == if q == p then c else FileBytes(content, q)
  {
  }

  lemma CachedSlots(content: map<nat, Bytes>, count: map<nat, nat>, ptes: map<Key, Pte>, areas: map<Key, Area>,
                    owner: map<nat, nat>, p: nat, c: Bytes)
    requires PtesOk(ptes, areas, count, owner) && p in owner
    ensures Slots(content[p := c], owner, ptes, areas) == Slots(content, owner, ptes, areas)
  {
    hide PtesOk, Own;
    SlotsSame(content, owner, ptes, areas, content[p := c], owner, ptes, count);
  }

  lemma CachedView(content: map<nat, Bytes>, cache: map<nat, nat>, disk: map<nat, Bytes>, owner: map<nat, nat>, f: nat,
                   c: Bytes, g: nat)
    requires CacheOk(cache, owner) && f in cache
    ensures View(content[cache[f] := c], cache, disk, g) == if g == f then c else View(content, cache, disk, g)
  {
    assert g in cache && cache[g] == cache[f] ==> g == f;
    hide CacheOk;
  }

  /** filemap_sync_pte: the page of a dirty shared entry is written to its file. */
  function SyncEntry(m: Mem, k: Key, f: nat): Mem
  {
    if k in m.ptes then
      m.(disk := m.disk[f := FileBytes(m.content, m.ptes[k].frame)], ptes := m.ptes[k := m.ptes[k].(dirty := false)])
    else m
  }

  lemma SyncEntryKeeps(m: Mem, k: Key, f: nat)
    requires Inv(m) && k in m.ptes && k in m.areas && m.areas[k].backing == SharedFile(f)
    ensures Inv(SyncEntry(m, k, f)) && Shown(SyncEntry(m, k, f)) == Shown(m) && SameFiles(m, SyncEntry(m, k, f))
  {
    var e, p := m.ptes[k].(dirty := false), m.ptes[k].frame;
    assert EntryOk(m.ptes[k], m.areas[k], m.count, m.owner) && f in m.cache && m.cache[f] == p;
    hide Referring, Counted, CacheOk, PtesOk, DiskOk, Slots, View;
    SameFrameCounted(m.count, m.ptes, m.owner, k, e);
    SameFramePtes(m.ptes, m.areas, m.count, m.owner, k, e);
    SameFrameSlots(m.content, m.count, m.ptes, m.areas, m.owner, k, e);
    forall g: nat { SyncView(m.content, m.cache, m.disk, f, FileBytes(m.content, p), g); }
    SyncDisk(m.content, m.cache, m.disk, m.ptes, m.areas, k, e, f);
  }

  lemma SyncView(content: map<nat, Bytes>, cache: map<nat, nat>, disk: map<nat, Bytes>, f: nat, c: Bytes, g: nat)
    requires f in cache
    ensures View(content, cache, disk[f := c], g) == View(content, cache, disk, g)
  {
  }

  lemma SyncDisk(content: map<nat, Bytes>, cache: map<nat, nat>, disk: map<nat, Bytes>, ptes: map<Key, Pte>,
                 areas: map<Key, Area>, k: Key, e: Pte, f: nat)
    requires DiskOk(content, cache, disk, ptes, areas) && k in ptes && k in areas && areas[k].backing == SharedFile(f)
      && f in cache
    ensures DiskOk(content, cache, disk[f := FileBytes(content, cache[f])], ptes[k := e], areas)
  {
    forall g | g != f && HasDirty(ptes, areas, g) ensures HasDirty(ptes[k := e], areas, g) {
      OthersDirty(ptes, areas, k, e, f, g);
    }
    hide HasDirty;
  }

  lemma OthersDirty(ptes: map<Key, Pte>, areas: map<Key, Area>, k: Key, e: Pte, f: nat, g: nat)
    requires HasDirty(ptes, areas, g) && g != f && k in areas && areas[k].backing == SharedFile(f)
    ensures HasDirty(ptes[k := e], areas, g)
  {
    var j :| j in ptes && j in areas && areas[j].backing == SharedFile(g) && ptes[j].dirty;
    assert j in ptes[k := e];
  }

  /** A write to the file, which also updates the cached page. */
  function FileStore(m: Mem, f: nat, off: nat, byte: nat): Mem
  {
    var disk := m.disk[f := FileBytes(m.disk, f)[off := byte]];
    if f in m.cache then
      m.(disk := disk, content := m.content[m.cache[f] := FileBytes(m.content, m.cache[f])[off := byte]])
    else m.(disk := disk)
  }

  lemma FileStoreKeeps(m: Mem, f: nat, off: nat, byte: nat)
    requires Inv(m)
    ensures Inv(FileStore(m, f, off, byte)) && Shown(FileStore(m, f, off, byte)) == Shown(m)
    ensures forall g: nat :: (FileView(FileStore(m, f, off, byte), g) ==
      if g == f then FileView(m, f)[off := byte] else FileView(m, g))
  {
    assert f in m.cache ==> m.cache[f] in m.owner;
    hide Referring, Counted, CacheOk, PtesOk, DiskOk, Slots, View;
    if f in m.cache {
      CachedSlots(m.content, m.count, m.ptes, m.areas, m.owner, m.cache[f],
        FileBytes(m.content, m.cache[f])[off := byte]);
    }
    FileStoreDisk(m.content, m.cache, m.disk, m.ptes, m.areas, m.owner, f, off, byte);
    forall g: nat { FileStoreView(m.content, m.cache, m.disk, m.owner, f, off, byte, g); }
  }

  function StoredContent(content: map<nat, Bytes>, cache: map<nat, nat>, f: nat, off: nat, byte: nat): map<nat, Bytes>
  {
    if f in cache then content[cache[f] := FileBytes(content, cache[f])[off := byte]] else content
  }

  lemma FileStoreDisk(content: map<nat, Bytes>, cache: map<nat, nat>, disk: map<nat, Bytes>, ptes: map<Key, Pte>,
                      areas: map<Key, Area>, owner: map<nat, nat>, f: nat, off: nat, byte: nat)
    requires CacheOk(cache, owner) && DiskOk(content, cache, disk, ptes, areas)
    ensures DiskOk(StoredContent(content, cache, f, off, byte), cache, disk[f := FileBytes(disk, f)[off := byte]],
      ptes, areas)
  {
    hide HasDirty;
    assert forall g :: g in cache && f in cache && cache[g] == cache[f] ==> g == f;
    hide CacheOk;
  }

  lemma FileStoreView(content: map<nat, Bytes>, cache: map<nat, nat>, disk: map<nat, Bytes>, owner: map<nat, nat>,
                      f: nat, off: nat, byte: nat, g: nat)
    requires CacheOk(cache, owner)
    ensures View(StoredContent(content, cache, f, off, byte), cache, disk[f := FileBytes(disk, f)[off := byte]], g) ==
      if g == f then View(content, cache, disk, f)[off := byte] else View(content, cache, disk, g)
  {
    assert g in cache && f in cache && cache[g] == cache[f] ==> g == f;
    hide CacheOk;
  }

  /** Other areas: mappings come or go where there are no entries. */
  function SetAreas(m: Mem, areas: map<Key, Area>, procs: set<nat>): Mem { m.(areas := areas, procs := procs) }

  lemma SetAreasKeeps(m: Mem, areas: map<Key, Area>, procs: set<nat>)
    requires Inv(m) && AreasOk(areas, procs)
    requires forall k :: k in m.ptes ==> k in areas
    requires forall k :: k in areas && k in m.areas ==> areas[k] == m.areas[k]
    ensures Inv(SetAreas(m, areas, procs)) && SameFiles(m, SetAreas(m, areas, procs))
    ensures Shown(SetAreas(m, areas, procs)) == map k | k in areas :: if k in m.areas then Shown(m)[k]
      else NewSlot(areas[k])
  {
    hide Referring, Counted, CacheOk, DiskOk, Slots, View;
    AreasSlots(m.content, m.owner, m.ptes, m.areas, areas);
    hide PtesOk;
    AreasPtes(m.ptes, m.areas, m.count, m.owner, areas);
    AreasDisk(m.content, m.cache, m.disk, m.ptes, m.areas, areas);
  }

  lemma AreasPtes(ptes: map<Key, Pte>, areas: map<Key, Area>, count: map<nat, nat>, owner: map<nat, nat>,
                  areas': map<Key, Area>)
    requires PtesOk(ptes, areas, count, owner)
    requires forall k :: k in ptes ==> k in areas' && (k in areas ==> areas'[k] == areas[k])
    ensures PtesOk(ptes, areas', count, owner)
  {
    hide EntryOk;
  }

  lemma AreasDisk(content: map<nat, Bytes>, cache: map<nat, nat>, disk: map<nat, Bytes>, ptes: map<Key, Pte>,
                  areas: map<Key, Area>, areas': map<Key, Area>)
    requires DiskOk(content, cache, disk, ptes, areas)
    requires forall k :: k in ptes ==> k in areas' && (k in areas ==> areas'[k] == areas[k])
    ensures DiskOk(content, cache, disk, ptes, areas')
  {
    forall f | HasDirty(ptes, areas, f) ensures HasDirty(ptes, areas', f) {}
    hide HasDirty, Clean;
  }

  lemma AreasSlots(content: map<nat, Bytes>, owner: map<nat, nat>, ptes: map<Key, Pte>, areas: map<Key, Area>,
                   areas': map<Key, Area>)
    requires forall k :: k in ptes ==> k in areas
    requires forall k :: k in areas && k in areas' ==> areas'[k] == areas[k]
    ensures Slots(content, owner, ptes, areas') ==
      map k | k in areas' :: if k in areas then Slots(content, owner, ptes, areas)[k] else NewSlot(areas'[k])
  {
    forall k | k in areas' && k !in areas
      ensures Own(content, owner, EntryAt(ptes, k), areas'[k]) == NewSlot(areas'[k]).own
    {
    }
    hide Own;
  }

  /** memory shows what the eager machine e holds. */
  ghost predicate Refines(m: Mem, e: Eager) {
    e.procs == m.procs && e.slots == Shown(m) && forall f: nat :: FileBytes(e.files, f) == FileView(m, f)
  }

  /** The page that k sees is the one its entry maps. */
  lemma EntryBytes(m: Mem, k: Key, e: Eager)
    requires Inv(m) && Refines(m, e) && k in m.ptes
    ensures k in m.areas && k in e.slots && e.slots[k].area == m.areas[k] && m.areas[k].perm != NoAccess
    ensures SlotBytes(e, k) == FileBytes(m.content, m.ptes[k].frame)
  {
    assert EntryOk(m.ptes[k], m.areas[k], m.count, m.owner);
  }

  lemma EntryFacts(m: Mem, k: Key)
    requires Inv(m) && k in m.ptes
    ensures m.ptes[k].frame in m.count && k in m.areas && m.areas[k].perm != NoAccess
    ensures m.ptes[k].rw || m.ptes[k].dirty ==> m.areas[k].perm == ReadWrite
  {
    assert EntryOk(m.ptes[k], m.areas[k], m.count, m.owner);
  }

  /** A private entry on a frame of its own shows that frame. */
  lemma OwnBytes(m: Mem, k: Key)
    requires Inv(m) && k in m.ptes && k in m.areas && Private(m.areas[k].backing)
    requires m.ptes[k].frame in m.count && m.count[m.ptes[k].frame] == 1
    ensures Shown(m) == Shown(m)[k := Slot(m.areas[k], Some(FileBytes(m.content, m.ptes[k].frame)))]
  {
    hide PtesOk, DiskOk;
    SoleReference(m.count, m.ptes, m.owner, k);
  }

  /** The first n slots of the parent copied to the child. */
  function ForkedTo(slots: map<Key, Slot>, parent: nat, child: nat, n: nat): map<Key, Slot>
  {
    if n == 0 then slots
    else CopySlot(ForkedTo(slots, parent, child, n - 1), Key(parent, n - 1), Key(child, n - 1))
  }

  predicate CopiedBelow(slots: map<Key, Slot>, parent: nat, child: nat, n: nat, k: Key) {
    k.pid == child && k.vpn < n && Key(parent, k.vpn) in slots
  }

  lemma {:induction false} ForkedToIs(slots: map<Key, Slot>, parent: nat, child: nat, n: nat)
    requires parent != child
    ensures var r := ForkedTo(slots, parent, child, n);
      && (forall k :: k in r <==> k in slots || CopiedBelow(slots, parent, child, n, k))
      && (forall k :: k in r ==> r[k] == if CopiedBelow(slots, parent, child, n, k) then slots[Key(parent, k.vpn)]
        else slots[k])
  {
    if n > 0 { ForkedToIs(slots, parent, child, n - 1); }
  }

  function ForkedAreas(areas: map<Key, Area>, parent: nat, child: nat): map<Key, Area>
  {
    areas + map v: nat | v < USER_PAGES && Key(parent, v) in areas :: Key(child, v) := areas[Key(parent, v)]
  }

  lemma ForkedShown(slots: map<Key, Slot>, slots': map<Key, Slot>, areas: map<Key, Area>, parent: nat, child: nat)
    requires slots.Keys == areas.Keys && parent != child
    requires forall k :: k in areas ==> k.pid != child && k.vpn < USER_PAGES
    requires slots'.Keys == ForkedAreas(areas, parent, child).Keys && forall k :: k in slots ==> slots'[k] == slots[k]
    ensures ForkedTo(slots', parent, child, USER_PAGES) == Forked(slots, parent, child)
  {
    var r := ForkedTo(slots', parent, child, USER_PAGES);
    ForkedToIs(slots', parent, child, USER_PAGES);
    hide ForkedTo;
    assert forall k :: k in slots' <==> k in slots || CopiedBelow(slots, parent, child, USER_PAGES, k);
    assert forall k :: k in r <==> k in slots || CopiedBelow(slots, parent, child, USER_PAGES, k);
  }

  /** dup_mmap: the child has the parent's areas and no entries yet. */
  lemma ForkStart(m: Mem, parent: nat, child: nat)
    requires Inv(m) && parent in m.procs && child !in m.procs
    ensures var m' := SetAreas(m, ForkedAreas(m.areas, parent, child), m.procs + {child});
      && Inv(m') && SameFiles(m, m') && (forall k :: k in m'.ptes ==> k.pid != child)
      && ForkedTo(Shown(m'), parent, child, USER_PAGES) == Forked(Shown(m), parent, child)
      && forall v: nat :: Key(parent, v) in m'.areas ==>
        Key(child, v) in m'.areas && m'.areas[Key(child, v)] == m'.areas[Key(parent, v)]
  {
    var areas' := ForkedAreas(m.areas, parent, child);
    var m' := SetAreas(m, areas', m.procs + {child});
    hide Referring, Counted, CacheOk, DiskOk, EntryOk;
    assert forall k :: k in m.ptes ==> k in m.areas;
    assert forall k :: k in m.areas ==> k.pid != child && k.pid in m.procs && k.vpn < USER_PAGES;
    SetAreasKeeps(m, areas', m.procs + {child});
    assert Shown(m).Keys == m.areas.Keys && Shown(m').Keys == areas'.Keys;
    hide Inv, Slots, View, AreasOk;
    ForkedShown(Shown(m), Shown(m'), m.areas, parent, child);
  }

  class Memory {
    var content: map<nat, Bytes>    // page frames
    var count: map<nat, nat>        // struct page: references to each frame in use
    var ptes: map<Key, Pte>         // the present entries of all page tables
    var areas: map<Key, Area>       // the VMAs, page by page
    var cache: map<nat, nat>        // the file page cache
    var disk: map<nat, Bytes>       // the files
    var procs: set<nat>
    ghost var owner: map<nat, nat>  // the inverse of cache

    ghost function Now(): Mem
      reads this
    {
      Mem(content, count, ptes, areas, cache, owner, disk, procs)
    }

    ghost predicate Valid()
      reads this
    {
      Inv(Now())
    }

    method AllocPage(c: Bytes) returns (p: nat)
      modifies this`content, this`count
      ensures p !in old(count) && content == old(content)[p := c] && count == old(count)[p := 1]
    {
      FreeFrameExists(count.Keys);
      p :| p !in count.Keys;
      content, count := content[p := c], count[p := 1];
    }

    method RefFrame(p: nat)
      requires p in count
      modifies this`count
      ensures count == RefPage(old(count), p)
    {
      count := count[p := count[p] + 1];
    }

    /** __put_page */
    method PutFrame(p: nat)
      requires p in count
      modifies this`count
      ensures count == PutPage(old(count), p)
    {
      if count[p] > 1 { count := count[p := count[p] - 1]; } else { count := count - {p}; }
    }

    /** copy_one_pte */
    method CopyOnePte(from: Key, to: Key)
      requires Valid() && to !in ptes && (from in areas ==> to in areas && areas[to] == areas[from])
      modifies this`count, this`ptes
      ensures Valid() && Now() == ShareEntry(old(Now()), from, to)
    {
      hide Inv;
      ShareEntryKeeps(Now(), from, to);
      if from !in ptes { return; }
      EntryFacts(Now(), from);
      RefFrame(ptes[from].frame);
      ptes := ptes[from := ptes[from].(rw := false)];
      ptes := ptes[to := ptes[from]];
    }

    /** free_one_pte */
    method FreeOnePte(k: Key)
      requires Valid() && k in areas && (k in ptes ==> Private(areas[k].backing) || !ptes[k].dirty)
      modifies this`count, this`ptes
      ensures Valid() && Now() == DropEntry(old(Now()), k)
    {
      hide Inv;
      DropEntryKeeps(Now(), k);
      if k !in ptes { return; }
      EntryFacts(Now(), k);
      PutFrame(ptes[k].frame);
      ptes := ptes - {k};
    }

    /** filemap_sync_pte: a dirty page of a shared writable mapping goes to its file. */
    method FilemapSyncPte(k: Key)
      requires Valid() && k in areas
      modifies this`disk, this`ptes
      ensures Valid() && Shown(Now()) == Shown(old(Now())) && SameFiles(old(Now()), Now())
      ensures forall j :: j in ptes <==> j in old(ptes)
      ensures forall j :: j in ptes && j != k ==> ptes[j] == old(ptes[j])
      ensures k in ptes ==> Private(areas[k].backing) || !ptes[k].dirty
    {
      hide Inv, Slots, View;
      if k in ptes { EntryFacts(Now(), k); }
      if Private(areas[k].backing) || areas[k].perm != ReadWrite || k !in ptes || !ptes[k].dirty { return; }
      var f := areas[k].backing.page;
      SyncEntryKeeps(Now(), k, f);
      disk := disk[f := FileBytes(content, ptes[k].frame)];
      ptes := ptes[k := ptes[k].(dirty := false)];
      assert Now() == SyncEntry(old(Now()), k, f);
    }
  
    /** copy_page_tables: the child gets every entry of its parent, write-protected in both. */
    method CopyPageTables(parent: nat, child: nat)
      requires Valid() && parent != child
      requires forall k :: k in ptes ==> k.pid != child
      requires forall v: nat :: Key(parent, v) in areas ==>
        Key(child, v) in areas && areas[Key(child, v)] == areas[Key(parent, v)]
      modifies this`count, this`ptes
      ensures Valid() && Shown(Now()) == ForkedTo(Shown(old(Now())), parent, child, USER_PAGES)
      ensures SameFiles(old(Now()), Now())
    {
      hide Inv, Slots;
      ghost var slots := Shown(Now());
      for v: nat := 0 to USER_PAGES
        invariant Valid() && Shown(Now()) == ForkedTo(slots, parent, child, v)
        invariant forall k :: k in ptes && k.pid == child ==> k.vpn < v
      {
        ghost var m := Now();
        ShareEntryKeeps(m, Key(parent, v), Key(child, v));
        CopyOnePte(Key(parent, v), Key(child, v));
      }
    }

    /** fork: dup_mmap, then copy_page_tables. */
    method DoFork(parent: nat, child: nat)
      requires Valid() && parent in procs && child !in procs
      modifies this
      ensures Valid() && procs == old(procs) + {child} && Shown(Now()) == Forked(old(Shown(Now())), parent, child)
      ensures SameFiles(old(Now()), Now())
    {
      hide Inv, Slots, View, Forked, ForkedTo;
      ForkStart(Now(), parent, child);
      procs := procs + {child};
      areas := ForkedAreas(areas, parent, child);
      CopyPageTables(parent, child);
    }
  
    /** The page cache holds file page f, read from the file if need be. */
    method FilemapGetPage(f: nat)
      requires Valid()
      modifies this`content, this`count, this`cache, this`owner
      ensures Valid() && Shown(Now()) == Shown(old(Now())) && SameFiles(old(Now()), Now()) && f in cache
    {
      hide Inv, Slots, View;
      if f in cache { return; }
      ghost var m := Now();
      var p := AllocPage(FileBytes(disk, f));
      LoadPageKeeps(m, f, p);
      cache := cache[f := p];
      owner := owner[p := f];
      assert Now() == LoadPage(m, f, p);
    }

    /** do_no_page: a zero page for anonymous memory, the cached page for a file; private file pages start read-only. */
    method DoNoPage(k: Key)
      requires Valid() && k in areas && areas[k].perm != NoAccess && k !in ptes
      modifies this`content, this`count, this`cache, this`owner, this`ptes
      ensures Valid() && Shown(Now()) == Shown(old(Now())) && SameFiles(old(Now()), Now())
      ensures k in ptes && (ptes[k].rw ==> areas[k].perm == ReadWrite)
    {
      hide Inv, Slots, View;
      var prot := areas[k].perm == ReadWrite;
      ghost var m := Now();
      if areas[k].backing.Anonymous? {
        ZeroShown(m, k);
        var p := AllocPage(map[]);
        ptes := ptes[k := Pte(p, prot, false)];
        GiveFrameKeeps(m, k, ptes[k], map[]);
        assert Now() == GiveFrame(m, k, ptes[k], map[]);
      } else {
        var f := areas[k].backing.page;
        FilemapGetPage(f);
        var e := Pte(cache[f], prot && areas[k].backing.SharedFile?, false);
        ghost var m' := Now();
        CachedInUse(m', f);
        EnterFrameKeeps(m', k, e, f);
        RefFrame(e.frame);
        ptes := ptes[k := e];
        assert Now() == EnterFrame(m', k, e);
      }
    }

    /** do_wp_page: write access for shared pages and sole owners, a copy for the others. */
    method DoWpPage(k: Key)
      requires Valid() && k in ptes && k in areas && areas[k].perm == ReadWrite
      modifies this`content, this`count, this`ptes
      ensures Valid() && k in ptes && ptes[k].rw && SameFiles(old(Now()), Now())
      ensures FileBytes(content, ptes[k].frame) == old(FileBytes(content, ptes[k].frame))
      ensures Shown(Now()) == if areas[k].backing.SharedFile? then Shown(old(Now()))
        else Shown(old(Now()))[k := Slot(areas[k], Some(FileBytes(content, ptes[k].frame)))]
    {
      hide Inv, Slots, View;
      ghost var m := Now();
      EntryFacts(m, k);
      var page := ptes[k].frame;
      if areas[k].backing.SharedFile? || count[page] == 1 {
        AllowWriteKeeps(m, k);
        if !areas[k].backing.SharedFile? { OwnBytes(m, k); }
        ptes := ptes[k := ptes[k].(rw := true)];
        assert Now() == AllowWrite(m, k);
        return;
      }
      var tmp := AllocPage(FileBytes(content, page));
      ptes := ptes[k := Pte(tmp, true, false)];
      PutFrame(page);
      CopyKeeps(m, k, tmp);
      assert Now() == CopyFrame(m, k, tmp);
    }

    /** mmap of one page. */
    method MapPage(k: Key, area: Area) returns (seen: Seen)
      requires Valid()
      modifies this
      ensures Valid() && SameFiles(old(Now()), Now()) && procs == old(procs)
      ensures seen == if k.pid in procs && k.vpn < USER_PAGES && k !in old(areas) then Done else Fault
      ensures Shown(Now()) == if seen.Done? then Shown(old(Now()))[k := NewSlot(area)] else Shown(old(Now()))
    {
      if k.pid !in procs || k.vpn >= USER_PAGES || k in areas { return Fault; }
      MapStart(Now(), k, area);
      hide Inv, Slots, View;
      areas := areas[k := area];
      seen := Done;
    }

    /** munmap of one page: sync a shared one, give up the frame, forget the area. */
    method UnmapPage(k: Key)
      requires Valid()
      modifies this
      ensures Valid() && SameFiles(old(Now()), Now()) && procs == old(procs)
      ensures Shown(Now()) == Shown(old(Now())) - {k}
    {
      hide Inv, Slots, View;
      ShownKeys(Now());
      if k !in areas { return; }
      FilemapSyncPte(k);
      ghost var m := Now();
      FreeOnePte(k);
      DropEntryKeeps(m, k);
      UnmapEnd(Now(), k);
      areas := areas - {k};
    }

    /** exit_mmap and free_page_tables: sync every shared page, then give up every frame. */
    method ExitProcess(pid: nat)
      requires Valid()
      modifies this
      ensures Valid() && SameFiles(old(Now()), Now()) && procs == old(procs) - {pid}
      ensures Shown(Now()) == Without(Shown(old(Now())), pid)
    {
      hide Inv, Slots, View;
      ghost var m := Now();
      for v: nat := 0 to USER_PAGES
        invariant Valid() && SameFiles(m, Now()) && Shown(Now()) == Shown(m) && areas == m.areas && procs == m.procs
        invariant forall u: nat :: u < v ==> Synced(Now(), Key(pid, u))
      {
        if Key(pid, v) in areas { FilemapSyncPte(Key(pid, v)); }
        assert forall u: nat :: u < v ==> Key(pid, u) != Key(pid, v);
      }
      for v: nat := 0 to USER_PAGES
        invariant Valid() && SameFiles(m, Now()) && areas == m.areas && procs == m.procs
        invariant Shown(Now()).Keys == Shown(m).Keys
        invariant forall k :: k in Shown(m) && k.pid != pid ==> Shown(Now())[k] == Shown(m)[k]
        invariant forall u: nat :: v <= u < USER_PAGES ==> Synced(Now(), Key(pid, u))
        invariant forall u: nat :: u < v && Key(pid, u) in areas ==> Key(pid, u) !in ptes
      {
        if Key(pid, v) in areas {
          ghost var m' := Now();
          ShownKeys(m');
          DropEntryKeeps(m', Key(pid, v));
          FreeOnePte(Key(pid, v));
        }
      }
      ExitEnd(m, Now(), pid);
      areas := AreasWithout(areas, pid);
      procs := procs - {pid};
    }

    /** A user read: a missing page faults in first. */
    method ReadByte(k: Key, off: nat, ghost e: Eager) returns (seen: Seen)
      requires Valid() && Refines(Now(), e)
      modifies this
      ensures Valid() && Refines(Now(), e)
      ensures seen == if k in e.slots && e.slots[k].area.perm != NoAccess then Byte(ByteAt(SlotBytes(e, k), off))
        else Fault
    {
      hide Inv, Shown, FileView, SlotBytes;
      ShownKeys(Now());
      ShownArea(Now(), e, k);
      if k !in ptes {
        if k !in areas || areas[k].perm == NoAccess { return Fault; }
        DoNoPage(k);
      }
      EntryBytes(Now(), k, e);
      seen := Byte(ByteAt(FileBytes(content, ptes[k].frame), off));
    }

    /** A user write: a missing page faults in, a write-protected one goes through do_wp_page. */
    method WriteByte(k: Key, off: nat, byte: nat, ghost e: Eager) returns (seen: Seen)
      requires Valid() && Refines(Now(), e)
      modifies this
      ensures Valid() && Refines(Now(), Step(e, Write(k.pid, k.vpn, off, byte)).0)
      ensures seen == Step(e, Write(k.pid, k.vpn, off, byte)).1
    {
      hide Inv, Shown, FileView, SlotBytes;
      ShownKeys(Now());
      ShownArea(Now(), e, k);
      if k !in areas || areas[k].perm != ReadWrite { return Fault; }
      if k !in ptes { DoNoPage(k); }
      EntryBytes(Now(), k, e);
      ghost var bytes := FileBytes(content, ptes[k].frame);
      if !ptes[k].rw { DoWpPage(k); }
      ghost var m := Now();
      var p := ptes[k].frame;
      content := content[p := FileBytes(content, p)[off := byte]];
      ptes := ptes[k := ptes[k].(dirty := true)];
      assert Now() == StoreByte(m, k, off, byte);
      StoreRefines(m, e, k, off, byte);
      seen := Done;
    }

    /** filemap_evict_one: a page no one else refers to may go. */
    method EvictOne(f: nat)
      requires Valid()
      modifies this`cache, this`owner, this`count
      ensures Valid() && Shown(Now()) == Shown(old(Now())) && SameFiles(old(Now()), Now())
    {
      hide Inv, Slots, View;
      if f !in cache { return; }
      ghost var m := Now();
      CachedInUse(m, f);
      var p := cache[f];
      if count[p] != 1 { return; }
      EvictPageKeeps(m, f);
      owner := owner - {p};
      cache := cache - {f};
      PutFrame(p);
      assert Now() == EvictPage(m, f);
    }

    /** A file write, which keeps the cached page up to date. */
    method FileWriteByte(f: nat, off: nat, byte: nat)
      requires Valid()
      modifies this`disk, this`content
      ensures Valid() && Shown(Now()) == Shown(old(Now()))
      ensures forall g: nat :: FileView(Now(), g) == if g == f then FileView(old(Now()), f)[off := byte]
        else FileView(old(Now()), g)
    {
      hide Inv, Slots, View;
      ghost var m := Now();
      FileStoreKeeps(m, f, off, byte);
      disk := disk[f := FileBytes(disk, f)[off := byte]];
      if f in cache { content := content[cache[f] := FileBytes(content, cache[f])[off := byte]]; }
      assert Now() == FileStore(m, f, off, byte);
    }

    /** One operation does to memory what it does to the eager machine, and shows the program the same. */
    method Perform(op: Op, ghost e: Eager) returns (seen: Seen)
      requires Valid() && Refines(Now(), e)
      modifies this
      ensures Valid() && Refines(Now(), Step(e, op).0) && seen == Step(e, op).1
    {
      hide Inv, Shown, FileView, SlotBytes, Forked, Without, NewSlot;
      ShownKeys(Now());
      seen := Done;
      match op
      case Map(pid, vpn, area) => seen := MapPage(Key(pid, vpn), area);
      case Unmap(pid, vpn) => UnmapPage(Key(pid, vpn));
      case Fork(parent, child) =>
        if parent in procs && child !in procs { DoFork(parent, child); } else { seen := Fault; }
      case Exit(pid) => ExitProcess(pid);
      case Read(pid, vpn, off) => seen := ReadByte(Key(pid, vpn), off, e);
      case Write(pid, vpn, off, byte) => seen := WriteByte(Key(pid, vpn), off, byte, e);
      case FileWrite(f, off, byte) => FileWriteByte(f, off, byte);
      case Evict(f) => EvictOne(f);
    }

    /** Over every run, each process reads what it would have read had every fork copied every page. */
    method RunAll(ops: seq<Op>, ghost e: Eager) returns (seen: seq<Seen>)
      requires Valid() && Refines(Now(), e)
      modifies this
      ensures Valid() && Refines(Now(), Run(e, ops).0) && seen == Run(e, ops).1
    {
      seen := [];
      assert ops[..0] == [];
      for i := 0 to |ops|
        invariant Valid() && Refines(Now(), Run(e, ops[..i]).0) && seen == Run(e, ops[..i]).1
      {
        RunStep(e, ops, i);
        var last := Perform(ops[i], Run(e, ops[..i]).0);
        seen := seen + [last];
      }
      assert ops[..|ops|] == ops;
    }

    /** A machine with one process and nothing mapped. */
    constructor (files: map<nat, Bytes>, init: nat)
      ensures Valid() && Refines(Now(), Eager({init}, map[], files))
    {
      content, count, ptes, areas, cache, owner := map[], map[], map[], map[], map[], map[];
      disk, procs := files, {init};
    }
  }

  function CopyFrame(m: Mem, k: Key, q: nat): Mem
  {
    if k in m.ptes then
      var p := m.ptes[k].frame;
      m.(content := m.content[q := FileBytes(m.content, p)], count := PutPage(m.count[q := 1], p),
        ptes := m.ptes[k := Pte(q, true, false)])
    else m
  }

  /** Copying is leaving the shared frame and getting a frame with the same bytes. */
  lemma CopyKeeps(m: Mem, k: Key, q: nat)
    requires Inv(m) && k in m.ptes && k in m.areas && m.areas[k].perm == ReadWrite && Private(m.areas[k].backing)
    requires q !in m.count && m.ptes[k].frame in m.count && m.count[m.ptes[k].frame] != 1
    ensures Inv(CopyFrame(m, k, q)) && SameFiles(m, CopyFrame(m, k, q))
    ensures Shown(CopyFrame(m, k, q)) == Shown(m)[k := Slot(m.areas[k], Some(FileBytes(m.content, m.ptes[k].frame)))]
  {
    hide Inv, Slots, View;
    var e, c, m' := Pte(q, true, false), FileBytes(m.content, m.ptes[k].frame), DropEntry(m, k);
    FrameCount(m, k);
    DropEntryKeeps(m, k);
    GiveFrameKeeps(m', k, e, c);
    assert GiveFrame(m', k, e, c) == CopyFrame(m, k, q) by {
      assert PutPage(m.count, m.ptes[k].frame)[q := 1] == PutPage(m.count[q := 1], m.ptes[k].frame);
      assert (m.ptes - {k})[k := e] == m.ptes[k := e];
    }
  }

  lemma FrameCount(m: Mem, k: Key)
    requires Inv(m) && k in m.ptes
    ensures m.ptes[k].frame in m.count && m.count[m.ptes[k].frame] > 0
  {
  }

  lemma CachedInUse(m: Mem, f: nat)
    requires Inv(m) && f in m.cache
    ensures m.cache[f] in m.count
  {
  }

  lemma ShownArea(m: Mem, e: Eager, k: Key)
    requires Inv(m) && Refines(m, e)
    ensures k in e.slots <==> k in m.areas
    ensures k in m.areas ==> e.slots[k].area == m.areas[k]
    ensures k in m.ptes ==> k in m.areas && m.areas[k].perm != NoAccess
  {
    if k in m.ptes { EntryFacts(m, k); }
  }

  /** Storing a byte, once k may write, is the eager machine's write. */
  lemma StoreRefines(m: Mem, e: Eager, k: Key, off: nat, byte: nat)
    requires Inv(m) && k in m.ptes && k in m.areas && m.ptes[k].rw && m.areas[k].perm == ReadWrite
    requires e.procs == m.procs && (forall f: nat :: FileBytes(e.files, f) == FileView(m, f))
    requires k in e.slots && e.slots[k].area == m.areas[k] && FileBytes(m.content, m.ptes[k].frame) == SlotBytes(e, k)
    requires Shown(m) == e.slots || (Private(m.areas[k].backing)
      && Shown(m) == e.slots[k := Slot(m.areas[k], Some(SlotBytes(e, k)))])
    ensures Refines(StoreByte(m, k, off, byte), Step(e, Write(k.pid, k.vpn, off, byte)).0)
    ensures Inv(StoreByte(m, k, off, byte))
  {
    hide Inv, Shown, FileView, SlotBytes;
    assert Key(k.pid, k.vpn) == k;
    if Private(m.areas[k].backing) {
      StorePrivateKeeps(m, k, off, byte);
    } else {
      StoreSharedKeeps(m, k, off, byte, m.areas[k].backing.page);
    }
  }

  ghost predicate Synced(m: Mem, k: Key) {
    k in m.ptes && k in m.areas ==> Private(m.areas[k].backing) || !m.ptes[k].dirty
  }

  lemma ShownKeys(m: Mem)
    ensures Shown(m).Keys == m.areas.Keys
  {
  }

  lemma EntriesHaveAreas(m: Mem)
    requires Inv(m)
    ensures forall k :: k in m.ptes ==> k in m.areas
    ensures forall k :: k in m.areas ==> k.pid in m.procs && k.vpn < USER_PAGES
  {
  }

  lemma MapStart(m: Mem, k: Key, area: Area)
    requires Inv(m) && k !in m.areas && k.pid in m.procs && k.vpn < USER_PAGES
    ensures var m' := SetAreas(m, m.areas[k := area], m.procs);
      Inv(m') && SameFiles(m, m') && Shown(m') == Shown(m)[k := NewSlot(area)]
  {
    EntriesHaveAreas(m);
    ShownKeys(m);
    hide Inv, Slots, View;
    SetAreasKeeps(m, m.areas[k := area], m.procs);
  }

  lemma UnmapEnd(m: Mem, k: Key)
    requires Inv(m) && k !in m.ptes
    ensures var m' := SetAreas(m, m.areas - {k}, m.procs);
      Inv(m') && SameFiles(m, m') && Shown(m') == Shown(m) - {k}
  {
    EntriesHaveAreas(m);
    ShownKeys(m);
    hide Inv, Slots, View;
    SetAreasKeeps(m, m.areas - {k}, m.procs);
  }

  lemma ExitEnd(start: Mem, m: Mem, pid: nat)
    requires Inv(m) && m.areas == start.areas && m.procs == start.procs
    requires forall v: nat :: v < USER_PAGES && Key(pid, v) in m.areas ==> Key(pid, v) !in m.ptes
    requires forall k :: k in Shown(start) && k.pid != pid ==> k in Shown(m) && Shown(m)[k] == Shown(start)[k]
    ensures var m' := SetAreas(m, AreasWithout(m.areas, pid), m.procs - {pid});
      Inv(m') && SameFiles(m, m') && Shown(m') == Without(Shown(start), pid)
  {
    hide Inv, Slots, View;
    EntriesHaveAreas(m);
    ShownKeys(m);
    ShownKeys(start);
    forall k | k in m.ptes ensures k.pid != pid { assert k.pid == pid ==> Key(pid, k.vpn) == k; }
    SetAreasKeeps(m, AreasWithout(m.areas, pid), m.procs - {pid});
    WithoutAreas(Shown(m), Shown(start), m.areas, pid);
  }

  function AreasWithout(areas: map<Key, Area>, pid: nat): map<Key, Area>
  {
    map k | k in areas && k.pid != pid :: areas[k]
  }

  lemma WithoutAreas(slots: map<Key, Slot>, start: map<Key, Slot>, areas: map<Key, Area>, pid: nat)
    requires slots.Keys == start.Keys == areas.Keys
    requires forall k :: k in start && k.pid != pid ==> slots[k] == start[k]
    ensures (map k | k in AreasWithout(areas, pid) :: if k in areas then slots[k]
      else NewSlot(AreasWithout(areas, pid)[k]))
      == Without(start, pid)
  {
  }

  /** Untouched anonymous memory shows zeroes. */
  lemma ZeroShown(m: Mem, k: Key)
    requires Inv(m) && k in m.areas && k !in m.ptes && m.areas[k].backing.Anonymous?
    ensures Shown(m) == Shown(m)[k := Slot(m.areas[k], Some(map[]))]
  {
  }

  lemma RunStep(e: Eager, ops: seq<Op>, i: nat)
    requires i < |ops|
    ensures var (e', seen) := Run(e, ops[..i]);
      Run(e, ops[..i + 1]) == (Step(e', ops[i]).0, seen + [Step(e', ops[i]).1])
  {
    assert ops[..i + 1][..i] == ops[..i];
  }
}

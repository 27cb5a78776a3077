/** src/fs/block/buffer.c: the sector buffers, shared by any number of threads between bread and brelse. */
module BufferCache {
  import opened Lists

  const NR_BH: nat := 128

  /** A device and a sector on it; device 0 does not exist. */
  datatype Sector = Sector(dev: nat, number: nat)

  /** What a sector holds. */
  type Data = nat

  function At(store: map<Sector, Data>, k: Sector): Data { if k in store then store[k] else 0 }

  /** buffer_head; holder has b_sem. */
  datatype Slot = Slot(key: Sector, count: nat, up2date: bool, dirty: bool, data: Data, holder: Option<nat>)

  /** Where a thread is: outside, in get_buffer, in bread, holding a buffer, or in brelse. */
  datatype Pc =
    | Idle
    | Want(key: Sector)                // before ACQUIRE_LOCK in get_buffer
    | Asleep(key: Sector)              // on buffer_wait
    | Wait(i: nat, key: Sector)        // has counted itself, before or in down(b_sem)
    | Got(i: nat, key: Sector)         // get_buffer has returned to bread
    | Loading(i: nat, key: Sector)     // in blkdev_read
    | Hold(i: nat, key: Sector)        // bread has returned
    | Leaving(i: nat, key: Sector)     // blkdev_read has failed, before brelse
    | Sync(i: nat, key: Sector)        // last user, before bsync
    | Flush(i: nat, key: Sector)       // in blkdev_write
    | Drop(i: nat, key: Sector)        // before the second half of brelse
    | Up(i: nat)                       // before up(b_sem)

  datatype State = State(slots: seq<Slot>, lru: seq<nat>, pcs: map<nat, Pc>, disk: map<Sector, Data>)

  /** The slot a thread has counted itself in, or -1. */
  function UsedSlot(pc: Pc): int { if pc.Idle? || pc.Want? || pc.Asleep? || pc.Up? then -1 else pc.i }

  /** The slot whose semaphore a thread has, or -1. */
  function SemSlot(pc: Pc): int { if pc.Idle? || pc.Want? || pc.Asleep? || pc.Wait? then -1 else pc.i }

  predicate NoneBut(x: int, i: nat) { x == -1 || x == i }

  // The critical sections, as functions.

  /** find_buffer: the first slot with this key, or |slots|. */
  function FindFrom(slots: seq<Slot>, key: Sector, i: nat): (r: nat)
    requires i <= |slots|
    ensures i <= r <= |slots| && (r < |slots| ==> slots[r].key == key)
    ensures forall j :: i <= j < r ==> slots[j].key != key
    decreases |slots| - i
  {
    if i == |slots| || slots[i].key == key then i else FindFrom(slots, key, i + 1)
  }

  /** list_del and list_add_tail. */
  function MoveToTail(lru: seq<nat>, x: nat): seq<nat> { Remove(lru, x) + [x] }

  function IsFree(slots: seq<Slot>, i: nat): bool { i < |slots| && slots[i].count == 0 }

  /** x in front of the first slot that is not free. */
  function InsertFree(lru: seq<nat>, slots: seq<Slot>, x: nat): seq<nat>
  {
    if lru == [] || !IsFree(slots, lru[0]) then [x] + lru else [lru[0]] + InsertFree(lru[1..], slots, x)
  }

  function Recycled(s: Slot, key: Sector): Slot
  {
    s.(key := key, count := s.count + 1, up2date := false, dirty := false)
  }

  /** The slot get_buffer will use for key, or None when it has to sleep. */
  function Choice(slots: seq<Slot>, lru: seq<nat>, key: Sector): Option<nat>
  {
    var i := FindFrom(slots, key, 0);
    if i < |slots| then Some(i)
    else if lru != [] && IsFree(slots, lru[0]) then Some(lru[0])
    else None
  }

  /** What get_buffer makes of the slot it uses. */
  function Taken(s: Slot, key: Sector): Slot { if s.key == key then s.(count := s.count + 1) else Recycled(s, key) }

  /** wake_up_all(&buffer_wait) */
  function Woken(pcs: map<nat, Pc>): map<nat, Pc>
  {
    map t | t in pcs :: if pcs[t].Asleep? then Want(pcs[t].key) else pcs[t]
  }

  // The steps of thread t.

  datatype Act =
    | Call(t: nat, key: Sector)
    | Lookup(t: nat)
    | Down(t: nat)
    | Check(t: nat)
    | Load(t: nat, ok: bool)
    | Store(t: nat, data: Data)
    | Release(t: nat)
    | SyncStart(t: nat)
    | SyncWrite(t: nat)
    | Leave(t: nat)
    | UpSem(t: nat)

  predicate Enabled(s: State, a: Act) {
    a.t in s.pcs &&
    var pc := s.pcs[a.t];
    match a
    case Call(_, key) => pc.Idle? && key.dev != 0
    case Lookup(_) => pc.Want?
    case Down(_) => pc.Wait? && pc.i < |s.slots| && s.slots[pc.i].holder == None
    case Check(_) => pc.Got? && pc.i < |s.slots|
    case Load(_, _) => pc.Loading? && pc.i < |s.slots|
    case Store(_, _) => pc.Hold? && pc.i < |s.slots|
    case Release(_) => (pc.Hold? || pc.Leaving?) && pc.i < |s.slots| && s.slots[pc.i].count > 0
    case SyncStart(_) => pc.Sync? && pc.i < |s.slots|
    case SyncWrite(_) => pc.Flush? && pc.i < |s.slots|
    case Leave(_) => pc.Drop? && pc.i < |s.slots| && s.slots[pc.i].count > 0
    case UpSem(_) => pc.Up? && pc.i < |s.slots|
  }

  /** Slot i becomes slot and thread t goes to pc. */
  function Put(s: State, i: nat, slot: Slot, t: nat, pc: Pc): State
    requires i < |s.slots|
  {
    s.(slots := s.slots[i := slot], pcs := s.pcs[t := pc])
  }

  function Next(s: State, a: Act): State
    requires Enabled(s, a)
  {
    var t, pc := a.t, s.pcs[a.t];
    match a
    case Call(_, key) => s.(pcs := s.pcs[t := Want(key)])
    case Lookup(_) =>
      var c := Choice(s.slots, s.lru, pc.key);
      if c.Some? && c.value < |s.slots| then
        Put(s, c.value, Taken(s.slots[c.value], pc.key), t, Wait(c.value, pc.key)).(lru := MoveToTail(s.lru, c.value))
      else s.(pcs := s.pcs[t := Asleep(pc.key)])
    case Down(_) => Put(s, pc.i, s.slots[pc.i].(holder := Some(t)), t, Got(pc.i, pc.key))
    case Check(_) => s.(pcs := s.pcs[t := if s.slots[pc.i].up2date then Hold(pc.i, pc.key) else Loading(pc.i, pc.key)])
    case Load(_, ok) =>
      if ok then Put(s, pc.i, s.slots[pc.i].(data := At(s.disk, s.slots[pc.i].key), up2date := true, dirty := false),
        t, Hold(pc.i, pc.key))
      else s.(pcs := s.pcs[t := Leaving(pc.i, pc.key)])
    case Store(_, data) => Put(s, pc.i, s.slots[pc.i].(data := data, dirty := true), t, pc)
    case Release(_) =>
      var slot := s.slots[pc.i];
      if slot.count == 1 then s.(pcs := s.pcs[t := Sync(pc.i, pc.key)])
      else Put(s, pc.i, slot.(count := slot.count - 1), t, Up(pc.i))
    case SyncStart(_) =>
      var slot := s.slots[pc.i];
      if slot.up2date && slot.dirty then Put(s, pc.i, slot.(dirty := false), t, Flush(pc.i, pc.key))
      else s.(pcs := s.pcs[t := Drop(pc.i, pc.key)])
    case SyncWrite(_) =>
      s.(disk := s.disk[s.slots[pc.i].key := s.slots[pc.i].data], pcs := s.pcs[t := Drop(pc.i, pc.key)])
    case Leave(_) =>
      var slot := s.slots[pc.i].(count := s.slots[pc.i].count - 1);
      var s' := Put(s, pc.i, slot, t, Up(pc.i));
      if slot.count == 0 then s'.(lru := InsertFree(Remove(s.lru, pc.i), s'.slots, pc.i), pcs := Woken(s'.pcs)) else s'
    case UpSem(_) => Put(s, pc.i, s.slots[pc.i].(holder := None), t, Idle)
  }

  /** The sectors as a plain store: only what holders store changes them. */
  function Ideal(ideal: map<Sector, Data>, s: State, a: Act): map<Sector, Data>
    requires Enabled(s, a)
  {
    if a.Store? then ideal[s.pcs[a.t].key := a.data] else ideal
  }

  // The invariant.

  function Users(pcs: map<nat, Pc>, i: nat): set<nat> { set t | t in pcs && UsedSlot(pcs[t]) == i }

  /** b_count is the number of threads that have counted themselves. */
  ghost predicate Counted(slots: seq<Slot>, pcs: map<nat, Pc>) {
    forall i: nat :: i < |slots| ==> slots[i].count == |Users(pcs, i)|
  }

  /** b_sem has one holder. */
  ghost predicate SemOk(slots: seq<Slot>, pcs: map<nat, Pc>) {
    && (forall t :: t in pcs && SemSlot(pcs[t]) >= 0 ==>
      SemSlot(pcs[t]) < |slots| && slots[SemSlot(pcs[t])].holder == Some(t))
    && (forall i :: 0 <= i < |slots| && slots[i].holder.Some? ==>
          slots[i].holder.value in pcs && SemSlot(pcs[slots[i].holder.value]) == i)
  }

  /** No sector has two slots. */
  ghost predicate UniqueKeys(slots: seq<Slot>) {
    forall i, j :: 0 <= i < j < |slots| && slots[i].key == slots[j].key ==> slots[i].key.dev == 0
  }

  /** What a thread may rely on about its slot. */
  ghost predicate PcOk(pc: Pc, slots: seq<Slot>) {
    && ((pc.Want? || pc.Asleep?) ==> pc.key.dev != 0)
    && (UsedSlot(pc) >= 0 ==> UsedSlot(pc) < |slots| && slots[UsedSlot(pc)].key == pc.key && pc.key.dev != 0)
    && (UsedSlot(pc) >= 0 && (pc.Hold? || pc.Flush?) ==> slots[UsedSlot(pc)].up2date)
    && (UsedSlot(pc) >= 0 && pc.Loading? ==> !slots[UsedSlot(pc)].up2date)
    && (UsedSlot(pc) >= 0 && (pc.Flush? || pc.Drop?) ==> !slots[UsedSlot(pc)].dirty)
  }

  ghost predicate PcsOk(slots: seq<Slot>, pcs: map<nat, Pc>) { forall t :: t in pcs ==> PcOk(pcs[t], slots) }

  /** A slot with valid data holds what was last stored; only slots in use are dirty. */
  ghost predicate SlotOk(s: Slot, ideal: map<Sector, Data>) {
    && (s.dirty ==> s.up2date && s.count > 0)
    && (s.up2date && s.key.dev != 0 ==> s.data == At(ideal, s.key))
  }

  ghost predicate SlotsOk(slots: seq<Slot>, ideal: map<Sector, Data>) {
    forall i :: 0 <= i < |slots| ==> SlotOk(slots[i], ideal)
  }

  predicate Flushing(s: Slot, pcs: map<nat, Pc>)
  {
    s.holder.Some? && s.holder.value in pcs && pcs[s.holder.value].Flush?
  }

  /** Slot i has data for k that has not reached the disk. */
  predicate Unsaved(slots: seq<Slot>, pcs: map<nat, Pc>, k: Sector, i: nat) {
    i < |slots| && slots[i].key == k && (slots[i].dirty || Flushing(slots[i], pcs))
  }

  ghost predicate Behind(slots: seq<Slot>, pcs: map<nat, Pc>, k: Sector) { exists i: nat :: Unsaved(slots, pcs, k, i) }

  ghost predicate DiskOk(slots: seq<Slot>, pcs: map<nat, Pc>, disk: map<Sector, Data>, ideal: map<Sector, Data>) {
    forall k: Sector :: k.dev != 0 ==> At(disk, k) == At(ideal, k) || Behind(slots, pcs, k)
  }

  predicate FreeFirst(slots: seq<Slot>, lru: seq<nat>) {
    lru == [] || (FreeFirst(slots, lru[1..]) && (IsFree(slots, lru[0]) || forall x :: x in lru ==> !IsFree(slots, x)))
  }

  /** lru holds every slot once, the free ones first. */
  ghost predicate LruOk(slots: seq<Slot>, lru: seq<nat>) {
    NoDup(lru) && FreeFirst(slots, lru) && forall i: nat :: i in lru <==> i < |slots|
  }

  ghost predicate AnyAsleep(pcs: map<nat, Pc>) { exists t :: t in pcs && pcs[t].Asleep? }

  /** A thread sleeps only while every slot is in use. */
  ghost predicate SleepOk(slots: seq<Slot>, pcs: map<nat, Pc>) {
    AnyAsleep(pcs) ==> forall i :: 0 <= i < |slots| ==> slots[i].count > 0
  }

  ghost predicate Inv(s: State, ideal: map<Sector, Data>) {
    && |s.slots| == NR_BH && Counted(s.slots, s.pcs) && SemOk(s.slots, s.pcs) && UniqueKeys(s.slots)
    && PcsOk(s.slots, s.pcs) && SlotsOk(s.slots, ideal) && DiskOk(s.slots, s.pcs, s.disk, ideal)
    && LruOk(s.slots, s.lru) && SleepOk(s.slots, s.pcs)
  }

  // Counting.

  lemma UsersSet(pcs: map<nat, Pc>, t: nat, pc: Pc, i: nat)
    requires t in pcs
    ensures |Users(pcs[t := pc], i)| ==
      |Users(pcs, i)| - (if UsedSlot(pcs[t]) == i then 1 else 0) + (if UsedSlot(pc) == i then 1 else 0)
  {
    var was, others := Users(pcs, i), Users(pcs, i) - {t};
    assert Users(pcs[t := pc], i) == if UsedSlot(pc) == i then others + {t} else others;
    if UsedSlot(pcs[t]) == i { assert was == others + {t}; } else { assert was == others; }
  }

  lemma CountedPut(slots: seq<Slot>, pcs: map<nat, Pc>, i: nat, slot: Slot, t: nat, pc: Pc)
    requires Counted(slots, pcs) && i < |slots| && t in pcs
    requires NoneBut(UsedSlot(pcs[t]), i) && NoneBut(UsedSlot(pc), i)
    requires slot.count == slots[i].count - (if UsedSlot(pcs[t]) == i then 1 else 0)
      + (if UsedSlot(pc) == i then 1 else 0)
    ensures Counted(slots[i := slot], pcs[t := pc])
  {
    hide Users, UsedSlot;
    var slots' := slots[i := slot];
    forall j: nat | j < |slots'| ensures slots'[j].count == |Users(pcs[t := pc], j)| { UsersSet(pcs, t, pc, j); }
  }

  lemma CountedGo(slots: seq<Slot>, pcs: map<nat, Pc>, t: nat, pc: Pc)
    requires Counted(slots, pcs) && t in pcs && UsedSlot(pcs[t]) == UsedSlot(pc)
    ensures Counted(slots, pcs[t := pc])
  {
    hide Users, UsedSlot;
    forall j: nat | j < |slots| ensures slots[j].count == |Users(pcs[t := pc], j)| { UsersSet(pcs, t, pc, j); }
  }

  lemma UserCounted(slots: seq<Slot>, pcs: map<nat, Pc>, t: nat, i: nat)
    requires Counted(slots, pcs) && t in pcs && UsedSlot(pcs[t]) == i && i < |slots|
    ensures slots[i].count > 0
  {
    assert t in Users(pcs, i);
  }

  // The parts of the invariant under a step of thread t that concerns slot i.

  lemma SemKept(slots: seq<Slot>, pcs: map<nat, Pc>, i: nat, slot: Slot, t: nat, pc: Pc)
    requires SemOk(slots, pcs) && i < |slots| && t in pcs && slot.holder == slots[i].holder
      && SemSlot(pc) == SemSlot(pcs[t])
    ensures SemOk(slots[i := slot], pcs[t := pc])
  {
    hide SemSlot;
  }

  lemma SemTaken(slots: seq<Slot>, pcs: map<nat, Pc>, i: nat, t: nat, pc: Pc)
    requires SemOk(slots, pcs) && i < |slots| && t in pcs && slots[i].holder == None
    requires SemSlot(pcs[t]) == -1 && SemSlot(pc) == i
    ensures SemOk(slots[i := slots[i].(holder := Some(t))], pcs[t := pc])
  {
    hide SemSlot;
  }

  lemma SemGiven(slots: seq<Slot>, pcs: map<nat, Pc>, i: nat, t: nat, pc: Pc)
    requires SemOk(slots, pcs) && i < |slots| && t in pcs && SemSlot(pcs[t]) == i && SemSlot(pc) == -1
    ensures SemOk(slots[i := slots[i].(holder := None)], pcs[t := pc])
  {
    hide SemSlot;
  }

  /** Only one thread has the semaphore of slot i. */
  lemma SoleHolder(slots: seq<Slot>, pcs: map<nat, Pc>, i: nat, t: nat)
    requires SemOk(slots, pcs) && i < |slots| && t in pcs && SemSlot(pcs[t]) == i
    ensures forall u :: u in pcs && u != t ==> SemSlot(pcs[u]) != i
    ensures slots[i].holder == Some(t)
  {
    hide SemSlot;
    assert slots[i].holder == Some(t);
  }

  /** What threads rely on stays when slot i keeps its key and only waits for the others, or looks the same to them. */
  lemma PcsPut(slots: seq<Slot>, pcs: map<nat, Pc>, i: nat, slot: Slot, t: nat, pc: Pc)
    requires PcsOk(slots, pcs) && i < |slots| && PcOk(pc, slots[i := slot])
    requires forall u :: u in pcs && u != t && UsedSlot(pcs[u]) == i ==>
      slot.key == slots[i].key && (pcs[u].Wait? || (slot.up2date == slots[i].up2date && slot.dirty == slots[i].dirty))
    ensures PcsOk(slots[i := slot], pcs[t := pc])
  {
    forall u | u in pcs && u != t ensures PcOk(pcs[u], slots[i := slot]) { assert PcOk(pcs[u], slots); }
  }

  /** Others who use slot i wait when t has its semaphore. */
  lemma OthersWait(slots: seq<Slot>, pcs: map<nat, Pc>, i: nat, t: nat)
    requires SemOk(slots, pcs) && i < |slots| && t in pcs && SemSlot(pcs[t]) == i
    ensures forall u :: u in pcs && u != t && UsedSlot(pcs[u]) == i ==> pcs[u].Wait?
  {
    SoleHolder(slots, pcs, i, t);
  }

  lemma PcsGo(slots: seq<Slot>, pcs: map<nat, Pc>, t: nat, pc: Pc)
    requires PcsOk(slots, pcs) && PcOk(pc, slots)
    ensures PcsOk(slots, pcs[t := pc])
  {
    hide PcOk;
  }

  lemma UniquePut(slots: seq<Slot>, i: nat, slot: Slot)
    requires UniqueKeys(slots) && i < |slots|
    requires slot.key == slots[i].key || forall j :: 0 <= j < |slots| ==> slots[j].key != slot.key
    ensures UniqueKeys(slots[i := slot])
  {
  }

  lemma SlotsPut(slots: seq<Slot>, ideal: map<Sector, Data>, i: nat, slot: Slot)
    requires SlotsOk(slots, ideal) && i < |slots| && SlotOk(slot, ideal)
    ensures SlotsOk(slots[i := slot], ideal)
  {
    hide SlotOk;
  }

  /** Unsaved data elsewhere is not affected by what t does at slot i. */
  lemma UnsavedElsewhere(slots: seq<Slot>, pcs: map<nat, Pc>, i: nat, slot: Slot, t: nat, pc: Pc, k: Sector, j: nat)
    requires SemOk(slots, pcs) && i < |slots| && t in pcs && NoneBut(SemSlot(pcs[t]), i) && j != i
    requires Unsaved(slots, pcs, k, j)
    ensures Unsaved(slots[i := slot], pcs[t := pc], k, j)
  {
    assert slots[j].holder != Some(t);
  }

  /** The disk lags only where it may, when slot i keeps what it has to save. */
  lemma DiskPut(slots: seq<Slot>, pcs: map<nat, Pc>, disk: map<Sector, Data>, ideal: map<Sector, Data>,
                i: nat, slot: Slot, t: nat, pc: Pc)
    requires DiskOk(slots, pcs, disk, ideal) && SemOk(slots, pcs) && i < |slots| && t in pcs
      && NoneBut(SemSlot(pcs[t]), i)
    requires forall k: Sector :: Unsaved(slots, pcs, k, i) ==> Unsaved(slots[i := slot], pcs[t := pc], k, i)
    ensures DiskOk(slots[i := slot], pcs[t := pc], disk, ideal)
  {
    forall k: Sector | Behind(slots, pcs, k) ensures Behind(slots[i := slot], pcs[t := pc], k) {
      var j: nat :| Unsaved(slots, pcs, k, j);
      if j != i {
        hide Unsaved;
        UnsavedElsewhere(slots, pcs, i, slot, t, pc, k, j);
      }
    }
    hide Behind;
  }

  lemma SleepPut(slots: seq<Slot>, pcs: map<nat, Pc>, i: nat, slot: Slot, t: nat, pc: Pc)
    requires SleepOk(slots, pcs) && i < |slots| && t in pcs && !pc.Asleep? && (slots[i].count > 0 ==> slot.count > 0)
    ensures SleepOk(slots[i := slot], pcs[t := pc])
  {
  }

  lemma SleepGo(slots: seq<Slot>, pcs: map<nat, Pc>, t: nat, pc: Pc)
    requires SleepOk(slots, pcs) && t in pcs
    requires pc.Asleep? ==> forall i :: 0 <= i < |slots| ==> slots[i].count > 0
    ensures SleepOk(slots, pcs[t := pc])
  {
  }

  lemma {:induction false} FreeFirstSame(slots: seq<Slot>, slots': seq<Slot>, lru: seq<nat>)
    requires FreeFirst(slots, lru) && forall x :: x in lru ==> IsFree(slots', x) == IsFree(slots, x)
    ensures FreeFirst(slots', lru)
  {
    if lru != [] { FreeFirstSame(slots, slots', lru[1..]); }
  }

  lemma LruPut(slots: seq<Slot>, lru: seq<nat>, i: nat, slot: Slot)
    requires LruOk(slots, lru) && i < |slots| && (slot.count == 0 <==> slots[i].count == 0)
    ensures LruOk(slots[i := slot], lru)
  {
    FreeFirstSame(slots, slots[i := slot], lru);
  }

  lemma {:induction false} RemovedFreeFirst(slots: seq<Slot>, lru: seq<nat>, x: nat)
    requires NoDup(lru) && FreeFirst(slots, lru)
    ensures FreeFirst(slots, Remove(lru, x))
  {
    if lru != [] && lru[0] != x {
      Removed(lru[1..], x);
      RemovedFreeFirst(slots, lru[1..], x);
      assert ([lru[0]] + Remove(lru[1..], x))[1..] == Remove(lru[1..], x);
    }
  }

  lemma {:induction false} AppendedFreeFirst(slots: seq<Slot>, lru: seq<nat>, x: nat)
    requires FreeFirst(slots, lru) && !IsFree(slots, x)
    ensures FreeFirst(slots, lru + [x])
  {
    if lru != [] {
      AppendedFreeFirst(slots, lru[1..], x);
      assert (lru + [x])[1..] == lru[1..] + [x];
    } else {
      assert [x][1..] == [];
    }
  }

  lemma {:induction false} Inserted(slots: seq<Slot>, lru: seq<nat>, x: nat)
    requires NoDup(lru) && FreeFirst(slots, lru) && x !in lru && IsFree(slots, x)
    ensures NoDup(InsertFree(lru, slots, x)) && FreeFirst(slots, InsertFree(lru, slots, x))
    ensures forall y :: y in InsertFree(lru, slots, x) <==> y in lru || y == x
  {
    var r := InsertFree(lru, slots, x);
    if lru == [] || !IsFree(slots, lru[0]) {
      assert r[1..] == lru;
    } else {
      Inserted(slots, lru[1..], x);
      assert r[1..] == InsertFree(lru[1..], slots, x);
    }
  }

  /** get_buffer: the slot in use goes to the end. */
  lemma LruTaken(slots: seq<Slot>, lru: seq<nat>, i: nat, slot: Slot)
    requires LruOk(slots, lru) && i < |slots| && slot.count > 0
    ensures LruOk(slots[i := slot], MoveToTail(lru, i))
  {
    Removed(lru, i);
    RemovedFreeFirst(slots, lru, i);
    FreeFirstSame(slots, slots[i := slot], Remove(lru, i));
    Appended(Remove(lru, i), i);
    AppendedFreeFirst(slots[i := slot], Remove(lru, i), i);
  }

  /** into_lru_list: the slot that became free goes behind the other free ones. */
  lemma LruFreed(slots: seq<Slot>, lru: seq<nat>, i: nat, slot: Slot)
    requires LruOk(slots, lru) && i < |slots| && slot.count == 0
    ensures LruOk(slots[i := slot], InsertFree(Remove(lru, i), slots[i := slot], i))
  {
    Removed(lru, i);
    RemovedFreeFirst(slots, lru, i);
    FreeFirstSame(slots, slots[i := slot], Remove(lru, i));
    Inserted(slots[i := slot], Remove(lru, i), i);
  }

  /** When the first slot of lru is in use, all are. */
  lemma AllBusy(slots: seq<Slot>, lru: seq<nat>)
    requires LruOk(slots, lru) && lru != [] && !IsFree(slots, lru[0])
    ensures forall i :: 0 <= i < |slots| ==> slots[i].count > 0
  {
    forall i: nat | i < |slots| ensures slots[i].count > 0 { assert i in lru && !IsFree(slots, i); }
  }

  // Each step keeps the invariant.

  ghost predicate Kept(s: State, ideal: map<Sector, Data>, a: Act)
    requires Enabled(s, a)
  {
    Inv(Next(s, a), Ideal(ideal, s, a))
  }

  lemma UnsavedGo(slots: seq<Slot>, pcs: map<nat, Pc>, disk: map<Sector, Data>, ideal: map<Sector, Data>, t: nat,
                  pc: Pc)
    requires DiskOk(slots, pcs, disk, ideal) && t in pcs && (pcs[t].Flush? ==> pc.Flush?)
    ensures DiskOk(slots, pcs[t := pc], disk, ideal)
  {
    forall k: Sector | Behind(slots, pcs, k) ensures Behind(slots, pcs[t := pc], k) {
      var j: nat :| Unsaved(slots, pcs, k, j);
      assert Unsaved(slots, pcs[t := pc], k, j);
    }
    hide Behind;
  }

  lemma SemGo(slots: seq<Slot>, pcs: map<nat, Pc>, t: nat, pc: Pc)
    requires SemOk(slots, pcs) && t in pcs && SemSlot(pc) == SemSlot(pcs[t])
    ensures SemOk(slots, pcs[t := pc])
  {
    hide SemSlot;
  }

  /** A step that moves only the thread. */
  lemma GoKeeps(s: State, ideal: map<Sector, Data>, t: nat, pc: Pc)
    requires Inv(s, ideal) && t in s.pcs && UsedSlot(pc) == UsedSlot(s.pcs[t]) && SemSlot(pc) == SemSlot(s.pcs[t])
    requires PcOk(pc, s.slots) && (s.pcs[t].Flush? ==> pc.Flush?)
    requires pc.Asleep? ==> forall i :: 0 <= i < |s.slots| ==> s.slots[i].count > 0
    ensures Inv(s.(pcs := s.pcs[t := pc]), ideal)
  {
    hide Counted, SemOk, UniqueKeys, PcsOk, SlotsOk, DiskOk, LruOk, SleepOk, PcOk, UsedSlot, SemSlot;
    CountedGo(s.slots, s.pcs, t, pc);
    SemGo(s.slots, s.pcs, t, pc);
    PcsGo(s.slots, s.pcs, t, pc);
    UnsavedGo(s.slots, s.pcs, s.disk, ideal, t, pc);
    SleepGo(s.slots, s.pcs, t, pc);
  }

  /** What is known of the slot of a thread that has its semaphore. */
  lemma HolderFacts(s: State, ideal: map<Sector, Data>, t: nat)
    requires Inv(s, ideal) && t in s.pcs && SemSlot(s.pcs[t]) >= 0
    ensures SemSlot(s.pcs[t]) < |s.slots| && s.slots[SemSlot(s.pcs[t])].holder == Some(t)
    ensures PcOk(s.pcs[t], s.slots) && SlotOk(s.slots[SemSlot(s.pcs[t])], ideal)
    ensures forall u :: u in s.pcs && u != t && UsedSlot(s.pcs[u]) == SemSlot(s.pcs[t]) ==> s.pcs[u].Wait?
    ensures UsedSlot(s.pcs[t]) >= 0 ==> s.slots[SemSlot(s.pcs[t])].count > 0
  {
    hide UniqueKeys, DiskOk, LruOk, SleepOk;
    OthersWait(s.slots, s.pcs, SemSlot(s.pcs[t]), t);
    if UsedSlot(s.pcs[t]) >= 0 { UserCounted(s.slots, s.pcs, t, UsedSlot(s.pcs[t])); }
    hide SemOk, Counted;
  }

  /** A step of t on a slot whose semaphore it has and keeps, and which stays in use. */
  lemma HolderKeeps(s: State, ideal: map<Sector, Data>, t: nat, i: nat, slot: Slot, pc: Pc)
    requires Inv(s, ideal) && t in s.pcs && SemSlot(s.pcs[t]) == i == SemSlot(pc) && i < |s.slots|
    requires UsedSlot(s.pcs[t]) == i && NoneBut(UsedSlot(pc), i)
    requires slot.holder == s.slots[i].holder && slot.key == s.slots[i].key && slot.count > 0
    requires slot.count == s.slots[i].count - (if UsedSlot(pc) == i then 0 else 1)
    requires PcOk(pc, s.slots[i := slot]) && SlotOk(slot, ideal)
    requires forall k: Sector :: Unsaved(s.slots, s.pcs, k, i) ==> Unsaved(s.slots[i := slot], s.pcs[t := pc], k, i)
    ensures Inv(Put(s, i, slot, t, pc), ideal)
  {
    HolderFacts(s, ideal, t);
    hide Counted, SemOk, UniqueKeys, PcsOk, SlotsOk, DiskOk, LruOk, SleepOk, PcOk, SlotOk, Unsaved;
    CountedPut(s.slots, s.pcs, i, slot, t, pc);
    SemKept(s.slots, s.pcs, i, slot, t, pc);
    UniquePut(s.slots, i, slot);
    PcsPut(s.slots, s.pcs, i, slot, t, pc);
    SlotsPut(s.slots, ideal, i, slot);
    DiskPut(s.slots, s.pcs, s.disk, ideal, i, slot, t, pc);
    LruPut(s.slots, s.lru, i, slot);
    SleepPut(s.slots, s.pcs, i, slot, t, pc);
  }

  lemma CallKeeps(s: State, ideal: map<Sector, Data>, a: Act)
    requires Inv(s, ideal) && Enabled(s, a) && a.Call?
    ensures Kept(s, ideal, a)
  {
    hide Inv;
    GoKeeps(s, ideal, a.t, Want(a.key));
  }

  /** A slot that is free has nothing to save, nor users. */
  lemma FreeSlot(s: State, ideal: map<Sector, Data>, i: nat)
    requires Inv(s, ideal) && i < |s.slots| && s.slots[i].count == 0
    ensures !s.slots[i].dirty && !Flushing(s.slots[i], s.pcs)
    ensures forall u :: u in s.pcs ==> UsedSlot(s.pcs[u]) != i
  {
    hide UniqueKeys, DiskOk, LruOk, SleepOk;
    assert SlotOk(s.slots[i], ideal);
    assert forall u :: u in s.pcs && UsedSlot(s.pcs[u]) == i ==> u in Users(s.pcs, i);
    hide Counted, PcsOk, SlotsOk;
  }

  lemma LookupKeeps(s: State, ideal: map<Sector, Data>, a: Act)
    requires Inv(s, ideal) && Enabled(s, a) && a.Lookup?
    ensures Kept(s, ideal, a)
  {
    var t, key := a.t, s.pcs[a.t].key;
    var c := Choice(s.slots, s.lru, key);
    assert PcOk(s.pcs[t], s.slots);
    if c.Some? {
      assert c.value < |s.slots|;
      TakeKeeps(s, ideal, t, key, c.value);
    } else {
      assert 0 in s.lru;
      AllBusy(s.slots, s.lru);
      hide Inv;
      GoKeeps(s, ideal, t, Asleep(key));
    }
  }

  lemma TakeKeeps(s: State, ideal: map<Sector, Data>, t: nat, key: Sector, i: nat)
    requires Inv(s, ideal) && t in s.pcs && s.pcs[t].Want? && key == s.pcs[t].key && key.dev != 0
    requires Choice(s.slots, s.lru, key) == Some(i) && i < |s.slots|
    ensures Inv(Put(s, i, Taken(s.slots[i], key), t, Wait(i, key)).(lru := MoveToTail(s.lru, i)), ideal)
  {
    var old_, slot, pc := s.slots[i], Taken(s.slots[i], key), Wait(i, key);
    assert SlotOk(old_, ideal);
    if old_.key != key { FreeSlot(s, ideal, i); }
    hide Counted, SemOk, UniqueKeys, PcsOk, SlotsOk, DiskOk, LruOk, SleepOk;
    CountedPut(s.slots, s.pcs, i, slot, t, pc);
    SemKept(s.slots, s.pcs, i, slot, t, pc);
    UniquePut(s.slots, i, slot);
    PcsPut(s.slots, s.pcs, i, slot, t, pc);
    SlotsPut(s.slots, ideal, i, slot);
    LruTaken(s.slots, s.lru, i, slot);
    SleepPut(s.slots, s.pcs, i, slot, t, pc);
    forall k: Sector | Unsaved(s.slots, s.pcs, k, i) ensures Unsaved(s.slots[i := slot], s.pcs[t := pc], k, i) {}
    DiskPut(s.slots, s.pcs, s.disk, ideal, i, slot, t, pc);
  }

  lemma DownKeeps(s: State, ideal: map<Sector, Data>, a: Act)
    requires Inv(s, ideal) && Enabled(s, a) && a.Down?
    ensures Kept(s, ideal, a)
  {
    var t, i, key := a.t, s.pcs[a.t].i, s.pcs[a.t].key;
    var slot, pc := s.slots[i].(holder := Some(t)), Got(i, key);
    assert PcOk(s.pcs[t], s.slots) && SlotOk(s.slots[i], ideal);
    hide Counted, SemOk, UniqueKeys, PcsOk, SlotsOk, DiskOk, LruOk, SleepOk;
    CountedPut(s.slots, s.pcs, i, slot, t, pc);
    SemTaken(s.slots, s.pcs, i, t, pc);
    UniquePut(s.slots, i, slot);
    PcsPut(s.slots, s.pcs, i, slot, t, pc);
    SlotsPut(s.slots, ideal, i, slot);
    LruPut(s.slots, s.lru, i, slot);
    SleepPut(s.slots, s.pcs, i, slot, t, pc);
    DiskPut(s.slots, s.pcs, s.disk, ideal, i, slot, t, pc);
  }

  lemma CheckKeeps(s: State, ideal: map<Sector, Data>, a: Act)
    requires Inv(s, ideal) && Enabled(s, a) && a.Check?
    ensures Kept(s, ideal, a)
  {
    HolderFacts(s, ideal, a.t);
    hide Inv;
    var pc := s.pcs[a.t];
    GoKeeps(s, ideal, a.t, if s.slots[pc.i].up2date then Hold(pc.i, pc.key) else Loading(pc.i, pc.key));
  }

  /** The disk holds the sector of a slot that is neither dirty nor being written. */
  lemma DiskHolds(s: State, ideal: map<Sector, Data>, i: nat)
    requires Inv(s, ideal) && i < |s.slots| && s.slots[i].key.dev != 0
    requires !s.slots[i].dirty && !Flushing(s.slots[i], s.pcs)
    ensures At(s.disk, s.slots[i].key) == At(ideal, s.slots[i].key)
  {
    hide Counted, SemOk, PcsOk, SlotsOk, LruOk, SleepOk;
    assert forall j: nat :: Unsaved(s.slots, s.pcs, s.slots[i].key, j) ==> j == i;
  }

  lemma LoadKeeps(s: State, ideal: map<Sector, Data>, a: Act)
    requires Inv(s, ideal) && Enabled(s, a) && a.Load?
    ensures Kept(s, ideal, a)
  {
    HolderFacts(s, ideal, a.t);
    var i, key := s.pcs[a.t].i, s.pcs[a.t].key;
    if a.ok { DiskHolds(s, ideal, i); }
    hide Inv;
    if a.ok {
      var slot := s.slots[i].(data := At(s.disk, key), up2date := true, dirty := false);
      HolderKeeps(s, ideal, a.t, i, slot, Hold(i, key));
    } else {
      GoKeeps(s, ideal, a.t, Leaving(i, key));
    }
  }

  lemma ReleaseKeeps(s: State, ideal: map<Sector, Data>, a: Act)
    requires Inv(s, ideal) && Enabled(s, a) && a.Release?
    ensures Kept(s, ideal, a)
  {
    HolderFacts(s, ideal, a.t);
    hide Inv;
    var i, key := s.pcs[a.t].i, s.pcs[a.t].key;
    if s.slots[i].count == 1 {
      GoKeeps(s, ideal, a.t, Sync(i, key));
    } else {
      HolderKeeps(s, ideal, a.t, i, s.slots[i].(count := s.slots[i].count - 1), Up(i));
    }
  }

  lemma SyncStartKeeps(s: State, ideal: map<Sector, Data>, a: Act)
    requires Inv(s, ideal) && Enabled(s, a) && a.SyncStart?
    ensures Kept(s, ideal, a)
  {
    HolderFacts(s, ideal, a.t);
    hide Inv;
    var i, key := s.pcs[a.t].i, s.pcs[a.t].key;
    if s.slots[i].up2date && s.slots[i].dirty {
      HolderKeeps(s, ideal, a.t, i, s.slots[i].(dirty := false), Flush(i, key));
    } else {
      GoKeeps(s, ideal, a.t, Drop(i, key));
    }
  }

  lemma StoreKeeps(s: State, ideal: map<Sector, Data>, a: Act)
    requires Inv(s, ideal) && Enabled(s, a) && a.Store?
    ensures Kept(s, ideal, a)
  {
    HolderFacts(s, ideal, a.t);
    var i, pc := s.pcs[a.t].i, s.pcs[a.t];
    var slot, ideal' := s.slots[i].(data := a.data, dirty := true), ideal[pc.key := a.data];
    hide Counted, SemOk, PcsOk, LruOk, SleepOk;
    forall j: nat | j < |s.slots| && j != i ensures SlotOk(s.slots[j], ideal') {
      assert SlotOk(s.slots[j], ideal);
      assert s.slots[j].key != pc.key;
    }
    hide UniqueKeys, DiskOk;
    CountedPut(s.slots, s.pcs, i, slot, a.t, pc);
    StoredSem(s.slots, s.pcs, i, slot, a.t);
    UniquePut(s.slots, i, slot);
    PcsPut(s.slots, s.pcs, i, slot, a.t, pc);
    LruPut(s.slots, s.lru, i, slot);
    SleepPut(s.slots, s.pcs, i, slot, a.t, pc);
    StoredDisk(s.slots, s.pcs, s.disk, ideal, i, slot, a.t, pc.key, a.data);
  }

  lemma StoredSem(slots: seq<Slot>, pcs: map<nat, Pc>, i: nat, slot: Slot, t: nat)
    requires SemOk(slots, pcs) && i < |slots| && t in pcs && slot.holder == slots[i].holder
    ensures SemOk(slots[i := slot], pcs[t := pcs[t]])
  {
    SemKept(slots, pcs, i, slot, t, pcs[t]);
  }

  /** What is stored goes to disk later: the slot is dirty. */
  lemma StoredDisk(slots: seq<Slot>, pcs: map<nat, Pc>, disk: map<Sector, Data>, ideal: map<Sector, Data>,
                   i: nat, slot: Slot, t: nat, key: Sector, data: Data)
    requires DiskOk(slots, pcs, disk, ideal) && SemOk(slots, pcs) && i < |slots| && t in pcs && SemSlot(pcs[t]) == i
    requires slot == slots[i].(data := data, dirty := true) && slot.key == key
    ensures DiskOk(slots[i := slot], pcs[t := pcs[t]], disk, ideal[key := data])
  {
    var slots' := slots[i := slot];
    DiskPut(slots, pcs, disk, ideal, i, slot, t, pcs[t]);
    assert Unsaved(slots', pcs[t := pcs[t]], key, i);
  }

  lemma SyncWriteKeeps(s: State, ideal: map<Sector, Data>, a: Act)
    requires Inv(s, ideal) && Enabled(s, a) && a.SyncWrite?
    ensures Kept(s, ideal, a)
  {
    HolderFacts(s, ideal, a.t);
    var i, key, pc := s.pcs[a.t].i, s.pcs[a.t].key, Drop(s.pcs[a.t].i, s.pcs[a.t].key);
    WrittenDisk(s.slots, s.pcs, s.disk, ideal, i, a.t, pc);
    hide Counted, SemOk, UniqueKeys, PcsOk, SlotsOk, DiskOk, LruOk, SleepOk, UsedSlot, SemSlot;
    CountedGo(s.slots, s.pcs, a.t, pc);
    SemGo(s.slots, s.pcs, a.t, pc);
    PcsGo(s.slots, s.pcs, a.t, pc);
    SleepGo(s.slots, s.pcs, a.t, pc);
  }

  lemma WrittenDisk(slots: seq<Slot>, pcs: map<nat, Pc>, disk: map<Sector, Data>, ideal: map<Sector, Data>,
                    i: nat, t: nat, pc: Pc)
    requires DiskOk(slots, pcs, disk, ideal) && SemOk(slots, pcs) && i < |slots| && t in pcs && SemSlot(pcs[t]) == i
    requires slots[i].data == At(ideal, slots[i].key)
    ensures DiskOk(slots, pcs[t := pc], disk[slots[i].key := slots[i].data], ideal)
  {
    var pcs' := pcs[t := pc];
    forall k: Sector | k != slots[i].key && Behind(slots, pcs, k) ensures Behind(slots, pcs', k) {
      var j: nat :| Unsaved(slots, pcs, k, j);
      hide Unsaved;
      assert slots[j := slots[j]] == slots;
      UnsavedAtOther(slots, pcs, i, t, pc, k, j);
    }
    hide Behind;
  }

  lemma UnsavedAtOther(slots: seq<Slot>, pcs: map<nat, Pc>, i: nat, t: nat, pc: Pc, k: Sector, j: nat)
    requires SemOk(slots, pcs) && i < |slots| && t in pcs && SemSlot(pcs[t]) == i
    requires Unsaved(slots, pcs, k, j) && slots[i].key != k
    ensures Unsaved(slots, pcs[t := pc], k, j)
  {
    assert slots[j].holder != Some(t);
  }

  /** A sleeper that wakes tries again; nothing else depends on it. */
  lemma WokenKeeps(s: State, ideal: map<Sector, Data>)
    requires Inv(s, ideal)
    ensures Inv(s.(pcs := Woken(s.pcs)), ideal) && !AnyAsleep(Woken(s.pcs))
  {
    var pcs' := Woken(s.pcs);
    forall i: nat | i < |s.slots| ensures Users(pcs', i) == Users(s.pcs, i) {}
    forall t | t in pcs' ensures PcOk(pcs'[t], s.slots) { assert PcOk(s.pcs[t], s.slots); }
    WokenDisk(s.slots, s.pcs, s.disk, ideal);
    hide Users, PcOk, UniqueKeys, DiskOk, LruOk, SlotsOk;
  }

  lemma WokenDisk(slots: seq<Slot>, pcs: map<nat, Pc>, disk: map<Sector, Data>, ideal: map<Sector, Data>)
    requires DiskOk(slots, pcs, disk, ideal)
    ensures DiskOk(slots, Woken(pcs), disk, ideal)
  {
    forall k: Sector | Behind(slots, pcs, k) ensures Behind(slots, Woken(pcs), k) {
      var j: nat :| Unsaved(slots, pcs, k, j);
      assert Unsaved(slots, Woken(pcs), k, j);
    }
    hide Behind;
  }

  lemma LeaveKeeps(s: State, ideal: map<Sector, Data>, a: Act)
    requires Inv(s, ideal) && Enabled(s, a) && a.Leave?
    ensures Kept(s, ideal, a)
  {
    hide Inv, Woken;
    HolderFacts(s, ideal, a.t);
    var i := s.pcs[a.t].i;
    if s.slots[i].count > 1 {
      HolderKeeps(s, ideal, a.t, i, s.slots[i].(count := s.slots[i].count - 1), Up(i));
    } else {
      WokenKeeps(s, ideal);
      WokenPut(s.pcs, a.t, Up(i));
      FreedKeeps(s.(pcs := Woken(s.pcs)), ideal, a.t, i);
    }
  }

  lemma WokenPut(pcs: map<nat, Pc>, t: nat, pc: Pc)
    requires t in pcs && !pcs[t].Asleep? && !pc.Asleep?
    ensures t in Woken(pcs) && Woken(pcs)[t] == pcs[t] && Woken(pcs[t := pc]) == Woken(pcs)[t := pc]
  {
  }

  /** The last user leaves: the slot is free, its data is on disk, and no one sleeps. */
  lemma FreedKeeps(s: State, ideal: map<Sector, Data>, t: nat, i: nat)
    requires Inv(s, ideal) && t in s.pcs && s.pcs[t].Drop? && s.pcs[t].i == i < |s.slots| && s.slots[i].count == 1
    requires !AnyAsleep(s.pcs)
    ensures var slot := s.slots[i].(count := 0);
      Inv(Put(s, i, slot, t, Up(i)).(lru := InsertFree(Remove(s.lru, i), s.slots[i := slot], i)), ideal)
  {
    HolderFacts(s, ideal, t);
    var slot, pc := s.slots[i].(count := 0), Up(i);
    assert !AnyAsleep(s.pcs[t := pc]) by {
      assert forall u :: u in s.pcs[t := pc] && s.pcs[t := pc][u].Asleep? ==> u in s.pcs && s.pcs[u].Asleep?;
    }
    hide Counted, SemOk, UniqueKeys, PcsOk, SlotsOk, DiskOk, LruOk, AnyAsleep;
    CountedPut(s.slots, s.pcs, i, slot, t, pc);
    SemKept(s.slots, s.pcs, i, slot, t, pc);
    UniquePut(s.slots, i, slot);
    PcsPut(s.slots, s.pcs, i, slot, t, pc);
    SlotsPut(s.slots, ideal, i, slot);
    LruFreed(s.slots, s.lru, i, slot);
    DiskPut(s.slots, s.pcs, s.disk, ideal, i, slot, t, pc);
  }

  lemma UpSemKeeps(s: State, ideal: map<Sector, Data>, a: Act)
    requires Inv(s, ideal) && Enabled(s, a) && a.UpSem?
    ensures Kept(s, ideal, a)
  {
    HolderFacts(s, ideal, a.t);
    var i := s.pcs[a.t].i;
    var slot := s.slots[i].(holder := None);
    hide Counted, SemOk, UniqueKeys, PcsOk, SlotsOk, DiskOk, LruOk, SleepOk;
    CountedPut(s.slots, s.pcs, i, slot, a.t, Idle);
    SemGiven(s.slots, s.pcs, i, a.t, Idle);
    UniquePut(s.slots, i, slot);
    PcsPut(s.slots, s.pcs, i, slot, a.t, Idle);
    SlotsPut(s.slots, ideal, i, slot);
    LruPut(s.slots, s.lru, i, slot);
    SleepPut(s.slots, s.pcs, i, slot, a.t, Idle);
    DiskPut(s.slots, s.pcs, s.disk, ideal, i, slot, a.t, Idle);
  }

  lemma StepKeeps(s: State, ideal: map<Sector, Data>, a: Act)
    requires Inv(s, ideal) && Enabled(s, a)
    ensures Kept(s, ideal, a)
  {
    hide Inv;
    match a
    case Call(_, _) => CallKeeps(s, ideal, a);
    case Lookup(_) => LookupKeeps(s, ideal, a);
    case Down(_) => DownKeeps(s, ideal, a);
    case Check(_) => CheckKeeps(s, ideal, a);
    case Load(_, _) => LoadKeeps(s, ideal, a);
    case Store(_, _) => StoreKeeps(s, ideal, a);
    case Release(_) => ReleaseKeeps(s, ideal, a);
    case SyncStart(_) => SyncStartKeeps(s, ideal, a);
    case SyncWrite(_) => SyncWriteKeeps(s, ideal, a);
    case Leave(_) => LeaveKeeps(s, ideal, a);
    case UpSem(_) => UpSemKeeps(s, ideal, a);
  }

  // Whole runs, from buffer_init on.

  function Init(lru: seq<nat>, threads: set<nat>, disk: map<Sector, Data>): State
  {
    State(seq(NR_BH, _ => Slot(Sector(0, 0), 0, false, false, 0, None)), lru, map t | t in threads :: Idle, disk)
  }

  /** A run of enabled steps, with the plain store beside it. */
  ghost predicate Reaches(s: State, ideal: map<Sector, Data>, acts: seq<Act>, s': State, ideal': map<Sector, Data>)
    decreases |acts|
  {
    if acts == [] then s' == s && ideal' == ideal
    else Enabled(s, acts[0]) && Reaches(Next(s, acts[0]), Ideal(ideal, s, acts[0]), acts[1..], s', ideal')
  }

  lemma {:induction false} RunKeeps(s: State, ideal: map<Sector, Data>, acts: seq<Act>, s': State,
                                    ideal': map<Sector, Data>)
    requires Inv(s, ideal) && Reaches(s, ideal, acts, s', ideal')
    ensures Inv(s', ideal')
    decreases |acts|
  {
    if acts != [] {
      StepKeeps(s, ideal, acts[0]);
      RunKeeps(Next(s, acts[0]), Ideal(ideal, s, acts[0]), acts[1..], s', ideal');
    }
  }

  lemma InitOk(lru: seq<nat>, threads: set<nat>, disk: map<Sector, Data>)
    requires NoDup(lru) && forall i: nat :: i in lru <==> i < NR_BH
    ensures Inv(Init(lru, threads, disk), disk)
  {
    var s := Init(lru, threads, disk);
    forall i: nat | i < NR_BH ensures Users(s.pcs, i) == {} {}
    AllFree(s.slots, lru);
    hide FreeFirst, NoDup;
  }

  lemma {:induction false} AllFree(slots: seq<Slot>, lru: seq<nat>)
    requires forall x :: x in lru ==> IsFree(slots, x)
    ensures FreeFirst(slots, lru)
  {
    if lru != [] { AllFree(slots, lru[1..]); }
  }

  /** A thread that holds a buffer sees the sector it asked for as last stored, and no one else holds that sector. */
  lemma HoldersSeeLatest(s: State, ideal: map<Sector, Data>, t: nat)
    requires Inv(s, ideal) && t in s.pcs && s.pcs[t].Hold?
    ensures s.pcs[t].i < |s.slots| && s.slots[s.pcs[t].i].data == At(ideal, s.pcs[t].key)
    ensures forall u :: u in s.pcs && u != t && s.pcs[u].Hold? ==> s.pcs[u].key != s.pcs[t].key
  {
    HolderFacts(s, ideal, t);
    forall u | u in s.pcs && u != t && s.pcs[u].Hold? ensures s.pcs[u].key != s.pcs[t].key {
      HolderFacts(s, ideal, u);
      SoleHolder(s.slots, s.pcs, s.pcs[t].i, t);
    }
  }

  /** bread returns what an earlier holder stored last, or else what the disk had, in every interleaving. */
  lemma ReadsLatest(lru: seq<nat>, threads: set<nat>, disk: map<Sector, Data>, acts: seq<Act>,
                    s: State, ideal: map<Sector, Data>, a: Act)
    requires NoDup(lru) && forall i: nat :: i in lru <==> i < NR_BH
    requires Reaches(Init(lru, threads, disk), disk, acts, s, ideal) && Enabled(s, a) && (a.Check? || a.Load?)
    requires Next(s, a).pcs[a.t].Hold?
    ensures var s' := Next(s, a);
      s'.pcs[a.t].key == s.pcs[a.t].key && s'.pcs[a.t].i < |s'.slots|
      && s'.slots[s'.pcs[a.t].i].data == At(ideal, s.pcs[a.t].key)
  {
    hide Inv;
    InitOk(lru, threads, disk);
    RunKeeps(Init(lru, threads, disk), disk, acts, s, ideal);
    StepKeeps(s, ideal, a);
    HoldersSeeLatest(Next(s, a), ideal, a.t);
  }

  /** When no thread is inside, every stored sector is on disk. */
  lemma QuietDiskIsCurrent(s: State, ideal: map<Sector, Data>, k: Sector)
    requires Inv(s, ideal) && k.dev != 0 && forall t :: t in s.pcs ==> s.pcs[t].Idle?
    ensures At(s.disk, k) == At(ideal, k)
  {
    hide UniqueKeys, PcsOk, LruOk, SleepOk;
    forall i: nat | i < |s.slots| ensures !Unsaved(s.slots, s.pcs, k, i) {
      assert SlotOk(s.slots[i], ideal) && Users(s.pcs, i) == {};
    }
    hide Unsaved, Counted, SemOk, SlotsOk;
  }

  /** A slot that get_buffer may recycle has reached the disk. */
  lemma RecycledIsSaved(s: State, ideal: map<Sector, Data>, i: nat)
    requires Inv(s, ideal) && i < |s.slots| && s.slots[i].count == 0 && s.slots[i].key.dev != 0
    ensures At(s.disk, s.slots[i].key) == At(ideal, s.slots[i].key) && !s.slots[i].dirty
  {
    hide Inv;
    FreeSlot(s, ideal, i);
    DiskHolds(s, ideal, i);
  }

  /** A thread in get_buffer goes to sleep exactly when its sector has no slot and every slot is in use. */
  lemma SleepsOnlyWhenFull(s: State, ideal: map<Sector, Data>, a: Act)
    requires Inv(s, ideal) && Enabled(s, a) && a.Lookup?
    ensures Next(s, a).pcs[a.t].Asleep? <==>
      forall i :: 0 <= i < |s.slots| ==> s.slots[i].count > 0 && s.slots[i].key != s.pcs[a.t].key
  {
    assert LruOk(s.slots, s.lru) && 0 in s.lru;
    hide Inv, LruOk;
    var c := Choice(s.slots, s.lru, s.pcs[a.t].key);
    if c == None { AllBusy(s.slots, s.lru); }
  }

  /** No step of the run stores into sector k. */
  ghost predicate Unstored(s: State, acts: seq<Act>, k: Sector)
    decreases |acts|
  {
    acts == [] || (
      && Enabled(s, acts[0]) && (acts[0].Store? ==> s.pcs[acts[0].t].key != k)
      && Unstored(Next(s, acts[0]), acts[1..], k))
  }

  lemma {:induction false} UnstoredSame(s: State, ideal: map<Sector, Data>, acts: seq<Act>, s': State,
                                        ideal': map<Sector, Data>, k: Sector)
    requires Reaches(s, ideal, acts, s', ideal') && Unstored(s, acts, k)
    ensures k in ideal' <==> k in ideal
    ensures k in ideal ==> ideal'[k] == ideal[k]
    decreases |acts|
  {
    if acts != [] { UnstoredSame(Next(s, acts[0]), Ideal(ideal, s, acts[0]), acts[1..], s', ideal', k); }
  }

  lemma SlotsStay(s: State, ideal: map<Sector, Data>)
    requires Inv(s, ideal)
    ensures |s.slots| == NR_BH
  {
  }

  /** What a thread stored is what every later bread of the sector finds, until some thread stores there again. */
  lemma StoredIsRead(s: State, ideal: map<Sector, Data>, store: Act, acts: seq<Act>, s': State,
                     ideal': map<Sector, Data>, a: Act)
    requires Inv(s, ideal) && Enabled(s, store) && store.Store?
    requires Reaches(Next(s, store), Ideal(ideal, s, store), acts, s', ideal')
    requires Unstored(Next(s, store), acts, s.pcs[store.t].key)
    requires Enabled(s', a) && (a.Check? || a.Load?) && s'.pcs[a.t].key == s.pcs[store.t].key
    requires Next(s', a).pcs[a.t].Hold?
    ensures Next(s', a).pcs[a.t].i < NR_BH && |Next(s', a).slots| == NR_BH
    ensures Next(s', a).slots[Next(s', a).pcs[a.t].i].data == store.data
  {
    hide Inv;
    StepKeeps(s, ideal, store);
    RunKeeps(Next(s, store), Ideal(ideal, s, store), acts, s', ideal');
    UnstoredSame(Next(s, store), Ideal(ideal, s, store), acts, s', ideal', s.pcs[store.t].key);
    StepKeeps(s', ideal', a);
    SlotsStay(Next(s', a), ideal');
    HoldersSeeLatest(Next(s', a), ideal', a.t);
  }

  /** In a run that never stores into a sector, every bread of it finds what the disk had at the start. */
  lemma UntouchedIsRead(lru: seq<nat>, threads: set<nat>, disk: map<Sector, Data>, acts: seq<Act>, s: State,
                        ideal: map<Sector, Data>, a: Act)
    requires NoDup(lru) && forall i: nat :: i in lru <==> i < NR_BH
    requires Reaches(Init(lru, threads, disk), disk, acts, s, ideal) && Enabled(s, a) && (a.Check? || a.Load?)
    requires Unstored(Init(lru, threads, disk), acts, s.pcs[a.t].key) && s.pcs[a.t].key in disk
    requires Next(s, a).pcs[a.t].Hold?
    ensures var s' := Next(s, a);
      s'.pcs[a.t].i < |s'.slots| && s'.slots[s'.pcs[a.t].i].data == disk[s.pcs[a.t].key]
  {
    ReadsLatest(lru, threads, disk, acts, s, ideal, a);
    UnstoredSame(Init(lru, threads, disk), disk, acts, s, ideal, s.pcs[a.t].key);
  }

  lemma {:induction false} DiskStays(s: State, ideal: map<Sector, Data>, acts: seq<Act>, s': State,
                                     ideal': map<Sector, Data>, k: Sector)
    requires Reaches(s, ideal, acts, s', ideal') && k in s.disk
    ensures k in s'.disk
    decreases |acts|
  {
    if acts != [] { DiskStays(Next(s, acts[0]), Ideal(ideal, s, acts[0]), acts[1..], s', ideal', k); }
  }

  /** Once every thread is outside again, what was stored last in a sector is what the disk has there. */
  lemma StoredIsSaved(s: State, ideal: map<Sector, Data>, store: Act, acts: seq<Act>, s': State,
                      ideal': map<Sector, Data>)
    requires Inv(s, ideal) && Enabled(s, store) && store.Store?
    requires Reaches(Next(s, store), Ideal(ideal, s, store), acts, s', ideal')
    requires Unstored(Next(s, store), acts, s.pcs[store.t].key)
    requires s.pcs[store.t].key in s.disk && forall t :: t in s'.pcs ==> s'.pcs[t].Idle?
    ensures s.pcs[store.t].key in s'.disk && s'.disk[s.pcs[store.t].key] == store.data
  {
    var k := s.pcs[store.t].key;
    HolderFacts(s, ideal, store.t);
    StepKeeps(s, ideal, store);
    RunKeeps(Next(s, store), Ideal(ideal, s, store), acts, s', ideal');
    UnstoredSame(Next(s, store), Ideal(ideal, s, store), acts, s', ideal', k);
    DiskStays(Next(s, store), Ideal(ideal, s, store), acts, s', ideal', k);
    hide Inv;
    QuietDiskIsCurrent(s', ideal', k);
  }

  /** With no slot for the sector, get_buffer recycles the slot at the head, which has been free for longest. */
  lemma RecyclesOldest(slots: seq<Slot>, lru: seq<nat>, key: Sector)
    requires LruOk(slots, lru) && lru != [] && forall j :: 0 <= j < |slots| ==> slots[j].key != key
    ensures Choice(slots, lru, key) == Some(lru[0]) <==> exists j: nat :: j < |slots| && slots[j].count == 0
    ensures Choice(slots, lru, key) == None <==> forall j :: 0 <= j < |slots| ==> slots[j].count > 0
  {
    assert lru[0] in lru;
    if !IsFree(slots, lru[0]) { AllBusy(slots, lru); }
  }

  /** A used slot moves behind all others, which keep their order. */
  lemma {:induction false} MovedToTail(p: seq<nat>, x: nat, q: seq<nat>)
    requires x !in p
    ensures MoveToTail(p + [x] + q, x) == p + q + [x]
  {
    RemovedHere(p, x, q);
  }

  lemma {:induction false} RemovedHere(p: seq<nat>, x: nat, q: seq<nat>)
    requires x !in p
    ensures Remove(p + [x] + q, x) == p + q
  {
    var all := p + [x] + q;
    if p != [] {
      assert all[0] == p[0] && all[1..] == p[1..] + [x] + q;
      RemovedHere(p[1..], x, q);
      assert p == [p[0]] + p[1..];
    }
  }

  /** A freed slot goes behind the free ones and in front of those in use, which keep their order. */
  lemma {:induction false} FreedGoesBehindFree(slots: seq<Slot>, free: seq<nat>, busy: seq<nat>, x: nat)
    requires forall j :: 0 <= j < |free| ==> free[j] < |slots| && slots[free[j]].count == 0
    requires busy != [] ==> busy[0] < |slots| && slots[busy[0]].count > 0
    ensures InsertFree(free + busy, slots, x) == free + [x] + busy
  {
    if free == [] {
      assert free + busy == busy;
    } else {
      var lru := free + busy;
      assert lru[0] == free[0] && lru[1..] == free[1..] + busy;
      assert free == [free[0]] + free[1..];
      FreedGoesBehindFree(slots, free[1..], busy, x);
    }
  }

  // The sections under buffer_lock, in place; what they compute are the functions of the steps above.

  /** list_add_tail in front of y: x goes before the first y, or to the end. */
  function InsertBefore(lru: seq<nat>, y: Option<nat>, x: nat): seq<nat>
  {
    if lru == [] || y == Some(lru[0]) then [x] + lru else [lru[0]] + InsertBefore(lru[1..], y, x)
  }

  /** y is the first slot of lru in use. */
  predicate FirstBusy(slots: seq<Slot>, lru: seq<nat>, y: Option<nat>) {
    if lru == [] then y == None
    else if IsFree(slots, lru[0]) then y != Some(lru[0]) && FirstBusy(slots, lru[1..], y)
    else y == Some(lru[0])
  }

  lemma {:induction false} FirstBusyRemoved(slots: seq<Slot>, lru: seq<nat>, y: Option<nat>, x: nat)
    requires FirstBusy(slots, lru, y) && IsFree(slots, x)
    ensures FirstBusy(slots, Remove(lru, x), y)
  {
    if lru != [] && lru[0] != x && IsFree(slots, lru[0]) {
      FirstBusyRemoved(slots, lru[1..], y, x);
      assert Remove(lru, x)[1..] == Remove(lru[1..], x);
    }
  }

  lemma {:induction false} InsertBeforeBusy(slots: seq<Slot>, lru: seq<nat>, y: Option<nat>, x: nat)
    requires FirstBusy(slots, lru, y)
    ensures InsertBefore(lru, y, x) == InsertFree(lru, slots, x)
  {
    if lru != [] && IsFree(slots, lru[0]) { InsertBeforeBusy(slots, lru[1..], y, x); }
  }

  lemma {:induction false} ScannedFree(slots: seq<Slot>, lru: seq<nat>, k: nat)
    requires k <= |lru| && (k < |lru| ==> !IsFree(slots, lru[k])) && forall j :: 0 <= j < k ==> IsFree(slots, lru[j])
    ensures FirstBusy(slots, lru, if k < |lru| then Some(lru[k]) else None)
  {
    if k > 0 {
      assert lru[1..][k - 1..] == lru[k..];
      ScannedFree(slots, lru[1..], k - 1);
    }
  }

  class Buffers {
    var all: array<Slot>
    var lru: seq<nat>

    ghost predicate Valid()
      reads this, all
    {
      all.Length == NR_BH && LruOk(all[..], lru)
    }

    /** find_buffer: the slot of this sector, counted, or NR_BH. */
    method FindBuffer(key: Sector) returns (res: nat)
      requires all.Length == NR_BH
      modifies all
      ensures res == FindFrom(old(all[..]), key, 0)
      ensures all[..] == if res < NR_BH then old(all[..])[res := Taken(old(all[..])[res], key)] else old(all[..])
    {
      ghost var slots := all[..];
      res := 0;
      while res < NR_BH
        invariant res <= NR_BH && all[..] == slots && FindFrom(slots, key, res) == FindFrom(slots, key, 0)
      {
        if all[res].key == key {
          all[res] := all[res].(count := all[res].count + 1);
          return;
        }
        res := res + 1;
      }
    }

    /** The locked part of get_buffer: the slot to use, or None when the caller has to sleep. */
    method GetBuffer(key: Sector) returns (c: Option<nat>)
      requires Valid()
      modifies this`lru, all
      ensures Valid() && c == Choice(old(all[..]), old(lru), key)
      ensures c.Some? ==> c.value < NR_BH && all[..] == old(all[..])[c.value := Taken(old(all[..])[c.value], key)]
      ensures c.Some? ==> lru == MoveToTail(old(lru), c.value)
      ensures c.None? ==> all[..] == old(all[..]) && lru == old(lru)
    {
      ghost var slots := all[..];
      assert 0 in lru;
      var i := FindBuffer(key);
      if i == NR_BH {
        assert lru[0] in lru;
        i := lru[0];
        if all[i].count > 0 { return None; }
        all[i] := all[i].(count := all[i].count + 1, key := key);
        all[i] := all[i].(dirty := false);
        all[i] := all[i].(up2date := false);
      }
      LruTaken(slots, lru, i, all[i]);
      assert all[..] == slots[i := all[i]];
      lru := MoveToTail(lru, i);
      c := Some(i);
    }

    /** into_lru_list: bh, just freed, becomes the last free one. */
    method IntoLruList(i: nat)
      requires i < all.Length && all[i].count == 0
      requires forall x :: x in lru ==> x < all.Length
      modifies this`lru
      ensures lru == InsertFree(Remove(old(lru), i), all[..], i)
    {
      var k := 0;
      while k < |lru|
        invariant k <= |lru| && lru == old(lru) && forall j :: 0 <= j < k ==> IsFree(all[..], lru[j])
      {
        assert lru[k] in lru;
        if all[lru[k]].count > 0 { break; }
        k := k + 1;
      }
      ghost var slots := all[..];
      assert k < |lru| ==> lru[k] in lru;
      ScannedFree(slots, lru, k);
      var pos := if k < |lru| then Some(lru[k]) else None;
      FirstBusyRemoved(slots, lru, pos, i);
      InsertBeforeBusy(slots, Remove(lru, i), pos, i);
      lru := InsertBefore(Remove(lru, i), pos, i);
    }

    /** The first locked part of brelse: the last user keeps its count while it flushes. */
    method BrelseFirst(i: nat) returns (sync: bool)
      requires Valid() && i < NR_BH && all[i].count > 0
      modifies all
      ensures Valid() && sync == (old(all[i].count) == 1)
      ensures all[..] == if sync then old(all[..]) else old(all[..])[i := old(all[i]).(count := old(all[i].count) - 1)]
    {
      ghost var slots := all[..];
      sync := false;
      all[i] := all[i].(count := all[i].count - 1);
      if all[i].count == 0 {
        all[i] := all[i].(count := 1);
        sync := true;
      }
      LruPut(slots, lru, i, all[i]);
      assert all[..] == slots[i := all[i]];
      assert sync ==> all[i] == slots[i];
    }

    /** The second locked part of brelse; the caller wakes the sleepers when the slot became free. */
    method BrelseLast(i: nat) returns (freed: bool)
      requires Valid() && i < NR_BH && all[i].count > 0
      modifies this`lru, all
      ensures Valid() && freed == (old(all[i].count) == 1)
      ensures all[..] == old(all[..])[i := old(all[i]).(count := old(all[i].count) - 1)]
      ensures lru == if freed then InsertFree(Remove(old(lru), i), all[..], i) else old(lru)
    {
      ghost var slots := all[..];
      all[i] := all[i].(count := all[i].count - 1);
      assert all[..] == slots[i := all[i]];
      freed := all[i].count == 0;
      if freed {
        LruFreed(slots, lru, i, all[i]);
        IntoLruList(i);
      } else {
        LruPut(slots, lru, i, all[i]);
      }
    }
  }
}

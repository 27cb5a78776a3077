/** src/mm/mm.c, src/mm/uaccess.c and the stack growth of src/mm/fault.c: one process's address space. */
module AddressSpaces {
  import opened Lists
  import opened VmaLists

  /** PAGE_ALIGN on a 32-bit word. */
  function PageAlign(x: nat): nat { (x + PAGE_SIZE - 1) % W32 / PAGE_SIZE * PAGE_SIZE }

  lemma PageAlignIs(x: nat)
    requires x < W32
    ensures x <= W32 - PAGE_SIZE ==> x <= PageAlign(x) < x + PAGE_SIZE && PageAligned(PageAlign(x))
    ensures x > W32 - PAGE_SIZE ==> PageAlign(x) == 0
  {
  }

  const EBADF: int := 9
  const ENOMEM: int := 12
  const EACCES: int := 13
  const EFAULT: int := 14
  const ENODEV: int := 19
  const EINVAL: int := 22
  const EROFS: int := 30
  const MAP_SHARED: nat := 1
  const MAP_PRIVATE: nat := 2
  const NR_OPEN: nat := 256

  datatype Prot = Prot(read: bool, write: bool, exec: bool)

  /** The flags argument of mmap; kind is its MAP_TYPE field. */
  datatype MapFlags = MapFlags(kind: nat, fixed: bool, anonymous: bool, growsDown: bool)

  /** An open file as mmap sees it: access mode, driver operations and file system. */
  datatype OpenFile = OpenFile(id: nat, readable: bool, writable: bool, mmapOp: bool, regular: bool, readPageOp: bool,
                               writeOp: bool, readOnlyFs: bool)

  function FileOf(flags: MapFlags, fd: nat, files: map<nat, OpenFile>): Option<OpenFile>
  {
    if !flags.anonymous && fd < NR_OPEN && fd in files then Some(files[fd]) else None
  }

  predicate DriverAccepts(file: OpenFile, flags: Flags) {
    file.regular && file.readPageOp && (flags.shared && flags.write ==> file.writeOp && !file.readOnlyFs)
  }

  /** What do_mmap demands of its arguments; off matters only for a file. */
  predicate Acceptable(addr: nat, len: nat, prot: Prot, flags: MapFlags, fd: nat, files: map<nat, OpenFile>, off: nat) {
    && (if flags.anonymous then fd == W32 - 1 else fd < NR_OPEN && fd in files)
    && 0 < PageAlign(len) && addr + PageAlign(len) <= KERNEL_BASE
    && (flags.fixed ==> PageAligned(addr))
    && (flags.kind == MAP_SHARED || flags.kind == MAP_PRIVATE)
    && (!flags.anonymous ==>
          && files[fd].mmapOp && PageAligned(off) && off + PageAlign(len) < W32
          && files[fd].readable && (flags.kind == MAP_SHARED && prot.write ==> files[fd].writable))
  }

  /** The file's driver does not refuse the mapping. */
  predicate Backable(prot: Prot, flags: MapFlags, file: Option<OpenFile>) {
    file.Some? ==> DriverAccepts(file.value, VmaFlags(prot, flags))
  }

  function VmaFlags(prot: Prot, flags: MapFlags): Flags
  {
    Flags(prot.read, prot.write, prot.exec, flags.kind == MAP_SHARED, flags.growsDown)
  }

  function AllocVma(addr: nat, len: nat, prot: Prot, flags: MapFlags, off: nat, file: Option<OpenFile>): Vma
  {
    Vma(addr, addr + len, VmaFlags(prot, flags), None, if file.Some? then off else 0)
  }

  function Backed(vma: Vma, file: Option<OpenFile>): Vma
  {
    vma.(file := if file.Some? then Some(file.value.id) else None)
  }

  /** The mapping that mmap promises at base. */
  function NewVma(base: nat, len: nat, prot: Prot, flags: MapFlags, off: nat, file: Option<OpenFile>): Vma
  {
    Backed(AllocVma(base, PageAlign(len), prot, flags, off, file), file)
  }

  /** The address map of t is that of s, overridden by v. */
  ghost predicate Overridden(s: seq<Vma>, t: seq<Vma>, v: Vma) {
    forall a: nat :: CellAt(t, a) == if Contains(v, a) then Some(CellOf(v, a)) else CellAt(s, a)
  }

  ghost predicate HasFree(s: seq<Vma>, hint: nat, len: nat) { exists a: nat :: LowestFree(s, hint, len, a) }

  /** base is the lowest address from the hint on with len free bytes behind it. */
  ghost predicate LowestFree(s: seq<Vma>, hint: nat, len: nat, base: nat) {
    && hint <= base && base + len <= KERNEL_BASE && PageAligned(base) && FreeRange(s, base, len)
    && forall a: nat :: hint <= a < base ==> !FreeRange(s, a, len)
  }

  function Max(x: nat, y: nat): nat { if x > y then x else y }

  /** vma may be put at index i of the list. */
  ghost predicate FitsAt(s: seq<Vma>, v: Vma, i: nat) {
    && i <= |s|
    && (forall j :: 0 <= j < i ==> s[j].end <= v.start)
    && (forall j :: i <= j < |s| ==> v.end <= s[j].start)
  }

  lemma Inserted(s: seq<Vma>, v: Vma, i: nat)
    requires Sorted(s) && WellFormed(v) && FitsAt(s, v, i)
    ensures var t := s[..i] + [v] + s[i..];
      && Sorted(t) && (forall u :: u in t <==> u in s || u == v)
      && (forall a: nat :: CellAt(t, a) == if Contains(v, a) then Some(CellOf(v, a)) else CellAt(s, a))
      && (forall f :: Naming(t, f) == Naming(s, f) + Names(v.file, f))
  {
    var t := s[..i] + [v] + s[i..];
    assert s == s[..i] + s[i..];
    assert forall u :: u in t <==> u in s || u == v;
    assert Sorted(t);
    forall a: nat ensures CellAt(t, a) == if Contains(v, a) then Some(CellOf(v, a)) else CellAt(s, a) {
      if Contains(v, a) { CellInside(t, v, a); } else { SameCell(t, s, a); }
    }
    forall f ensures Naming(t, f) == Naming(s, f) + Names(v.file, f) {
      NamingConcat(s[..i] + [v], s[i..], f);
      NamingConcat(s[..i], [v], f);
      assert [v][1..] == [];
      NamingConcat(s[..i], s[i..], f);
    }
  }

  predicate Overlaps(v: Vma, lo: nat, hi: nat) { lo < v.end && v.start < hi }

  /** The VMAs of s that do not overlap [lo, hi), in order. */
  function Kept(s: seq<Vma>, lo: nat, hi: nat): seq<Vma>
  {
    if s == [] then []
    else if Overlaps(s[|s| - 1], lo, hi) then Kept(s[..|s| - 1], lo, hi)
    else Kept(s[..|s| - 1], lo, hi) + [s[|s| - 1]]
  }

  /** The VMAs of s that overlap [lo, hi), the last one first. */
  function Unlinked(s: seq<Vma>, lo: nat, hi: nat): seq<Vma>
  {
    if s == [] then []
    else if Overlaps(s[|s| - 1], lo, hi) then [s[|s| - 1]] + Unlinked(s[..|s| - 1], lo, hi)
    else Unlinked(s[..|s| - 1], lo, hi)
  }

  lemma UnlinkStep(s: seq<Vma>, v: Vma, lo: nat, hi: nat)
    ensures Kept(s + [v], lo, hi) == Kept(s, lo, hi) + if Overlaps(v, lo, hi) then [] else [v]
    ensures Unlinked(s + [v], lo, hi) == (if Overlaps(v, lo, hi) then [v] else []) + Unlinked(s, lo, hi)
  {
    assert (s + [v])[..|s|] == s;
  }

  /** Every VMA is kept or unlinked, each once. */
  lemma {:induction false} UnlinkedParts(s: seq<Vma>, lo: nat, hi: nat)
    ensures forall v :: v in Kept(s, lo, hi) <==> v in s && !Overlaps(v, lo, hi)
    ensures forall v :: v in Unlinked(s, lo, hi) <==> v in s && Overlaps(v, lo, hi)
    ensures forall f: nat :: Naming(Kept(s, lo, hi), f) + Naming(Unlinked(s, lo, hi), f) == Naming(s, f)
  {
    if s != [] {
      var s', last := s[..|s| - 1], s[|s| - 1];
      assert s == s' + [last];
      UnlinkedParts(s', lo, hi);
      UnlinkStep(s', last, lo, hi);
      hide Naming, Kept, Unlinked, Overlaps;
      forall f: nat ensures Naming(Kept(s, lo, hi), f) + Naming(Unlinked(s, lo, hi), f) == Naming(s, f) {
        NamingConcat(s', [last], f);
        NamingConcat(Kept(s', lo, hi), [last], f);
        NamingConcat([last], Unlinked(s', lo, hi), f);
      }
    }
  }

  lemma {:induction false} UnlinkedOnce(s: seq<Vma>, lo: nat, hi: nat)
    requires Sorted(s)
    ensures Sorted(Kept(s, lo, hi))
    ensures var r := Unlinked(s, lo, hi); forall k, l :: 0 <= k < l < |r| ==> r[k] != r[l]
  {
    if s != [] {
      var s', last := s[..|s| - 1], s[|s| - 1];
      assert s == s' + [last];
      UnlinkedOnce(s', lo, hi);
      UnlinkStep(s', last, lo, hi);
      UnlinkedParts(s', lo, hi);
      hide Kept, Unlinked, Overlaps;
      assert WellFormed(last);
      forall v | v in s' ensures v.end <= last.start && v != last {}
    }
  }

  /** When no VMA from j on overlaps the range, the loop may stop there. */
  lemma {:induction false} NoneLeft(s: seq<Vma>, j: nat, lo: nat, hi: nat)
    requires j <= |s| && forall k :: j <= k < |s| ==> !Overlaps(s[k], lo, hi)
    ensures Kept(s, lo, hi) == Kept(s[..j], lo, hi) + s[j..] && Unlinked(s, lo, hi) == Unlinked(s[..j], lo, hi)
    decreases |s|
  {
    if j < |s| {
      NoneLeft(s[..|s| - 1], j, lo, hi);
      UnlinkStep(s[..|s| - 1], s[|s| - 1], lo, hi);
      assert s == s[..|s| - 1] + [s[|s| - 1]];
      hide Kept, Unlinked;
      assert s[..|s| - 1][..j] == s[..j];
      assert s[j..] == s[..|s| - 1][j..] + [s[|s| - 1]];
    } else {
      assert s[..j] == s;
    }
  }

  /** The unlinking loop has seen the first j VMAs of s and kept i of them. */
  ghost predicate Unlinking(s: seq<Vma>, mmap: seq<Vma>, free: seq<Vma>, i: nat, j: nat, lo: nat, hi: nat) {
    && j <= |s| && i == |Kept(s[..j], lo, hi)|
    && mmap == Kept(s[..j], lo, hi) + s[j..] && free == Unlinked(s[..j], lo, hi)
  }

  lemma UnlinkingStart(s: seq<Vma>, lo: nat, hi: nat)
    ensures Unlinking(s, s, [], 0, 0, lo, hi)
  {
    assert s[..0] == [] && Kept([], lo, hi) == [] == Unlinked([], lo, hi);
  }

  lemma UnlinkingNext(s: seq<Vma>, mmap: seq<Vma>, free: seq<Vma>, i: nat, j: nat, lo: nat, hi: nat)
    requires Unlinking(s, mmap, free, i, j, lo, hi)
    ensures j <= |s| && |mmap| == i + |s| - j
    ensures j < |s| ==> mmap[i] == s[j]
    ensures j < |s| && !Overlaps(s[j], lo, hi) ==> Unlinking(s, mmap, free, i + 1, j + 1, lo, hi)
    ensures j < |s| && Overlaps(s[j], lo, hi) ==>
      Unlinking(s, mmap[..i] + mmap[i + 1..], [s[j]] + free, i, j + 1, lo, hi)
  {
    if j < |s| {
      var v := s[j];
      UnlinkStep(s[..j], v, lo, hi);
      hide Kept, Unlinked;
      assert s[..j + 1] == s[..j] + [v] && s[j..] == [v] + s[j + 1..];
      if Overlaps(v, lo, hi) {
        assert mmap[..i] == Kept(s[..j], lo, hi) && mmap[i + 1..] == s[j + 1..];
      }
    }
  }

  lemma UnlinkingDone(s: seq<Vma>, mmap: seq<Vma>, free: seq<Vma>, i: nat, j: nat, lo: nat, hi: nat)
    requires Sorted(s) && lo < hi && Unlinking(s, mmap, free, i, j, lo, hi) && (j < |s| ==> hi <= s[j].start)
    ensures mmap == Kept(s, lo, hi) && free == Unlinked(s, lo, hi)
  {
    forall k | j <= k < |s| ensures !Overlaps(s[k], lo, hi) {
      assert k == j || (WellFormed(s[j]) && s[j].end <= s[k].start);
    }
    NoneLeft(s, j, lo, hi);
  }

  /** Two VMAs of a sorted list are the same one or apart. */
  lemma SortedApart(s: seq<Vma>, u: Vma, v: Vma)
    requires Sorted(s) && u in s && v in s
    ensures u == v || Apart(u, v)
  {
    var i, j :| 0 <= i < |s| && 0 <= j < |s| && s[i] == u && s[j] == v;
  }

  class AddressSpace {
    var mmap: seq<Vma>
    var refs: map<nat, int>  // per file, the references it holds

    ghost predicate Valid()
      reads this
    {
      Sorted(mmap)
    }

    function RefCount(f: nat): int
      reads this`refs
    {
      if f in refs then refs[f] else 0
    }

    /** References to f beyond one per VMA naming it. */
    ghost function Surplus(f: nat): int
      reads this
    {
      RefCount(f) - Naming(mmap, f)
    }

    method Fref(file: Option<nat>)
      modifies this`refs
      ensures forall f: nat :: RefCount(f) == old(RefCount(f)) + Names(file, f)
    {
      if file.Some? { refs := refs[file.value := RefCount(file.value) + 1]; }
    }

    method PutFile(file: Option<nat>)
      modifies this`refs
      ensures forall f: nat :: RefCount(f) == old(RefCount(f)) - Names(file, f)
    {
      if file.Some? { refs := refs[file.value := RefCount(file.value) - 1]; }
    }

    /** Puts vma into the sorted list; the order asserts hold because it overlaps no other VMA. */
    method InsertVmStruct(vma: Vma)
      requires Valid() && WellFormed(vma) && forall v :: v in mmap ==> Apart(v, vma)
      modifies this`mmap
      ensures Valid() && forall v :: v in mmap <==> v in old(mmap) || v == vma
      ensures forall a: nat :: CellAt(mmap, a) == if Contains(vma, a) then Some(CellOf(vma, a))
        else CellAt(old(mmap), a)
      ensures forall f :: Naming(mmap, f) == Naming(old(mmap), f) + Names(vma.file, f)
    {
      var i := 0;
      while i < |mmap|
        invariant i <= |mmap| && mmap == old(mmap)
        invariant forall j :: 0 <= j < i ==> mmap[j].end <= vma.start
      {
        var mpnt := mmap[i];
        assert mpnt in mmap;
        if mpnt.start > vma.start {
          assert mpnt.start >= vma.end;
          break;
        }
        assert mpnt.end <= vma.start;
        i := i + 1;
      }
      Inserted(mmap, vma, i);
      mmap := mmap[..i] + [vma] + mmap[i..];
    }

    /** Puts back the parts of the unlinked VMA outside [addr, addr + len). */
    method UnmapFixup(vma: Vma, addr: nat, len: nat)
      requires Valid() && WellFormed(vma) && forall v :: v in mmap ==> Apart(v, vma)
      requires PageAligned(addr) && PageAligned(addr + len) && vma.start <= addr < addr + len <= vma.end
      modifies this
      ensures Valid() && forall v :: v in mmap <==> v in old(mmap) || v in Rest(vma, addr, addr + len)
      ensures forall f: nat :: Surplus(f) == old(Surplus(f)) - Names(vma.file, f)
    {
      hide CellAt;
      var end := addr + len;
      if addr == vma.start && end == vma.end {
        PutFile(vma.file);
        return;
      }
      var vma' := vma;
      if end == vma.end {
        vma' := vma.(end := addr);
      } else if addr == vma.start {
        vma' := vma.(offset := (vma.offset + (end - vma.start)) % W32, start := end);
      } else {
        var mpnt := vma.(offset := (vma.offset + (end - vma.start)) % W32, start := end);
        Fref(mpnt.file);
        vma' := vma.(end := addr);
        InsertVmStruct(mpnt);
      }
      Fref(vma'.file);
      InsertVmStruct(vma');
      PutFile(vma'.file);
    }

    /** The first loop of do_munmap: unlinks every VMA overlapping [lo, hi). */
    method UnlinkOverlapping(lo: nat, hi: nat) returns (free: seq<Vma>)
      requires Valid() && lo < hi
      modifies this`mmap
      ensures mmap == Kept(old(mmap), lo, hi) && free == Unlinked(old(mmap), lo, hi)
    {
      hide Kept, Unlinked, Unlinking;
      free := [];
      var i := 0;
      ghost var s, j := mmap, 0;
      UnlinkingStart(s, lo, hi);
      UnlinkingNext(s, mmap, free, i, j, lo, hi);
      while i < |mmap|
        invariant i <= |mmap| && Unlinking(s, mmap, free, i, j, lo, hi)
        decreases |mmap| - i
      {
        UnlinkingNext(s, mmap, free, i, j, lo, hi);
        var vma := mmap[i];
        if vma.start >= hi { break; }
        if vma.end <= lo {
          i := i + 1;
        } else {
          mmap := mmap[..i] + mmap[i + 1..];
          free := [vma] + free;
        }
        j := j + 1;
        UnlinkingNext(s, mmap, free, i, j, lo, hi);
      }
      UnlinkingNext(s, mmap, free, i, j, lo, hi);
      UnlinkingDone(s, mmap, free, i, j, lo, hi);
    }

    /** The second loop of do_munmap: puts back what each unlinked VMA had outside [lo, hi). */
    method RelinkParts(unlinked: seq<Vma>, lo: nat, hi: nat, ghost s: seq<Vma>)
      requires Valid() && Sorted(s) && PageAligned(lo) && PageAligned(hi) && lo < hi
      requires forall v :: v in mmap <==> v in s && !Overlaps(v, lo, hi)
      requires forall v :: v in unlinked <==> v in s && Overlaps(v, lo, hi)
      requires forall k, l :: 0 <= k < l < |unlinked| ==> unlinked[k] != unlinked[l]
      modifies this
      ensures Valid() && forall v :: v in mmap <==> exists w :: w in s && v in Rest(w, lo, hi)
      ensures forall f: nat :: Surplus(f) == old(Surplus(f)) - Naming(unlinked, f)
    {
      hide CellAt;
      var free, k := unlinked, 0;
      while free != []
        invariant k <= |unlinked| && free == unlinked[k..] && Valid()
        invariant forall u :: u in mmap <==> RestOfSome(s, unlinked[..k], u, lo, hi)
        invariant forall f: nat :: Surplus(f) - Naming(free, f) == old(Surplus(f)) - Naming(unlinked, f)
        decreases |free|
      {
        var vma := free[0];
        assert vma == unlinked[k] && vma in s && unlinked[..k + 1] == unlinked[..k] + [vma];
        free := free[1..];
        var start, end := Max(lo, vma.start), Min(hi, vma.end);
        forall v | v in mmap ensures Apart(v, vma) {
          RestOfSomeApart(s, unlinked, k, v, lo, hi);
        }
        UnmapFixup(vma, start, end - start);
        assert Rest(vma, start, end) == Rest(vma, lo, hi);
        RestOfSomeMore(s, unlinked[..k], vma, lo, hi);
        k := k + 1;
      }
      assert unlinked[..k] == unlinked;
      assert forall v :: RestOfSome(s, unlinked, v, lo, hi) <==> exists w :: w in s && v in Rest(w, lo, hi);
    }

    /** do_munmap: the address map keeps exactly what lies outside the range. */
    method DoMunmap(addr: nat, len: nat) returns (result: int)
      requires Valid() && addr < W32 && len < W32
      modifies this
      ensures result == if !PageAligned(addr) || addr > KERNEL_BASE || len > KERNEL_BASE - addr then -EINVAL else 0
      ensures Valid() && (result != 0 ==> mmap == old(mmap))
      ensures result == 0 ==> forall a: nat ::
        CellAt(mmap, a) == if addr <= a < addr + PageAlign(len) then None else CellAt(old(mmap), a)
      ensures result == 0 ==> Unmapped(old(mmap), mmap, addr, addr + PageAlign(len))
      ensures forall f: nat :: Surplus(f) == old(Surplus(f))
    {
      hide CellAt, Rest, Naming, Overlaps, Kept, Unlinked;
      if !PageAligned(addr) || addr > KERNEL_BASE || len > KERNEL_BASE - addr { return -EINVAL; }
      var len' := PageAlign(len);
      if len' == 0 { return 0; }
      var hi := addr + len';
      var free := UnlinkOverlapping(addr, hi);
      UnlinkedParts(old(mmap), addr, hi);
      UnlinkedOnce(old(mmap), addr, hi);
      RelinkParts(free, addr, hi, old(mmap));
      RestrictedView(old(mmap), mmap, addr, hi);
      return 0;
    }

    /** merge_mmap: neighbours that differ in nothing but their bounds become one. */
    method MergeMmap()
      requires Valid()
      modifies this`mmap
      ensures Valid() && SameView(old(mmap), mmap)
      ensures forall k :: 0 < k < |mmap| && mmap[k - 1].end == mmap[k].start && mmap[k - 1].flags == mmap[k].flags ==>
        mmap[k].flags.shared || mmap[k - 1].file.Some? || mmap[k].file.Some?
      ensures forall f: nat :: Naming(mmap, f) == Naming(old(mmap), f)
    {
      hide CellAt, Naming, Contains;
      var i := 0;
      while i + 1 < |mmap|
        invariant |mmap| == 0 || i < |mmap|
        invariant Valid() && SameView(old(mmap), mmap)
        invariant forall k :: 0 < k <= i < |mmap| ==> !Mergeable(mmap[k - 1], mmap[k])
        invariant forall f: nat :: Naming(mmap, f) == Naming(old(mmap), f)
        decreases |mmap| - i
      {
        var p1, p2 := mmap[i], mmap[i + 1];
        if Mergeable(p1, p2) {
          MergedView(mmap, i);
          mmap := mmap[..i] + [p1.(end := p2.end)] + mmap[i + 2..];
        } else {
          i := i + 1;
        }
      }
    }

    /** find_vma: the first VMA that ends behind addr. */
    method FindVma(addr: nat) returns (i: nat)
      requires Valid()
      ensures i <= |mmap| && (i < |mmap| ==> addr < mmap[i].end)
      ensures forall k :: 0 <= k < i ==> mmap[k].end <= addr
    {
      i := 0;
      while i < |mmap|
        invariant i <= |mmap| && forall k :: 0 <= k < i ==> mmap[k].end <= addr
      {
        if mmap[i].end > addr { return; }
        i := i + 1;
      }
    }

    /** The lowest address from the hint on that has len free bytes in user space, or 0 when there is none. */
    method GetUnmappedAreaLocked(hint: nat, len: nat) returns (result: nat)
      requires Valid() && hint <= KERNEL_BASE && 0 < len
      ensures result != 0 ==> LowestFree(mmap, Hint(hint), len, result)
      ensures result == 0 ==> !HasFree(mmap, Hint(hint), len)
      ensures result == 0 ==> forall a: nat :: Hint(hint) <= a && a + len <= KERNEL_BASE ==> !FreeRange(mmap, a, len)
    {
      hide CellAt, FreeRange;
      result := 0;
      if len > KERNEL_BASE { return; }
      var addr := Hint(hint);
      var i := 0;
      while true
        invariant i <= |mmap| && Hint(hint) <= addr && PageAligned(addr)
        invariant forall k :: 0 <= k < i ==> mmap[k].end <= addr
        invariant forall a: nat :: Hint(hint) <= a < addr ==> !FreeRange(mmap, a, len)
        decreases |mmap| - i
      {
        if KERNEL_BASE - len < addr { return; }
        if i == |mmap| {
          result := addr;
          FreeRangeApart(mmap, addr, len);
          return;
        }
        var vma := mmap[i];
        assert WellFormed(vma);
        if addr > vma.end {
          i := i + 1;
          continue;
        }
        if addr + len > vma.start {
          forall a: nat | addr <= a < vma.end ensures !FreeRange(mmap, a, len) {
            FreeRangeApart(mmap, a, len);
          }
          addr := vma.end;
          i := i + 1;
          continue;
        }
        result := addr;
        FreeRangeApart(mmap, addr, len);
        return;
      }
    }

    /** generic_file_mmap: the new VMA names the file when the file allows such a mapping. */
    method GenericFileMmap(file: OpenFile, vma: Vma) returns (vma': Vma, error: int)
      requires vma.file == None
      modifies this`refs
      ensures error == 0 <==> DriverAccepts(file, vma.flags)
      ensures error != 0 ==> (error == -EACCES || error == -EROFS) && refs == old(refs) && vma' == vma
      ensures error == 0 ==> vma' == vma.(file := Some(file.id))
      ensures error == 0 ==> forall f: nat :: RefCount(f) == old(RefCount(f)) + Names(vma'.file, f)
    {
      if !file.regular || !file.readPageOp { return vma, -EACCES; }
      if vma.flags.shared && vma.flags.write {
        if !file.writeOp { return vma, -EACCES; }
        if file.readOnlyFs { return vma, -EROFS; }
      }
      Fref(Some(file.id));
      vma' := vma.(file := Some(file.id));
      error := 0;
    }

    /** The end of do_mmap: the driver's mmap, the insertion into free space and the merge. */
    method MapFree(base: nat, len: nat, file: Option<OpenFile>, vma: Vma) returns (result: int)
      requires Valid() && WellFormed(vma) && vma.file == None && vma.start == base && vma.end == base + len
      requires FreeRange(mmap, base, len)
      modifies this
      ensures Valid() && (result == base || (result < 0 && mmap == old(mmap)))
      ensures result < 0 <==> file.Some? && !DriverAccepts(file.value, vma.flags)
      ensures result >= 0 ==> Overridden(old(mmap), mmap, Backed(vma, file))
      ensures forall f: nat :: Surplus(f) == old(Surplus(f))
    {
      hide CellAt, FreeRange, Naming, DriverAccepts;
      FreeRangeApart(mmap, base, len);
      var vma' := vma;
      if file.Some? {
        var error;
        vma', error := GenericFileMmap(file.value, vma);
        if error != 0 { return error; }
      }
      assert forall f: nat :: RefCount(f) == old(RefCount(f)) + Names(vma'.file, f);
      InsertVmStruct(vma');
      MergeMmap();
      result := base;
    }

    /** The argument checks of do_mmap, in its order. */
    static method CheckMmap(addr: nat, len: nat, prot: Prot, flags: MapFlags, fd: nat, files: map<nat, OpenFile>,
                            off: nat)
      returns (error: int)
      requires addr < W32 && len < W32 && fd < W32 && off < W32
      ensures error <= 0 && (error == 0 <==> Acceptable(addr, len, prot, flags, fd, files, off))
      ensures error == -EBADF <==> !flags.anonymous && FileOf(flags, fd, files) == None
      ensures error == -ENODEV ==> FileOf(flags, fd, files).Some? && !files[fd].mmapOp
      ensures error == -EACCES ==> FileOf(flags, fd, files).Some? && !(files[fd].readable && files[fd].writable)
      ensures error in {0, -EBADF, -EINVAL, -ENODEV, -EACCES}
    {
      PageAlignIs(len);
      hide PageAlign;
      var file := None;
      if flags.anonymous {
        if fd != W32 - 1 { return -EINVAL; }
      } else {
        if fd >= NR_OPEN || fd !in files { return -EBADF; }
        file := Some(files[fd]);
      }
      var len' := PageAlign(len);
      if len' == 0 { return -EINVAL; }
      if addr > KERNEL_BASE || len' > KERNEL_BASE || addr > KERNEL_BASE - len' { return -EINVAL; }
      if flags.fixed && !PageAligned(addr) { return -EINVAL; }
      if file.Some? {
        if !file.value.mmapOp { return -ENODEV; }
        if !PageAligned(off) { return -EINVAL; }
        if (off + len') % W32 < off { return -EINVAL; }
      }
      if flags.kind == MAP_SHARED {
        if file.Some? && prot.write && !file.value.writable { return -EACCES; }
        if file.Some? && !file.value.readable { return -EACCES; }
      } else if flags.kind == MAP_PRIVATE {
        if file.Some? && !file.value.readable { return -EACCES; }
      } else {
        return -EINVAL;
      }
      error := 0;
    }

    /** do_mmap: on success the address map is overridden by the new mapping. */
    method DoMmap(addr: nat, len: nat, prot: Prot, flags: MapFlags, fd: nat, files: map<nat, OpenFile>, off: nat,
                  memory: bool) returns (result: int)
      requires Valid() && addr < W32 && len < W32 && fd < W32 && off < W32
      modifies this
      ensures Valid() && forall f: nat :: Surplus(f) == old(Surplus(f))
      ensures result >= 0 <==>
        && Acceptable(addr, len, prot, flags, fd, files, off) && memory
          && Backable(prot, flags, FileOf(flags, fd, files))
        && (!flags.fixed ==> HasFree(old(mmap), Hint(addr), PageAlign(len)))
      ensures result >= 0 ==> forall a: nat ::
        CellAt(mmap, a) == if result <= a < result + PageAlign(len)
          then Some(Cell(Flags(prot.read, prot.write, prot.exec, flags.kind == MAP_SHARED, flags.growsDown),
                         if flags.anonymous then None else Some((files[fd].id, off + (a - result)))))
          else CellAt(old(mmap), a)
      ensures result >= 0 ==> result + PageAlign(len) <= KERNEL_BASE && len <= PageAlign(len) < len + PAGE_SIZE
      ensures result >= 0 && !flags.anonymous ==>
        && fd in files && files[fd].readable && files[fd].regular
        && (flags.kind == MAP_SHARED && prot.write ==>
              files[fd].writable && files[fd].writeOp && !files[fd].readOnlyFs)
      ensures memory && flags.anonymous && fd == W32 - 1 && flags.fixed && PageAligned(addr) && 0 < len <= KERNEL_BASE
              && addr + PageAlign(len) <= KERNEL_BASE && flags.kind in {MAP_SHARED, MAP_PRIVATE} ==>
        result == addr
      ensures result >= 0 && flags.fixed ==> result == addr
      ensures result >= 0 && !flags.fixed ==> LowestFree(old(mmap), Hint(addr), PageAlign(len), result)
      ensures result < 0 && Acceptable(addr, len, prot, flags, fd, files, off) && flags.fixed && memory ==>
        Unmapped(old(mmap), mmap, addr, addr + PageAlign(len))
      ensures result < 0 && !(Acceptable(addr, len, prot, flags, fd, files, off) && flags.fixed && memory) ==>
        mmap == old(mmap)
    {
      hide CellAt, FreeRange, Naming, Unmapped, PageAlign, Acceptable, Overridden, LowestFree, DriverAccepts, VmaFlags;
      AnonymousAccepted(addr, len, prot, flags, files, off);
      result := CheckMmap(addr, len, prot, flags, fd, files, off);
      if result < 0 { return; }
      AcceptedRange(addr, len, prot, flags, fd, files, off);
      if Backable(prot, flags, FileOf(flags, fd, files)) { AcceptedFile(addr, len, prot, flags, fd, files, off); }
      var file, len' := FileOf(flags, fd, files), PageAlign(len);
      if !flags.fixed {
        var base := GetUnmappedAreaLocked(addr, len');
        if base == 0 || !memory { return -ENOMEM; }
        LowestFreeRange(mmap, Hint(addr), len', base);
        result := MapFree(base, len', file, AllocVma(base, len', prot, flags, off, file));
        if result >= 0 { NewCells(old(mmap), mmap, result, len, prot, flags, fd, files, off); }
        return;
      }
      if !memory { return -ENOMEM; }
      var unmapped := DoMunmap(addr, len');
      UnmappedFree(old(mmap), mmap, addr, len');
      ghost var cleared := mmap;
      result := MapFree(addr, len', file, AllocVma(addr, len', prot, flags, off, file));
      if result >= 0 {
        OverriddenHole(old(mmap), cleared, mmap, Backed(AllocVma(addr, len', prot, flags, off, file), file));
        NewCells(old(mmap), mmap, result, len, prot, flags, fd, files, off);
      }
    }

    /** verify_area: whether the process may read or write [start, start + size). */
    method VerifyArea(kernel: bool, write: bool, start: nat, size: nat, stackLimit: nat) returns (result: int)
      requires Valid() && start < W32 && size < W32
      ensures result == if kernel || Accessible(mmap, write, start, size, stackLimit) then 0 else -EFAULT
    {
      if kernel { return 0; }
      hide CellAt, FirstAbove, Accessible;
      var i := FindVma(start);
      FirstAboveIs(mmap, start, i);
      if i == |mmap| {
        Unreachable(mmap, write, start, size, stackLimit, i);
        return -EFAULT;
      }
      if mmap[i].start > start {
        if !mmap[i].flags.growsDown || mmap[i].end - start > stackLimit {
          Unreachable(mmap, write, start, size, stackLimit, i);
          return -EFAULT;
        }
      }
      Reachable(mmap, write, start, size, stackLimit, i);
      ghost var lo := Max(start, mmap[i].start);
      var k := i;
      while true
        invariant i <= k < |mmap| && lo < mmap[k].end
        invariant k == i || (lo < mmap[k].start && mmap[k].start < start + size)
        invariant forall a: nat :: lo <= a < mmap[k].start ==> Permitted(mmap, write, a)
        decreases |mmap| - k
      {
        var vma := mmap[k];
        PermittedInside(mmap, write, vma);
        if !(if write then vma.flags.write else vma.flags.read) {
          assert !Permitted(mmap, write, Max(lo, vma.start));
          return -EFAULT;
        }
        if vma.end - start >= size { return 0; }
        if k + 1 == |mmap| || vma.end != mmap[k + 1].start {
          GapBehind(mmap, k);
          assert !Permitted(mmap, write, vma.end);
          return -EFAULT;
        }
        k := k + 1;
        assert WellFormed(mmap[k]);
      }
    }

    /** do_page_fault up to the fault handlers: grows a stack area down to the page of addr and checks the access. */
    method PageFaultArea(addr: nat, write: bool, protection: bool, stackLimit: nat) returns (good: bool)
      requires Valid() && addr < W32
      modifies this`mmap
      ensures Valid()
      ensures good <==> CellAt(mmap, addr).Some? && var f := CellAt(mmap, addr).value.flags;
        if write then f.write else !protection && (f.read || f.exec)
      ensures forall i: nat ::
        && i < |old(mmap)| && addr < old(mmap)[i].start && (forall k :: 0 <= k < i ==> old(mmap)[k].end <= addr)
        && old(mmap)[i].flags.growsDown && old(mmap)[i].end - addr <= stackLimit ==>
          forall a: nat :: CellAt(mmap, a) == if addr / PAGE_SIZE * PAGE_SIZE <= a < old(mmap)[i].start
            then Some(CellOf(old(mmap)[i], a)) else CellAt(old(mmap), a)
      ensures (forall i: nat ::
        i < |old(mmap)| && addr < old(mmap)[i].start && (forall k :: 0 <= k < i ==> old(mmap)[k].end <= addr) ==>
          !old(mmap)[i].flags.growsDown || old(mmap)[i].end - addr > stackLimit) ==> mmap == old(mmap)
      ensures forall f: nat :: Naming(mmap, f) == Naming(old(mmap), f)
    {
      hide CellAt, Naming, Overridden;
      var i := FindVma(addr);
      if i == |mmap| {
        assert forall j :: 0 <= j < i ==> WellFormed(mmap[j]);
        CellOutside(mmap, addr);
        return false;
      }
      assert FirstAbove(mmap, addr, i) && WellFormed(mmap[i]);
      OneFirstAbove(mmap, addr, i);
      OneStartsAbove(mmap, addr, i);
      if mmap[i].start > addr {
        if !mmap[i].flags.growsDown || mmap[i].end - addr > stackLimit {
          CellOutside(mmap, addr);
          return false;
        }
        GrownView(mmap, addr, i);
        GrownCells(mmap, mmap[i := Grown(mmap[i], addr)], addr, i);
        mmap := mmap[i := Grown(mmap[i], addr)];
      }
      CellInside(mmap, mmap[i], addr);
      var flags := mmap[i].flags;
      if write {
        return flags.write;
      } else {
        return !protection && (flags.read || flags.exec);
      }
    }

    /** exit_mmap: every VMA gives its reference back. */
    method ExitMmap()
      modifies this
      ensures mmap == [] && forall f: nat :: RefCount(f) == old(Surplus(f))
    {
      hide CellAt;
      var vma := mmap;
      mmap := [];
      while vma != []
        invariant mmap == [] && forall f: nat :: RefCount(f) - Naming(vma, f) == old(Surplus(f))
        decreases |vma|
      {
        PutFile(vma[0].file);
        vma := vma[1..];
      }
    }

    /** A copy of v and its reference at the end of the list. */
    method TakeVma(v: Vma)
      modifies this
      ensures mmap == old(mmap) + [v] && forall f: nat :: Surplus(f) == old(Surplus(f))
    {
      Fref(v.file);
      mmap := mmap + [v];
      forall f: nat ensures Naming(mmap, f) == Naming(old(mmap), f) + Names(v.file, f) {
        NamingConcat(old(mmap), [v], f);
        NamingOne(v, f);
      }
    }

    /** dup_mmap: the child gets the same list and one reference per VMA; out of memory leaves it nothing. */
    method DupMmap(memory: nat) returns (child: AddressSpace, error: int)
      requires Valid()
      ensures fresh(child) && child.Valid() && error == if |mmap| <= memory then 0 else -ENOMEM
      ensures child.mmap == if error == 0 then mmap else []
      ensures forall f: nat :: child.Surplus(f) == 0
    {
      child := new AddressSpace();
      assert forall f: nat :: Naming([], f) == 0;
      hide CellAt, Naming;
      var i := 0;
      while i < |mmap|
        invariant fresh(child) && i <= |mmap| && i <= memory && child.mmap == mmap[..i]
        invariant forall f: nat :: child.Surplus(f) == 0
      {
        if i == memory {
          child.ExitMmap();
          return child, -ENOMEM;
        }
        child.TakeVma(mmap[i]);
        i := i + 1;
      }
      assert mmap[..i] == mmap;
      error := 0;
    }

    constructor ()
      ensures mmap == [] && refs == map[]
    {
      mmap, refs := [], map[];
    }
  }

  /** The address map of t is that of s outside [lo, hi) and empty inside. */
  ghost predicate Unmapped(s: seq<Vma>, t: seq<Vma>, lo: nat, hi: nat) {
    forall a: nat :: CellAt(t, a) == if lo <= a < hi then None else CellAt(s, a)
  }

  /** u is a part of a VMA of s outside [lo, hi), from one not overlapping it or from one of done. */
  ghost predicate RestOfSome(s: seq<Vma>, done: seq<Vma>, u: Vma, lo: nat, hi: nat)
    requires lo < hi
  {
    exists w :: w in s && u in Rest(w, lo, hi) && (w in done || !Overlaps(w, lo, hi))
  }

  lemma RestOfSomeMore(s: seq<Vma>, done: seq<Vma>, v: Vma, lo: nat, hi: nat)
    requires lo < hi && v in s
    ensures forall u :: RestOfSome(s, done + [v], u, lo, hi) <==> RestOfSome(s, done, u, lo, hi) || u in Rest(v, lo, hi)
  {
  }

  lemma RestOfSomeApart(s: seq<Vma>, free: seq<Vma>, k: nat, u: Vma, lo: nat, hi: nat)
    requires lo < hi && Sorted(s) && k < |free| && free[k] in s && Overlaps(free[k], lo, hi)
    requires forall i, j :: 0 <= i < j < |free| ==> free[i] != free[j]
    requires RestOfSome(s, free[..k], u, lo, hi)
    ensures Apart(u, free[k])
  {
    var w :| w in s && u in Rest(w, lo, hi) && (w in free[..k] || !Overlaps(w, lo, hi));
    assert w != free[k];
    hide Overlaps;
    SortedApart(s, w, free[k]);
  }

  ghost predicate SameView(s: seq<Vma>, t: seq<Vma>) {
    forall a: nat :: CellAt(t, a) == CellAt(s, a)
  }

  predicate Mergeable(p1: Vma, p2: Vma) {
    p1.end == p2.start && p1.flags == p2.flags && !p1.flags.shared && p1.file == None && p2.file == None
  }

  lemma MergedView(s: seq<Vma>, i: nat)
    requires Sorted(s) && i + 1 < |s| && Mergeable(s[i], s[i + 1])
    ensures var t := s[..i] + [s[i].(end := s[i + 1].end)] + s[i + 2..];
      Sorted(t) && SameView(s, t) && forall f: nat :: Naming(t, f) == Naming(s, f)
  {
    var p1, p2 := s[i], s[i + 1];
    var p := p1.(end := p2.end);
    var lower, upper := s[..i], s[i + 2..];
    var t := lower + [p] + upper;
    assert s == lower + [p1, p2] + upper;
    MergedSorted(s, i);
    forall f: nat ensures Naming(t, f) == Naming(s, f) {
      MergedNaming(lower, p1, p2, p, upper, f);
    }
    assert WellFormed(p1) && WellFormed(p2);
    hide CellAt, Naming, Sorted;
    forall a: nat ensures CellAt(t, a) == CellAt(s, a) {
      assert Contains(p, a) <==> Contains(p1, a) || Contains(p2, a);
      if Contains(p, a) { assert p in t && CellOf(p, a) == CellOf(p1, a) == CellOf(p2, a); }
      SameCell(s, t, a);
    }
  }

  lemma MergedSorted(s: seq<Vma>, i: nat)
    requires Sorted(s) && i + 1 < |s| && Mergeable(s[i], s[i + 1])
    ensures Sorted(s[..i] + [s[i].(end := s[i + 1].end)] + s[i + 2..])
  {
    assert WellFormed(s[i]) && WellFormed(s[i + 1]);
  }

  lemma MergedNaming(lower: seq<Vma>, p1: Vma, p2: Vma, p: Vma, upper: seq<Vma>, f: nat)
    requires p1.file == p2.file == p.file == None
    ensures Naming(lower + [p1, p2] + upper, f) == Naming(lower + [p] + upper, f)
  {
    NamingConcat(lower + [p1, p2], upper, f);
    NamingConcat(lower, [p1, p2], f);
    NamingConcat(lower + [p], upper, f);
    NamingConcat(lower, [p], f);
    NamingConcat([p1], [p2], f);
    assert [p1, p2] == [p1] + [p2];
    NamingOne(p1, f);
    NamingOne(p2, f);
    NamingOne(p, f);
  }

  lemma AcceptedRange(addr: nat, len: nat, prot: Prot, flags: MapFlags, fd: nat, files: map<nat, OpenFile>, off: nat)
    requires len < W32 && Acceptable(addr, len, prot, flags, fd, files, off)
    ensures 0 < PageAlign(len) <= KERNEL_BASE && PageAligned(PageAlign(len))
      && PageAlign(PageAlign(len)) == PageAlign(len)
    ensures addr + PageAlign(len) <= KERNEL_BASE && (flags.fixed ==> PageAligned(addr))
    ensures len <= PageAlign(len) < len + PAGE_SIZE
  {
    PageAlignIs(len);
  }

  /** What a file must allow to be mapped. */
  lemma AcceptedFile(addr: nat, len: nat, prot: Prot, flags: MapFlags, fd: nat, files: map<nat, OpenFile>, off: nat)
    requires Acceptable(addr, len, prot, flags, fd, files, off) && Backable(prot, flags, FileOf(flags, fd, files))
    ensures !flags.anonymous ==>
      && fd in files && FileOf(flags, fd, files) == Some(files[fd]) && off + PageAlign(len) < W32
      && files[fd].readable && files[fd].regular
      && (flags.kind == MAP_SHARED && prot.write ==>
            files[fd].writable && files[fd].writeOp && !files[fd].readOnlyFs)
    ensures flags.anonymous ==> FileOf(flags, fd, files) == None
  {
  }

  /** Anonymous memory in user space is always acceptable. */
  lemma AnonymousAccepted(addr: nat, len: nat, prot: Prot, flags: MapFlags, files: map<nat, OpenFile>, off: nat)
    ensures flags.anonymous && flags.fixed && PageAligned(addr) && 0 < len <= KERNEL_BASE
            && addr + PageAlign(len) <= KERNEL_BASE && flags.kind in {MAP_SHARED, MAP_PRIVATE} ==>
      Acceptable(addr, len, prot, flags, W32 - 1, files, off) && Backable(prot, flags, FileOf(flags, W32 - 1, files))
  {
    if 0 < len <= KERNEL_BASE { PageAlignIs(len); }
  }

  /** What the new mapping's addresses mean. */
  lemma NewCells(s: seq<Vma>, t: seq<Vma>, base: nat, len: nat, prot: Prot, flags: MapFlags, fd: nat,
                 files: map<nat, OpenFile>, off: nat)
    requires Overridden(s, t, NewVma(base, len, prot, flags, off, FileOf(flags, fd, files)))
    requires if flags.anonymous then FileOf(flags, fd, files) == None
             else fd in files && FileOf(flags, fd, files) == Some(files[fd]) && off + PageAlign(len) < W32
    ensures forall a: nat ::
      CellAt(t, a) == if base <= a < base + PageAlign(len)
        then Some(Cell(Flags(prot.read, prot.write, prot.exec, flags.kind == MAP_SHARED, flags.growsDown),
                       if flags.anonymous then None else Some((files[fd].id, off + (a - base)))))
        else CellAt(s, a)
  {
    hide CellAt, PageAlign;
  }

  lemma LowestFreeRange(s: seq<Vma>, hint: nat, len: nat, base: nat)
    requires LowestFree(s, hint, len, base)
    ensures PageAligned(base) && base + len <= KERNEL_BASE && FreeRange(s, base, len) && HasFree(s, hint, len)
  {
  }

  lemma UnmappedFree(s: seq<Vma>, t: seq<Vma>, addr: nat, len: nat)
    requires Unmapped(s, t, addr, addr + len)
    ensures FreeRange(t, addr, len)
  {
  }

  lemma OverriddenHole(s: seq<Vma>, hole: seq<Vma>, t: seq<Vma>, v: Vma)
    requires Unmapped(s, hole, v.start, v.end) && Overridden(hole, t, v)
    ensures Overridden(s, t, v)
  {
  }

  /** VMA i is the first that ends behind a. */
  ghost predicate FirstAbove(s: seq<Vma>, a: nat, i: nat) {
    i < |s| && a < s[i].end && forall k :: 0 <= k < i ==> s[k].end <= a
  }

  ghost predicate Permitted(s: seq<Vma>, write: bool, a: nat) {
    CellAt(s, a).Some? && if write then CellAt(s, a).value.flags.write else CellAt(s, a).value.flags.read
  }

  /** The range starts in a VMA, or below one that may grow down to it, and all its mapped part may be accessed. */
  ghost predicate Accessible(s: seq<Vma>, write: bool, start: nat, size: nat, stackLimit: nat) {
    exists i: nat :: FirstAbove(s, start, i) && AccessibleFrom(s, write, start, size, stackLimit, i)
  }

  ghost predicate AccessibleFrom(s: seq<Vma>, write: bool, start: nat, size: nat, stackLimit: nat, i: nat)
    requires i < |s|
  {
      && (s[i].start <= start || (s[i].flags.growsDown && s[i].end - start <= stackLimit))
      && var lo := Max(start, s[i].start);
         Permitted(s, write, lo) && forall a: nat :: lo <= a < start + size ==> Permitted(s, write, a)
  }

  lemma FirstAboveIs(s: seq<Vma>, a: nat, i: nat)
    requires Sorted(s) && i <= |s| && (i < |s| ==> a < s[i].end) && forall k :: 0 <= k < i ==> s[k].end <= a
    ensures forall j: nat :: FirstAbove(s, a, j) <==> j == i < |s|
    ensures i < |s| ==> WellFormed(s[i])
  {
  }

  lemma Unreachable(s: seq<Vma>, write: bool, start: nat, size: nat, stackLimit: nat, i: nat)
    requires forall j: nat :: FirstAbove(s, start, j) <==> j == i < |s|
    requires i < |s| ==> start < s[i].start && !(s[i].flags.growsDown && s[i].end - start <= stackLimit)
    ensures !Accessible(s, write, start, size, stackLimit)
  {
  }

  lemma Reachable(s: seq<Vma>, write: bool, start: nat, size: nat, stackLimit: nat, i: nat)
    requires i < |s| && forall j: nat :: FirstAbove(s, start, j) <==> j == i
    requires s[i].start <= start || (s[i].flags.growsDown && s[i].end - start <= stackLimit)
    ensures var lo := Max(start, s[i].start);
      Accessible(s, write, start, size, stackLimit) <==>
        Permitted(s, write, lo) && forall a: nat :: lo <= a < start + size ==> Permitted(s, write, a)
  {
    hide FirstAbove, Permitted;
    assert FirstAbove(s, start, i);
  }

  lemma PermittedInside(s: seq<Vma>, write: bool, v: Vma)
    requires Sorted(s) && v in s
    ensures WellFormed(v)
    ensures forall a: nat :: Contains(v, a) ==> (Permitted(s, write, a) <==>
      if write then v.flags.write else v.flags.read)
  {
    hide CellAt;
    forall a: nat | Contains(v, a) ensures CellAt(s, a) == Some(CellOf(v, a)) { CellInside(s, v, a); }
  }

  lemma GapBehind(s: seq<Vma>, k: nat)
    requires Sorted(s) && k < |s| && (k + 1 == |s| || s[k].end != s[k + 1].start)
    ensures CellAt(s, s[k].end) == None
  {
    hide CellAt;
    var a := s[k].end;
    forall v | v in s ensures !Contains(v, a) {
      var j :| 0 <= j < |s| && s[j] == v;
      assert j > k + 1 ==> WellFormed(s[k + 1]);
      assert j < k ==> WellFormed(s[k]);
    }
    CellOutside(s, a);
  }

  lemma OneFirstAbove(s: seq<Vma>, a: nat, i: nat)
    requires FirstAbove(s, a, i)
    ensures forall j: nat :: FirstAbove(s, a, j) ==> j == i
  {
  }

  lemma OneStartsAbove(s: seq<Vma>, a: nat, i: nat)
    requires Sorted(s) && FirstAbove(s, a, i)
    ensures forall j: nat :: j < |s| && a < s[j].start && (forall k :: 0 <= k < j ==> s[k].end <= a) ==> j == i
  {
    forall j: nat | j < |s| && a < s[j].start && (forall k :: 0 <= k < j ==> s[k].end <= a) ensures j == i {
      assert WellFormed(s[j]);
    }
  }

  /** Of an accessible range that starts in a mapped byte, every byte is mapped and allows the access. */
  lemma AccessibleBytes(s: seq<Vma>, write: bool, start: nat, size: nat, stackLimit: nat)
    requires Sorted(s) && CellAt(s, start).Some? && Accessible(s, write, start, size, stackLimit)
    ensures forall a: nat :: start <= a < start + size ==>
      CellAt(s, a).Some? && (write ==> CellAt(s, a).value.flags.write) && (write || CellAt(s, a).value.flags.read)
  {
    hide CellAt;
    var v := CellFound(s, start);
    var i :| 0 <= i < |s| && s[i] == v;
    assert forall k :: 0 <= k < i ==> s[k].end <= s[i].start;
    FirstAboveIs(s, start, i);
    Reachable(s, write, start, size, stackLimit, i);
    AllowedBytes(s, write, start, start + size);
  }

  lemma AllowedBytes(s: seq<Vma>, write: bool, lo: nat, hi: nat)
    requires forall a: nat :: lo <= a < hi ==> Permitted(s, write, a)
    ensures forall a: nat :: lo <= a < hi ==>
      CellAt(s, a).Some? && (write ==> CellAt(s, a).value.flags.write) && (write || CellAt(s, a).value.flags.read)
  {
    hide CellAt;
    forall a: nat | lo <= a < hi
      ensures CellAt(s, a).Some? && (write ==> CellAt(s, a).value.flags.write)
        && (write || CellAt(s, a).value.flags.read)
    {
      assert Permitted(s, write, a);
    }
  }

  /** And a non-empty range of such bytes is accessible. */
  lemma BytesAccessible(s: seq<Vma>, write: bool, start: nat, size: nat, stackLimit: nat)
    requires Sorted(s) && size > 0 && forall a: nat :: start <= a < start + size ==>
      CellAt(s, a).Some? && (write ==> CellAt(s, a).value.flags.write) && (write || CellAt(s, a).value.flags.read)
    ensures Accessible(s, write, start, size, stackLimit)
  {
    hide CellAt;
    var v := CellFound(s, start);
    var i :| 0 <= i < |s| && s[i] == v;
    assert forall k :: 0 <= k < i ==> s[k].end <= s[i].start;
    FirstAboveIs(s, start, i);
    Reachable(s, write, start, size, stackLimit, i);
  }

  /** A range that starts in a hole is accessible only when the area behind it is a stack that a fault may extend down
      to it, and every byte from there on allows the access. */
  lemma AccessibleBelow(s: seq<Vma>, write: bool, start: nat, size: nat, stackLimit: nat) returns (i: nat)
    requires Sorted(s) && CellAt(s, start) == None && Accessible(s, write, start, size, stackLimit)
    ensures i < |s| && start < s[i].start && forall k :: 0 <= k < i ==> s[k].end <= start
    ensures s[i].flags.growsDown && s[i].end - start <= stackLimit
    ensures if write then s[i].flags.write else s[i].flags.read
    ensures forall a: nat :: s[i].start <= a < start + size ==>
      CellAt(s, a).Some? && (write ==> CellAt(s, a).value.flags.write) && (write || CellAt(s, a).value.flags.read)
  {
    hide CellAt;
    i :| FirstAbove(s, start, i) && AccessibleFrom(s, write, start, size, stackLimit, i);
    assert WellFormed(s[i]);
    if s[i].start <= start { CellInside(s, s[i], start); }
    PermittedInside(s, write, s[i]);
    AllowedBytes(s, write, s[i].start, start + size);
  }

  /** And then it is. */
  lemma BelowAccessible(s: seq<Vma>, write: bool, start: nat, size: nat, stackLimit: nat, i: nat)
    requires Sorted(s) && i < |s| && start < s[i].start && forall k :: 0 <= k < i ==> s[k].end <= start
    requires s[i].flags.growsDown && s[i].end - start <= stackLimit
    requires if write then s[i].flags.write else s[i].flags.read
    requires forall a: nat :: s[i].start <= a < start + size ==>
      CellAt(s, a).Some? && (write ==> CellAt(s, a).value.flags.write) && (write || CellAt(s, a).value.flags.read)
    ensures Accessible(s, write, start, size, stackLimit)
  {
    hide CellAt;
    assert WellFormed(s[i]);
    FirstAboveIs(s, start, i);
    PermittedInside(s, write, s[i]);
    Reachable(s, write, start, size, stackLimit, i);
  }

  /** The search for free memory starts at the first page from the hint on, without a hint in the middle of user
      space. */
  lemma HintIs(addr: nat)
    requires addr <= KERNEL_BASE
    ensures addr == 0 ==> Hint(addr) == 0x6000_0000
    ensures addr > 0 ==> addr <= Hint(addr) < addr + PAGE_SIZE && Hint(addr) % PAGE_SIZE == 0
  {
    PageAlignIs(addr);
  }

  /** What the search finds: the lowest page behind which nothing is mapped, or that there is none. */
  lemma LowestFreeIs(s: seq<Vma>, hint: nat, len: nat, base: nat)
    requires LowestFree(s, hint, len, base)
    ensures hint <= base && base + len <= 0xC000_0000 && base % 4096 == 0
    ensures forall x: nat :: base <= x < base + len ==> CellAt(s, x) == None
  {
  }

  /** No range that starts earlier is free. */
  lemma NoneLower(s: seq<Vma>, hint: nat, len: nat, base: nat, a: nat)
    requires LowestFree(s, hint, len, base) && hint <= a < base
    ensures exists x: nat :: a <= x < a + len && CellAt(s, x).Some?
  {
    hide CellAt;
    assert !FreeRange(s, a, len);
  }

  /** When the search finds nothing, no range of that length is free. */
  lemma NoneFree(s: seq<Vma>, hint: nat, len: nat, a: nat)
    requires FreeRange(s, a, len)
    ensures forall x: nat :: a <= x < a + len ==> CellAt(s, x) == None
  {
  }

  /** The stack area v, extended down to the page of addr. */
  function Grown(v: Vma, addr: nat): Vma
  {
    var page := addr / PAGE_SIZE * PAGE_SIZE;
    v.(offset := (v.offset - (v.start - page)) % W32, start := page)
  }

  lemma GrownView(s: seq<Vma>, addr: nat, i: nat)
    requires Sorted(s) && FirstAbove(s, addr, i) && addr < s[i].start
    ensures var v, t := Grown(s[i], addr), s[i := Grown(s[i], addr)];
      Sorted(t) && Contains(v, addr) && Overridden(s, t, v) && forall f: nat :: Naming(t, f) == Naming(s, f)
  {
    var v, w := Grown(s[i], addr), s[i];
    var t := s[i := v];
    GrownSorted(s, addr, i);
    hide Sorted, FirstAbove, Naming, CellAt;
    assert s == s[..i] + [w] + s[i + 1..] && t == s[..i] + [v] + s[i + 1..];
    forall a: nat ensures CellAt(t, a) == if Contains(v, a) then Some(CellOf(v, a)) else CellAt(s, a) {
      if Contains(v, a) {
        CellInside(t, v, a);
      } else {
        SameCell(t, s, a);
      }
    }
    forall f: nat ensures Naming(t, f) == Naming(s, f) {
      NamingConcat(s[..i] + [w], s[i + 1..], f);
      NamingConcat(s[..i], [w], f);
      NamingConcat(s[..i] + [v], s[i + 1..], f);
      NamingConcat(s[..i], [v], f);
      NamingOne(v, f);
      NamingOne(w, f);
    }
  }

  lemma GrownSorted(s: seq<Vma>, addr: nat, i: nat)
    requires Sorted(s) && FirstAbove(s, addr, i) && addr < s[i].start
    ensures Sorted(s[i := Grown(s[i], addr)]) && Contains(Grown(s[i], addr), addr)
    ensures Grown(s[i], addr).start < s[i].start
  {
    var v := Grown(s[i], addr);
    assert WellFormed(s[i]) && WellFormed(v);
    forall k | 0 <= k < i ensures s[k].end <= v.start {
      assert WellFormed(s[k]);
    }
  }

  /** A stack area that was grown goes on downwards: the file bytes behind it too. */
  lemma GrownCells(s: seq<Vma>, t: seq<Vma>, addr: nat, i: nat)
    requires Sorted(s) && FirstAbove(s, addr, i) && addr < s[i].start && Overridden(s, t, Grown(s[i], addr))
    ensures forall a: nat :: CellAt(t, a) == if addr / PAGE_SIZE * PAGE_SIZE <= a < s[i].start
      then Some(CellOf(s[i], a)) else CellAt(s, a)
  {
    var v, page := s[i], addr / PAGE_SIZE * PAGE_SIZE;
    assert WellFormed(v);
    hide CellAt;
    forall a: nat ensures CellAt(t, a) == if page <= a < v.start then Some(CellOf(v, a)) else CellAt(s, a) {
      if page <= a < v.end { OffsetMoved(v.offset, page - v.start, a - page); }
      if Contains(v, a) { CellInside(s, v, a); }
    }
  }

  /** Growing a stack area keeps the meaning of every address it had. */
  lemma GrownKeepsCells(v: Vma, addr: nat, a: nat)
    requires addr < v.start <= a
    ensures CellOf(Grown(v, addr), a) == CellOf(v, a)
  {
    var page := addr / PAGE_SIZE * PAGE_SIZE;
    OffsetMoved(v.offset, page - v.start, a - page);
  }

  /** Where the search for a free range starts. */
  function Hint(addr: nat): (r: nat)
    requires addr <= KERNEL_BASE
    ensures 0 < r && PageAligned(r)
  {
    if addr == 0 then KERNEL_BASE / 2 else PageAlign(addr)
  }

  /** The parts of v outside [lo, hi), which keep their place in the file. */
  function Rest(v: Vma, lo: nat, hi: nat): seq<Vma>
    requires lo < hi
  {
    var below := v.(end := lo);
    var above := v.(offset := (v.offset + (hi - v.start)) % W32, start := hi);
    if v.end <= lo || hi <= v.start then [v]
    else (if v.start < lo then [below] else []) + (if hi < v.end then [above] else [])
  }

  lemma RestWithin(v: Vma, lo: nat, hi: nat, u: Vma)
    requires lo < hi && u in Rest(v, lo, hi)
    ensures v.start <= u.start && u.end <= v.end && (u.end <= lo || hi <= u.start)
    ensures forall a: nat :: Contains(u, a) ==> CellOf(u, a) == CellOf(v, a)
  {
    assert u == v || u == v.(end := lo) || (v.start < hi
      && u == v.(offset := (v.offset + (hi - v.start)) % W32, start := hi));
    hide Rest;
    forall a: nat | Contains(u, a) ensures CellOf(u, a) == CellOf(v, a) {
      if u.start == hi && v.start < hi { OffsetMoved(v.offset, hi - v.start, a - hi); }
    }
  }

  lemma OffsetMoved(offset: int, d: int, x: int)
    ensures ((offset + d) % W32 + x) % W32 == (offset + d + x) % W32
  {
  }

  lemma RestCovers(v: Vma, lo: nat, hi: nat, a: nat)
    requires lo < hi && Contains(v, a) && !(lo <= a < hi)
    ensures exists u :: u in Rest(v, lo, hi) && Contains(u, a)
  {
    var r := Rest(v, lo, hi);
    if v.end <= lo || hi <= v.start {
      assert Contains(r[0], a);
    } else if a < lo {
      assert Contains(r[0], a);
    } else {
      assert Contains(r[|r| - 1], a);
    }
  }

  /** Replacing every VMA by its parts outside [lo, hi) restricts the address map to the addresses outside. */
  lemma RestrictedView(s: seq<Vma>, t: seq<Vma>, lo: nat, hi: nat)
    requires Sorted(s) && Sorted(t) && lo < hi
    requires forall v :: v in s ==> forall u :: u in Rest(v, lo, hi) ==> u in t
    requires forall u :: u in t ==> exists v :: v in s && u in Rest(v, lo, hi)
    ensures Unmapped(s, t, lo, hi)
  {
    hide CellAt, Sorted, Rest;
    forall a: nat ensures CellAt(t, a) == if lo <= a < hi then None else CellAt(s, a) {
      forall u | u in t && Contains(u, a)
        ensures !(lo <= a < hi) && exists v :: v in s && Contains(v, a) && CellOf(u, a) == CellOf(v, a)
      {
        var v :| v in s && u in Rest(v, lo, hi);
        RestWithin(v, lo, hi, u);
      }
      if lo <= a < hi {
        CellOutside(t, a);
      } else {
        forall v | v in s && Contains(v, a)
          ensures exists u :: u in t && Contains(u, a) && CellOf(u, a) == CellOf(v, a)
        {
          RestCovers(v, lo, hi, a);
          var u :| u in Rest(v, lo, hi) && Contains(u, a);
          RestWithin(v, lo, hi, u);
        }
        SameCell(s, t, a);
      }
    }
  }
}

/** Lists of VMAs and the partial map from addresses to mapped bytes that they stand for. */
module VmaLists {
  import opened Lists
  import Words

  const PAGE_SIZE: nat := 4096
  const KERNEL_BASE: nat := 0xC000_0000
  const W32: nat := Words.W32

  datatype Flags = Flags(read: bool, write: bool, exec: bool, shared: bool, growsDown: bool)

  /** vm_area_struct: [start, end) with its flags, backing file and file offset of `start`. */
  datatype Vma = Vma(start: nat, end: nat, flags: Flags, file: Option<nat>, offset: nat)

  /** What one mapped address means: its flags and, for a file mapping, the file byte behind it. */
  datatype Cell = Cell(flags: Flags, source: Option<(nat, nat)>)

  predicate Contains(v: Vma, a: nat) { v.start <= a < v.end }

  function CellOf(v: Vma, a: nat): Cell
  {
    Cell(v.flags, if v.file.Some? then Some((v.file.value, (v.offset + a - v.start) % W32)) else None)
  }

  /** The address map of a list. */
  function CellAt(s: seq<Vma>, a: nat): Option<Cell>
  {
    if s == [] then None
    else if Contains(s[0], a) then Some(CellOf(s[0], a))
    else CellAt(s[1..], a)
  }

  predicate PageAligned(a: nat) { a % PAGE_SIZE == 0 }

  ghost predicate WellFormed(v: Vma) {
    v.start < v.end <= KERNEL_BASE && PageAligned(v.start) && PageAligned(v.end) && v.offset < W32
  }

  predicate Apart(u: Vma, v: Vma) { u.end <= v.start || v.end <= u.start }

  /** verify_vm: every VMA is well formed and ends before the next one starts. */
  ghost predicate Sorted(s: seq<Vma>) {
    && (forall v :: v in s ==> WellFormed(v))
    && (forall i, j :: 0 <= i < j < |s| ==> s[i].end <= s[j].start)
  }

  function Names(file: Option<nat>, f: nat): nat { if file == Some(f) then 1 else 0 }

  /** The number of VMAs that name file f. */
  function Naming(s: seq<Vma>, f: nat): nat
  {
    if s == [] then 0 else Names(s[0].file, f) + Naming(s[1..], f)
  }

  lemma NamingOne(v: Vma, f: nat)
    ensures Naming([v], f) == Names(v.file, f)
  {
    assert [v][1..] == [];
  }

  lemma {:induction false} NamingConcat(s: seq<Vma>, t: seq<Vma>, f: nat)
    ensures Naming(s + t, f) == Naming(s, f) + Naming(t, f)
  {
    if s == [] {
      assert s + t == t;
    } else {
      assert (s + t)[1..] == s[1..] + t;
      NamingConcat(s[1..], t, f);
    }
  }

  /** In a sorted list the map at a is decided by the one VMA containing a. */
  lemma {:induction false} CellInside(s: seq<Vma>, v: Vma, a: nat)
    requires Sorted(s) && v in s && Contains(v, a)
    ensures CellAt(s, a) == Some(CellOf(v, a))
  {
    if s[0] != v {
      assert v in s[1..];
      assert Sorted(s[1..]);
      CellInside(s[1..], v, a);
    }
  }

  lemma {:induction false} CellOutside(s: seq<Vma>, a: nat)
    requires forall v :: v in s ==> !Contains(v, a)
    ensures CellAt(s, a) == None
  {
    if s != [] { CellOutside(s[1..], a); }
  }

  lemma {:induction false} CellFound(s: seq<Vma>, a: nat) returns (v: Vma)
    requires CellAt(s, a) != None
    ensures v in s && Contains(v, a)
  {
    v := s[0];
    if !Contains(s[0], a) { v := CellFound(s[1..], a); }
  }

  /** Two sorted lists agree at a when the VMAs containing a agree. */
  lemma SameCell(s: seq<Vma>, t: seq<Vma>, a: nat)
    requires Sorted(s) && Sorted(t)
    requires forall v :: v in s && Contains(v, a) ==>
      exists u :: u in t && Contains(u, a) && CellOf(u, a) == CellOf(v, a)
    requires forall u :: u in t && Contains(u, a) ==> exists v :: v in s && Contains(v, a)
    ensures CellAt(s, a) == CellAt(t, a)
  {
    if v :| v in s && Contains(v, a) {
      CellInside(s, v, a);
      var u :| u in t && Contains(u, a) && CellOf(u, a) == CellOf(v, a);
      CellInside(t, u, a);
    } else {
      CellOutside(s, a);
      CellOutside(t, a);
    }
  }

  /** Nothing is mapped in [a, a + len). */
  ghost predicate FreeRange(s: seq<Vma>, a: nat, len: nat) {
    forall x: nat :: a <= x < a + len ==> CellAt(s, x) == None
  }

  lemma FreeRangeApart(s: seq<Vma>, a: nat, len: nat)
    requires Sorted(s) && len > 0
    ensures FreeRange(s, a, len) <==> forall v :: v in s ==> v.end <= a || a + len <= v.start
  {
    if FreeRange(s, a, len) {
      forall v | v in s ensures v.end <= a || a + len <= v.start {
        var x := if v.start <= a then a else v.start;
        if Contains(v, x) { CellInside(s, v, x); }
      }
    } else {
      var x: nat :| a <= x < a + len && CellAt(s, x) != None;
      var v := CellFound(s, x);
    }
  }
}

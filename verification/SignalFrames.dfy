/** src/kernel/signal.c: frames on the user stack, built by do_signal and undone by do_sigreturn. */
module SignalFrames {
  import opened Lists
  import Words

  const W32: nat := Words.W32
  const KERNEL_BASE: nat := 0xC000_0000
  const USER_CS: Half := 0x23
  const USER_DS: Half := 0x2b
  const SYS_SIGRETURN: Word := 119
  const SIGKILL: nat := 9
  const SIGSTOP: nat := 19
  const FLAGS_MASK: Word := 0x40DD5
  const BLOCKABLE: Word := 0xFFFB_FEFF

  type Byte = x | 0 <= x < 256
  type Half = x | 0 <= x < 0x1_0000
  type Word = x | 0 <= x < 0x1_0000_0000

  // Bitwise operations on 32-bit words.

  function Or(x: Word, y: Word): Word
  {
    Words.Pow2Values();
    BitsFit(x, y, 32);
    Words.Or(x, y)
  }

  function And(x: Word, y: Word): Word
  {
    Words.Pow2Values();
    BitsFit(x, y, 32);
    Words.And(x, y)
  }

  function Not(x: Word): Word { W32 - 1 - x }

  lemma {:induction false} BitsFit(x: nat, y: nat, n: nat)
    requires x < Words.Pow2(n) && y < Words.Pow2(n)
    ensures Words.Or(x, y) < Words.Pow2(n) && Words.And(x, y) < Words.Pow2(n)
  {
    if n > 0 { BitsFit(x / 2, y / 2, n - 1); }
  }

  predicate Odd(x: nat) { x % 2 == 1 }

  lemma Halves(x: nat, y: nat)
    ensures Words.Or(x, y) / 2 == Words.Or(x / 2, y / 2) && Odd(Words.Or(x, y)) == (Odd(x) || Odd(y))
    ensures Words.And(x, y) / 2 == Words.And(x / 2, y / 2) && Odd(Words.And(x, y)) == (Odd(x) && Odd(y))
  {
  }

  lemma SameHalves(x: nat, y: nat)
    requires x / 2 == y / 2 && Odd(x) == Odd(y)
    ensures x == y
  {
  }

  /** Bits taken from one word under a mask and from another elsewhere. */
  lemma {:induction false} MixedBits(now: nat, saved: nat, m: nat, n: nat)
    requires now < Words.Pow2(n) && saved < Words.Pow2(n) && m < Words.Pow2(n)
    ensures var o := Words.Pow2(n) - 1 - m; var f := Words.Or(Words.And(now, o), Words.And(saved, m));
      Words.And(f, m) == Words.And(saved, m) && Words.And(f, o) == Words.And(now, o)
  {
    if n > 0 {
      var o := Words.Pow2(n) - 1 - m;
      var a, b := Words.And(now, o), Words.And(saved, m);
      var f := Words.Or(a, b);
      assert o / 2 == Words.Pow2(n - 1) - 1 - m / 2 && Odd(o) == !Odd(m);
      MixedBits(now / 2, saved / 2, m / 2, n - 1);
      Halves(now, o);
      Halves(saved, m);
      Halves(a, b);
      Halves(f, m);
      Halves(f, o);
      hide Words.And, Words.Or, Odd, Words.Pow2;
      SameHalves(Words.And(f, m), b);
      SameHalves(Words.And(f, o), a);
    }
  }

  /** A word with no bits outside a mask is not changed by it. */
  lemma {:induction false} WithinMask(x: nat, m: nat, n: nat)
    requires x < Words.Pow2(n) && m < Words.Pow2(n) && Words.And(x, Words.Pow2(n) - 1 - m) == 0
    ensures Words.And(x, m) == x
  {
    if n > 0 {
      var o := Words.Pow2(n) - 1 - m;
      assert o / 2 == Words.Pow2(n - 1) - 1 - m / 2 && Odd(o) == !Odd(m);
      Halves(x, o);
      Halves(x, m);
      WithinMask(x / 2, m / 2, n - 1);
    }
  }

  // User memory.

  type Mem = map<int, Byte>

  function ByteAt(m: Mem, a: int): Byte { if a in m then m[a] else 0 }

  /** get_fs_long */
  function Long(m: Mem, a: int): Word
  {
    ByteAt(m, a) + 0x100 * ByteAt(m, a + 1) + 0x1_0000 * ByteAt(m, a + 2) + 0x100_0000 * ByteAt(m, a + 3)
  }

  /** put_fs_long */
  function PutLong(m: Mem, a: int, v: Word): Mem
  {
    m[a := v % 0x100][a + 1 := v / 0x100 % 0x100][a + 2 := v / 0x1_0000 % 0x100][a + 3 := v / 0x100_0000]
  }

  lemma PutGet(m: Mem, a: int, v: Word)
    ensures Long(PutLong(m, a, v), a) == v
  {
    var m' := PutLong(m, a, v);
    assert ByteAt(m', a) == v % 0x100 && ByteAt(m', a + 1) == v / 0x100 % 0x100;
    assert ByteAt(m', a + 2) == v / 0x1_0000 % 0x100 && ByteAt(m', a + 3) == v / 0x100_0000;
    hide ByteAt, PutLong;
    Bytes(v);
  }

  lemma Bytes(v: Word)
    ensures v % 0x100 + 0x100 * (v / 0x100 % 0x100) + 0x1_0000 * (v / 0x1_0000 % 0x100)
      + 0x100_0000 * (v / 0x100_0000) == v
  {
    assert v / 0x100 == 0x100 * (v / 0x1_0000) + v / 0x100 % 0x100;
    assert v / 0x1_0000 == 0x100 * (v / 0x100_0000) + v / 0x1_0000 % 0x100;
  }

  lemma PutElsewhere(m: Mem, a: int, v: Word, b: int)
    requires b < a || a + 4 <= b
    ensures ByteAt(PutLong(m, a, v), b) == ByteAt(m, b)
  {
  }

  /** The two memories agree on [lo, hi). */
  ghost predicate SameFrom(m: Mem, m': Mem, lo: int, hi: int) {
    forall b :: lo <= b < hi ==> ByteAt(m', b) == ByteAt(m, b)
  }

  // One frame.

  /** The user registers in a trap frame. */
  datatype Regs = Regs(
    ebx: Word, ecx: Word, edx: Word, esi: Word, edi: Word, ebp: Word, eax: Word,
    ds: Half, es: Half, fs: Half, gs: Half, eip: Word, cs: Half, eflags: Word, esp: Word, ss: Half)

  /** What setup_frame saves: the registers to come back to, the mask to come back to, and what only the handler
      reads. */
  datatype Saved = Saved(signr: Word, r: Regs, oldMask: Word, trapNo: Word, error: Word, espAtSignal: Word, cr2: Word)

  /** Word i of the frame at f. */
  function FrameWord(f: Word, s: Saved, i: nat): Word
    requires f + 128 < W32
  {
    match i
    case 0 => f + 96
    case 1 => s.signr
    case 2 => s.r.gs
    case 3 => s.r.fs
    case 4 => s.r.es
    case 5 => s.r.ds
    case 6 => s.r.edi
    case 7 => s.r.esi
    case 8 => s.r.ebp
    case 9 => s.r.esp
    case 10 => s.r.ebx
    case 11 => s.r.edx
    case 12 => s.r.ecx
    case 13 => s.r.eax
    case 14 => s.trapNo
    case 15 => s.error
    case 16 => s.r.eip
    case 17 => s.r.cs
    case 18 => s.r.eflags
    case 19 => s.espAtSignal
    case 20 => s.r.ss
    case 21 => 0
    case 22 => s.oldMask
    case _ => s.cr2
  }

  predicate WordAt(m: Mem, f: Word, s: Saved, i: nat)
    requires f + 128 < W32
  {
    Long(m, f + 4 * i) == FrameWord(f, s, i)
  }

  /** The first n words of the frame. */
  ghost predicate WordsAt(m: Mem, f: Word, s: Saved, n: nat)
    requires f + 128 < W32
  {
    forall i :: 0 <= i < n ==> WordAt(m, f, s, i)
  }

  lemma WordKept(m: Mem, m': Mem, f: Word, s: Saved, i: nat)
    requires f + 128 < W32 && WordAt(m, f, s, i) && SameFrom(m, m', f + 4 * i, f + 4 * i + 4)
    ensures WordAt(m', f, s, i)
  {
    hide FrameWord;
  }

  lemma WordsMore(m: Mem, f: Word, s: Saved, n: nat, v: Word)
    requires f + 128 < W32 && WordsAt(m, f, s, n) && v == FrameWord(f, s, n)
    ensures WordsAt(PutLong(m, f + 4 * n, v), f, s, n + 1)
    ensures forall b :: b < f + 4 * n || f + 4 * n + 4 <= b ==> ByteAt(PutLong(m, f + 4 * n, v), b) == ByteAt(m, b)
  {
    hide FrameWord, Long;
    var p := f + 4 * n;
    var m' := PutLong(m, p, v);
    forall b | b < p || p + 4 <= b ensures ByteAt(m', b) == ByteAt(m, b) { PutElsewhere(m, p, v, b); }
    PutGet(m, p, v);
    hide PutLong;
    forall i | 0 <= i < n + 1 ensures WordAt(m', f, s, i) { if i < n { WordKept(m, m', f, s, i); } }
  }

  /** The return code: pop %eax; mov $SYS_sigreturn, %eax; int $0x80. */
  ghost predicate CodeAt(m: Mem, c: int) {
    && ByteAt(m, c) == 0x58
    && ByteAt(m, c + 1) == 0xb8 && Long(m, c + 2) == SYS_SIGRETURN
    && ByteAt(m, c + 6) == 0xcd && ByteAt(m, c + 7) == 0x80
  }

  /** The frame at f, with its argument word. */
  ghost predicate FrameAt(m: Mem, f: Word, s: Saved) {
    f + 128 < W32 && WordsAt(m, f, s, 24) && CodeAt(m, f + 96)
  }

  /** The frame without the argument, which belongs to the handler. */
  ghost predicate FrameLeft(m: Mem, f: Word, s: Saved) {
    && f + 128 < W32 && CodeAt(m, f + 96)
    && forall i :: 0 <= i < 24 && i != 1 ==> WordAt(m, f, s, i)
  }

  lemma CodeWritten(m: Mem, c: int)
    ensures var m' := PutLong(PutLong(PutLong(m, c, 0xb858), c + 2, SYS_SIGRETURN), c + 4, 0x80cd0000);
      CodeAt(m', c) && forall b :: b < c || c + 8 <= b ==> ByteAt(m', b) == ByteAt(m, b)
  {
    var m1 := PutLong(m, c, 0xb858);
    var m2 := PutLong(m1, c + 2, SYS_SIGRETURN);
    var m3 := PutLong(m2, c + 4, 0x80cd0000);
    assert ByteAt(m3, c) == 0x58 && ByteAt(m3, c + 1) == 0xb8 && ByteAt(m3, c + 2) == 119 && ByteAt(m3, c + 3) == 0;
    assert ByteAt(m3, c + 4) == 0 && ByteAt(m3, c + 5) == 0 && ByteAt(m3, c + 6) == 0xcd && ByteAt(m3, c + 7) == 0x80;
    forall b | b < c || c + 8 <= b ensures ByteAt(m3, b) == ByteAt(m, b) {
      PutElsewhere(m, c, 0xb858, b);
      PutElsewhere(m1, c + 2, SYS_SIGRETURN, b);
      PutElsewhere(m2, c + 4, 0x80cd0000, b);
    }
  }

  lemma CodeKept(m: Mem, m': Mem, c: int)
    requires CodeAt(m, c) && SameFrom(m, m', c, c + 8)
    ensures CodeAt(m', c)
  {
  }

  lemma FrameKept(m: Mem, m': Mem, f: Word, s: Saved)
    requires FrameAt(m, f, s) && SameFrom(m, m', f, f + 128)
    ensures FrameAt(m', f, s)
  {
    hide CodeAt, WordAt;
    forall i | 0 <= i < 24 ensures WordAt(m', f, s, i) { WordKept(m, m', f, s, i); }
    CodeKept(m, m', f + 96);
  }

  lemma FrameUsed(m: Mem, m': Mem, f: Word, s: Saved)
    requires FrameAt(m, f, s) && SameFrom(m, m', f, f + 4) && SameFrom(m, m', f + 8, f + 128)
    ensures FrameLeft(m', f, s)
  {
    hide CodeAt, WordAt;
    CodeKept(m, m', f + 96);
    forall i | 0 <= i < 24 && i != 1 ensures WordAt(m', f, s, i) {
      assert i == 0 || 8 <= 4 * i;
      WordKept(m, m', f, s, i);
    }
  }

  // Leaving a handler.

  /** A thread in user mode. */
  datatype Cpu = Cpu(r: Regs, blocked: Word, mem: Mem)

  /** struct sigcontext_struct at a, as do_sigreturn copies it into the trap frame. */
  function Restored(m: Mem, a: int, now: Regs): Regs
  {
    Regs(Long(m, a + 32), Long(m, a + 40), Long(m, a + 36), Long(m, a + 20), Long(m, a + 16), Long(m, a + 24),
         Long(m, a + 44), Long(m, a + 12) % 0x1_0000, Long(m, a + 8) % 0x1_0000, Long(m, a + 4) % 0x1_0000,
         Long(m, a) % 0x1_0000, Long(m, a + 56), Long(m, a + 60) % 0x1_0000,
         Or(And(now.eflags, Not(FLAGS_MASK)), And(Long(m, a + 64), FLAGS_MASK)),
         Long(m, a + 28), Long(m, a + 72) % 0x1_0000)
  }

  /** do_sigreturn with a readable context. */
  function Sigreturn(c: Cpu): Cpu
  {
    Cpu(Restored(c.mem, c.r.esp, c.r), And(Long(c.mem, c.r.esp + 80), BLOCKABLE), c.mem)
  }

  /** ret */
  function Ret(c: Cpu): Cpu { c.(r := c.r.(eip := Long(c.mem, c.r.esp), esp := (c.r.esp + 4) % W32)) }

  /** The instructions of the return code. */
  function Exec(c: Cpu): Option<Cpu>
  {
    var op := ByteAt(c.mem, c.r.eip);
    if op == 0x58 then
      Some(c.(r := c.r.(eax := Long(c.mem, c.r.esp), esp := (c.r.esp + 4) % W32, eip := (c.r.eip + 1) % W32)))
    else if op == 0xb8 then
      Some(c.(r := c.r.(eax := Long(c.mem, c.r.eip + 1), eip := (c.r.eip + 5) % W32)))
    else None
  }

  /** From the ret of a handler through the return code and the system call. */
  function Return(c: Cpu): Option<Cpu>
  {
    var c1 := Exec(Ret(c));
    if c1.None? then None
    else
      var c2 := Exec(c1.value);
      if c2.None? then None
      else
        var at := c2.value;
        if ByteAt(at.mem, at.r.eip) == 0xcd && ByteAt(at.mem, at.r.eip + 1) == 0x80 && at.r.eax == SYS_SIGRETURN
        then Some(Sigreturn(at)) else None
  }

  /** A handler that returns with its frame in place comes back to the saved registers and mask. */
  lemma ReturnRestores(c: Cpu, s: Saved)
    requires FrameLeft(c.mem, c.r.esp, s)
    ensures Return(c) == Some(Cpu(Back(c.r, s), And(s.oldMask, BLOCKABLE), c.mem))
  {
    hide Long, FrameWord, Or, And, Not, Return, Restored, WordAt, CodeAt, Ret;
    RetAt(c, s);
    ContextRead(c.mem, c.r.esp, c.r, s);
    RunsCode(c, c.r.esp);
  }

  lemma RetAt(c: Cpu, s: Saved)
    requires FrameLeft(c.mem, c.r.esp, s)
    ensures Ret(c).r.eip == c.r.esp + 96 && Ret(c).r.esp == c.r.esp + 4
  {
    hide Long, CodeAt;
    assert WordAt(c.mem, c.r.esp, s, 0);
  }

  /** The return code takes the argument off the stack and calls sigreturn with the context on top of it. */
  lemma RunsCode(c: Cpu, f: Word)
    requires f + 128 < W32 && CodeAt(c.mem, f + 96) && Ret(c).r.eip == f + 96 && Ret(c).r.esp == f + 4
    ensures Return(c).Some? && Return(c).value.mem == c.mem
    ensures Return(c).value.r == Restored(c.mem, f + 8, c.r)
    ensures Return(c).value.blocked == And(Long(c.mem, f + 88), BLOCKABLE)
  {
    SameFlags(c);
    hide Long, Restored, And, Ret;
    var c1 := Exec(Ret(c)).value;
    assert c1.r.eip == f + 97 && c1.r.esp == f + 8 && c1.mem == Ret(c).mem;
    var c2 := Exec(c1).value;
    assert c2.r.eip == f + 102 && c2.r.esp == f + 8 && c2.r.eax == SYS_SIGRETURN;
    FlagsOnly(c.mem, f + 8, c2.r, c.r);
  }

  lemma SameFlags(c: Cpu)
    ensures Ret(c).r.eflags == c.r.eflags && Ret(c).mem == c.mem
  {
  }

  lemma FlagsOnly(m: Mem, a: int, r: Regs, r': Regs)
    requires r.eflags == r'.eflags
    ensures Restored(m, a, r) == Restored(m, a, r')
  {
    hide Long, And, Or, Not;
  }

  /** The registers after do_sigreturn. */
  function Back(now: Regs, s: Saved): Regs
  {
    s.r.(eflags := Or(And(now.eflags, Not(FLAGS_MASK)), And(s.r.eflags, FLAGS_MASK)))
  }

  lemma ContextRead(m: Mem, f: Word, now: Regs, s: Saved)
    requires f + 128 < W32 && forall i :: 2 <= i < 24 ==> WordAt(m, f, s, i)
    ensures Restored(m, f + 8, now) == Back(now, s) && Long(m, f + 8 + 80) == s.oldMask
  {
    hide Long, And, Or, Not;
    assert WordAt(m, f, s, 2) && WordAt(m, f, s, 3) && WordAt(m, f, s, 4) && WordAt(m, f, s, 5);
    assert WordAt(m, f, s, 6) && WordAt(m, f, s, 7) && WordAt(m, f, s, 8) && WordAt(m, f, s, 9);
    assert WordAt(m, f, s, 10) && WordAt(m, f, s, 11) && WordAt(m, f, s, 12) && WordAt(m, f, s, 13);
    assert WordAt(m, f, s, 16) && WordAt(m, f, s, 17) && WordAt(m, f, s, 18) && WordAt(m, f, s, 20)
      && WordAt(m, f, s, 22);
  }

  // Delivery.

  /** struct sigaction; handler 0 is SIG_DFL and 1 is SIG_IGN. */
  datatype Action = Action(handler: Word, mask: Word, oneshot: bool, restart: bool)

  /** The signals up to n that have to be handled, in ascending order. */
  function Ascending(to_handle: set<nat>, n: nat): seq<nat>
  {
    if n == 0 then [] else Ascending(to_handle, n - 1) + if n in to_handle then [n] else []
  }

  lemma {:induction false} AscendingIs(to_handle: set<nat>, n: nat)
    ensures forall x :: x in Ascending(to_handle, n) <==> x in to_handle && 0 < x <= n
    ensures |Ascending(to_handle, n)| <= n
    ensures var hs := Ascending(to_handle, n); forall i, j :: 0 <= i < j < |hs| ==> hs[i] < hs[j]
  {
    if n > 0 {
      AscendingIs(to_handle, n - 1);
      var hs, before := Ascending(to_handle, n), Ascending(to_handle, n - 1);
      forall i, j | 0 <= i < j < |hs| ensures hs[i] < hs[j] {
        assert hs[i] == before[i] && before[i] in before;
        assert j < |before| ==> hs[j] == before[j];
      }
    }
  }

  lemma {:induction false} AscendingDone(to_handle: set<nat>, m: nat, n: nat)
    requires m <= n && forall x :: x in to_handle ==> x <= m
    ensures Ascending(to_handle, n) == Ascending(to_handle, m)
  {
    if m < n {
      AscendingDone(to_handle, m, n - 1);
      assert Ascending(to_handle, n) == Ascending(to_handle, n - 1) + [];
    }
  }

  function ActionOf(acts: seq<Action>, signr: nat): Action
  {
    if 0 < signr <= |acts| then acts[signr - 1] else Action(0, 0, false, false)
  }

  /** mask with the masks of the handlers hs. */
  function Masks(mask: Word, acts: seq<Action>, hs: seq<nat>): Word
  {
    if hs == [] then mask else Or(Masks(mask, acts, hs[..|hs| - 1]), ActionOf(acts, hs[|hs| - 1]).mask)
  }

  function UserSegments(r: Regs): Regs { r.(cs := USER_CS, ss := USER_DS, ds := USER_DS, es := USER_DS) }

  /** What do_signal works with: the trap frame, the mask to come back to, and thread data only handlers read. */
  datatype Delivery = Delivery(tr: Regs, oldMask: Word, trapNo: Word, error: Word, cr2: Word, acts: seq<Action>,
                               hs: seq<nat>)

  /** Where frame k lies; the frame of the lowest signal is the first and the highest in memory. */
  function FramePlace(d: Delivery, k: nat): int { d.tr.esp - 128 * (k + 1) }

  /** What frame k saves: the interrupted program for the first, the entry of the handler before it for the others. */
  function SavedIn(d: Delivery, k: nat): Saved
    requires k < |d.hs| && 0 <= d.tr.esp - 128 * k && d.hs[k] < W32
  {
    var r := if k == 0 then d.tr
      else UserSegments(d.tr).(eip := ActionOf(d.acts, d.hs[k - 1]).handler, esp := d.tr.esp - 128 * k);
    Saved(d.hs[k], r, Masks(d.oldMask, d.acts, d.hs[..k]), d.trapNo, d.error, d.tr.esp, d.cr2)
  }

  predicate Room(d: Delivery, k: nat)
  {
    k <= |d.hs| && 0 <= d.tr.esp - 128 * k && forall i :: 0 <= i < |d.hs| ==> d.hs[i] <= 32
  }

  ghost predicate FrameIn(m: Mem, d: Delivery, k: nat)
    requires Room(d, k + 1)
  {
    FrameAt(m, FramePlace(d, k), SavedIn(d, k))
  }

  /** The first n frames are in place. */
  ghost predicate FramesIn(m: Mem, d: Delivery, n: nat) { Room(d, n) && forall k :: 0 <= k < n ==> FrameIn(m, d, k) }

  lemma FramesKept(m: Mem, m': Mem, d: Delivery, n: nat)
    requires FramesIn(m, d, n) && SameFrom(m, m', d.tr.esp - 128 * n, d.tr.esp)
    ensures FramesIn(m', d, n)
  {
    hide FrameAt;
    forall k | 0 <= k < n ensures FrameIn(m', d, k) {
      assert FrameIn(m, d, k);
      FrameKept(m, m', FramePlace(d, k), SavedIn(d, k));
    }
  }

  /** After n frames: the registers to enter the last handler with. */
  function EntryRegs(d: Delivery, n: nat): Regs
    requires Room(d, n)
  {
    if n == 0 then d.tr
    else UserSegments(d.tr).(eip := ActionOf(d.acts, d.hs[n - 1]).handler, esp := d.tr.esp - 128 * n)
  }

  const MINUS_EINTR: Word := 0xFFFF_FFFC
  const MINUS_ERESTARTSYS: Word := 0xFFFF_FE00
  const MINUS_ERESTARTNOINTR: Word := 0xFFFF_FDFF
  const MINUS_ERESTARTNOHAND: Word := 0xFFFF_FDFE

  datatype Verdict = Dies(signr: nat) | Handles(to_handle: set<nat>)

  /** Bit n - 1 of a mask. */
  predicate Has(mask: Word, n: nat) { n > 0 && Odd(Shifted(mask, n - 1)) }

  function Shifted(x: nat, n: nat): nat { if n == 0 then x else Shifted(x / 2, n - 1) }

  function Unblocked(pending: set<nat>, blocked: Word): set<nat> { set n | n in pending && !Has(blocked, n) }

  /** The signals that are taken before one ends the process. */
  function LookedAt(pending: set<nat>, blocked: Word, v: Verdict): set<nat>
  {
    set n | n in Unblocked(pending, blocked) && (v.Handles? || n < v.signr)
  }

  /** The unblocked pending signals with a handler. */
  function Handled(pending: set<nat>, blocked: Word, acts: seq<Action>): set<nat>
  {
    set n | n in Unblocked(pending, blocked) && ActionOf(acts, n).handler > 1
  }

  /** The signal ends the process: it has its default action, which is neither to be ignored nor to stop. */
  predicate Fatal(acts: seq<Action>, n: nat, init: bool) {
    ActionOf(acts, n).handler == 0 && !init && n !in {17, 18, 28} && n !in {19, 20, 21, 22}
  }

  /** The signal stops the process until it is continued. */
  predicate Stops(acts: seq<Action>, n: nat, init: bool)
  {
    ActionOf(acts, n).handler == 0 && !init && n in {19, 20, 21, 22}
  }

  /** The signal is SIGCHLD and ignored: children that have ended are reaped. */
  predicate Reaps(acts: seq<Action>, n: nat) { ActionOf(acts, n).handler == 1 && n == 17 }

  function Stopping(taken: set<nat>, acts: seq<Action>, init: bool): set<nat>
  {
    set n | n in taken && Stops(acts, n, init)
  }

  predicate Reaping(taken: set<nat>, acts: seq<Action>) { exists n :: n in taken && Reaps(acts, n) }

  /** What the fate of a signal is: by number, action, and whether the process is the first one. */
  lemma Meaning(p: set<nat>, blocked: Word, acts: seq<Action>, init: bool)
    requires |acts| == 32 && forall x :: x in p ==> 0 < x <= 32
    ensures forall n :: n in Unblocked(p, blocked) <==> n in p && !Has(blocked, n)
    ensures forall n :: n in Handled(p, blocked, acts) <==> n in p && !Has(blocked, n) && acts[n - 1].handler > 1
    ensures forall n :: n in p ==>
      (Fatal(acts, n, init) <==> acts[n - 1].handler == 0 && !init && n !in {17, 18, 19, 20, 21, 22, 28})
  {
    hide Has;
  }

  lemma Taken(p: set<nat>, blocked: Word, acts: seq<Action>, init: bool, v: Verdict)
    requires |acts| == 32 && forall x :: x in p ==> 0 < x <= 32
    ensures forall n :: n in Stopping(LookedAt(p, blocked, v), acts, init) <==>
      && n in p && !Has(blocked, n) && (v.Dies? ==> n < v.signr)
      && acts[n - 1].handler == 0 && !init && n in {19, 20, 21, 22}
    ensures Reaping(LookedAt(p, blocked, v), acts) <==>
      17 in p && !Has(blocked, 17) && acts[16].handler == 1 && (v.Dies? ==> 17 < v.signr)
  {
    hide Has;
    if 17 in p && !Has(blocked, 17) && acts[16].handler == 1 && (v.Dies? ==> 17 < v.signr) {
      assert 17 in LookedAt(p, blocked, v) && Reaps(acts, 17);
    }
  }

  /** The handlers that are entered: one for each unblocked pending signal that has one, in ascending order. */
  lemma HandlersAscend(p: set<nat>, blocked: Word, acts: seq<Action>)
    requires |acts| == 32 && forall x :: x in p ==> 0 < x <= 32
    ensures var hs := Ascending(Handled(p, blocked, acts), 32);
      && (forall n :: n in hs <==> n in p && !Has(blocked, n) && acts[n - 1].handler > 1)
      && forall i, j :: 0 <= i < j < |hs| ==> hs[i] < hs[j]
  {
    Meaning(p, blocked, acts, false);
    AscendingIs(Handled(p, blocked, acts), 32);
    hide Has, Handled, Ascending;
  }

  /** Bit n - 1 of a word, told by division. */
  lemma HasIs(x: Word, n: nat)
    requires n > 0
    ensures Has(x, n) <==> x / Words.Pow2(n - 1) % 2 == 1
  {
    ShiftedIs(x, n - 1);
    var q, p := Shifted(x, n - 1), Words.Pow2(n - 1);
    Words.DivModUnique(x, p, q, x - q * p);
    hide Shifted, Words.Pow2;
  }

  lemma {:induction false} ShiftedIs(x: nat, n: nat)
    ensures 0 <= x - Shifted(x, n) * Words.Pow2(n) < Words.Pow2(n)
  {
    if n > 0 {
      ShiftedIs(x / 2, n - 1);
      var s, p := Shifted(x / 2, n - 1), Words.Pow2(n - 1);
      assert s * Words.Pow2(n) == 2 * (s * p);
      hide Shifted;
    } else {
      assert Shifted(x, 0) * 1 == x;
    }
  }

  lemma {:induction false} ShiftedOr(x: nat, y: nat, n: nat)
    ensures Shifted(Words.Or(x, y), n) == Words.Or(Shifted(x, n), Shifted(y, n))
  {
    if n > 0 {
      Halves(x, y);
      ShiftedOr(x / 2, y / 2, n - 1);
    }
  }

  /** A handler among hs blocks signal n. */
  ghost predicate OneBlocks(acts: seq<Action>, hs: seq<nat>, n: nat) {
    exists h :: h in hs && 0 < h <= |acts| && Has(acts[h - 1].mask, n)
  }

  lemma OneBlocksMore(acts: seq<Action>, hs: seq<nat>, n: nat)
    requires hs != []
    ensures OneBlocks(acts, hs, n) <==>
      OneBlocks(acts, hs[..|hs| - 1], n) || Has(ActionOf(acts, hs[|hs| - 1]).mask, n)
  {
    var init, last := hs[..|hs| - 1], hs[|hs| - 1];
    assert hs == init + [last];
    assert !Has(0, n) by { if n > 0 { ShiftedZero(n - 1); } }
    hide Has;
    if OneBlocks(acts, hs, n) {
      var h :| h in hs && 0 < h <= |acts| && Has(acts[h - 1].mask, n);
      assert h in init || h == last;
    }
    if OneBlocks(acts, init, n) {
      var h :| h in init && 0 < h <= |acts| && Has(acts[h - 1].mask, n);
      assert h in hs;
    }
    if Has(ActionOf(acts, last).mask, n) { assert last in hs; }
  }

  /** The accumulated mask blocks what was blocked and what the handlers' masks say, and nothing else. */
  lemma {:induction false} MasksBlock(mask: Word, acts: seq<Action>, hs: seq<nat>, n: nat)
    ensures Has(Masks(mask, acts, hs), n) <==>
      Has(mask, n) || exists h :: h in hs && 0 < h <= |acts| && Has(acts[h - 1].mask, n)
    decreases |hs|
  {
    if hs != [] {
      MasksBlock(mask, acts, hs[..|hs| - 1], n);
      OneBlocksMore(acts, hs, n);
      OrHas(Masks(mask, acts, hs[..|hs| - 1]), ActionOf(acts, hs[|hs| - 1]).mask, n);
      hide Has, Or;
      assert OneBlocks(acts, hs[..|hs| - 1], n) || Has(mask, n) <==> Has(Masks(mask, acts, hs[..|hs| - 1]), n);
      assert OneBlocks(acts, hs, n) <==> exists h :: h in hs && 0 < h <= |acts| && Has(acts[h - 1].mask, n);
    }
  }

  lemma OrHas(x: Word, y: Word, n: nat)
    ensures Has(Or(x, y), n) <==> Has(x, n) || Has(y, n)
  {
    if n > 0 {
      ShiftedOr(x, y, n - 1);
      Halves(Shifted(x, n - 1), Shifted(y, n - 1));
    }
    hide Shifted, Words.Or, Words.Pow2;
  }

  lemma {:induction false} ShiftedZero(n: nat)
    ensures Shifted(0, n) == 0
  {
    if n > 0 { ShiftedZero(n - 1); }
  }

  /** What becomes of an interrupted system call: nothing when there was none or it has its result; -EINTR when a
      handler asks for that; else it is made again, with its number and from its int $0x80. */
  lemma SyscallOutcome(tr: Regs, errorCode: int, acts: seq<Action>, handled: set<nat>)
    requires errorCode < W32 && forall n :: n in handled ==> 0 < n <= |acts|
    ensures var r := Restarted(Interrupted(tr, errorCode, acts, handled), errorCode);
      && r == tr.(eax := r.eax, eip := r.eip)
      && (errorCode < 0 || tr.eax !in {0xFFFF_FE00, 0xFFFF_FDFF, 0xFFFF_FDFE} ==> r == tr)
      && (errorCode >= 0 && tr.eax in {0xFFFF_FE00, 0xFFFF_FDFF, 0xFFFF_FDFE} ==>
            var interrupted := (tr.eax == 0xFFFF_FDFE && handled != {}) ||
              (tr.eax == 0xFFFF_FE00 && exists n :: n in handled && !acts[n - 1].restart);
            if interrupted then r.eax == 0xFFFF_FFFC && r.eip == tr.eip
            else r.eax == errorCode && r.eip == (tr.eip - 2) % 0x1_0000_0000)
  {
    if n :| n in handled && tr.eax == 0xFFFF_FDFE && errorCode >= 0 {
      assert Interrupts(tr.eax, errorCode, ActionOf(acts, n));
    }
    if n :| n in handled && !acts[n - 1].restart && tr.eax == 0xFFFF_FE00 && errorCode >= 0 {
      assert Interrupts(tr.eax, errorCode, ActionOf(acts, n));
    }
  }

  lemma NoneTaken(acts: seq<Action>, init: bool)
    ensures Stopping({}, acts, init) == {} && !Reaping({}, acts)
  {
  }

  lemma OneTaken(taken: set<nat>, n: nat, acts: seq<Action>, init: bool)
    ensures Stopping(taken + {n}, acts, init) == Stopping(taken, acts, init) + if Stops(acts, n, init) then {n} else {}
    ensures Reaping(taken + {n}, acts) <==> Reaping(taken, acts) || Reaps(acts, n)
    ensures ActionOf(acts, n).handler > 1 ==> !Stops(acts, n, init) && !Reaps(acts, n)
    ensures !(Stops(acts, n, init) && Reaps(acts, n))
  {
    if Reaping(taken, acts) {
      var m :| m in taken && Reaps(acts, m);
      assert m in taken + {n};
    }
    if Reaps(acts, n) { assert n in taken + {n}; }
  }

  /** The handler makes the interrupted system call return -EINTR. */
  predicate Interrupts(eax: Word, errorCode: int, a: Action) {
    errorCode >= 0 && (eax == MINUS_ERESTARTNOHAND || (eax == MINUS_ERESTARTSYS && !a.restart))
  }

  /** One of the handlers makes it do so. */
  predicate AnyInterrupts(eax: Word, errorCode: int, acts: seq<Action>, to_handle: set<nat>) {
    exists n :: n in to_handle && Interrupts(eax, errorCode, ActionOf(acts, n))
  }

  function Interrupted(tr: Regs, errorCode: int, acts: seq<Action>, to_handle: set<nat>): Regs
  {
    if AnyInterrupts(tr.eax, errorCode, acts, to_handle) then tr.(eax := MINUS_EINTR) else tr
  }

  /** A system call that was to be restarted backs up to its int $0x80. */
  function Restarted(tr: Regs, errorCode: int): Regs
    requires errorCode < W32
  {
    if errorCode >= 0 && tr.eax in {MINUS_ERESTARTNOHAND, MINUS_ERESTARTSYS, MINUS_ERESTARTNOINTR}
    then tr.(eax := errorCode, eip := (tr.eip - 2) % W32) else tr
  }

  lemma HandledRange(pending: set<nat>, blocked: Word, acts: seq<Action>)
    requires forall x :: x in pending ==> 0 < x <= 32
    ensures var h := Handled(pending, blocked, acts);
      (forall x :: x in h ==> 0 < x <= 32) && (h != {} ==> |Ascending(h, 32)| > 0)
  {
    var h := Handled(pending, blocked, acts);
    AscendingIs(h, 32);
    if h != {} {
      var x :| x in h;
      assert x in Ascending(h, 32);
    }
  }

  /** The smallest member, as bsf finds it. */
  function Lowest(s: set<nat>): (r: nat)
    requires s != {} && forall x :: x in s ==> x <= 32
    ensures r in s && forall x :: x in s ==> r <= x
  {
    LowestFrom(s, 0)
  }

  function LowestFrom(s: set<nat>, n: nat): (r: nat)
    requires s != {} && forall x :: x in s ==> n <= x <= 32
    ensures r in s && forall x :: x in s ==> r <= x
    decreases 33 - n
  {
    if n in s then n
    else
      var x :| x in s;
      assert n < x;
      LowestFrom(s, n + 1)
  }

  class Process {
    var tr: Regs            // the trap frame
    var errorCode: int      // its error_code field: the system call number, or -1
    var pending: set<nat>   // current->signal
    var blocked: Word
    var acts: seq<Action>   // sigaction, for signals 1 to 32
    var mem: Mem            // user memory
    var lo: nat             // the writable part of the stack is [lo, hi)
    var hi: nat
    var trapNo: Word
    var error: Word
    var cr2: Word

    ghost predicate Valid()
      reads this
    {
      |acts| == 32 && hi <= KERNEL_BASE
    }

    ghost function Now(oldMask: Word, hs: seq<nat>): Delivery
      reads this
    {
      Delivery(tr, oldMask, trapNo, error, cr2, acts, hs)
    }

    /** One put_fs_long of setup_frame, into the word that is next. */
    method PutWord(v: Word, frame: Word, i: nat, ghost s: Saved)
      requires frame + 128 < W32 && WordsAt(mem, frame, s, i) && v == FrameWord(frame, s, i)
      modifies this`mem
      ensures WordsAt(mem, frame, s, i + 1)
      ensures SameOutside(old(mem), mem, frame + 4 * i, frame + 4 * i + 4)
    {
      WordsMore(mem, frame, s, i, v);
      mem := PutLong(mem, frame + 4 * i, v);
    }
  
    /** setup_frame: a frame below fp, or death when there is no room for it. */
    method SetupFrame(fp: Word, eip: Word, signr: Word, oldMask: Word) returns (frame: Word, killed: bool)
      requires Valid()
      modifies this`mem
      ensures killed <==> !(lo <= (fp - 128) % W32 && (fp - 128) % W32 + 120 <= hi)
      ensures killed ==> mem == old(mem)
      ensures !killed ==> frame == fp - 128 && SameOutside(old(mem), mem, frame, frame + 104)
      ensures !killed ==> FrameAt(mem, frame, Saved(signr, tr.(eip := eip, esp := fp), oldMask, trapNo, error, tr.esp,
        cr2))
    {
      frame := (fp - 128) % W32;
      if !(lo <= frame && frame + 120 <= hi) { return frame, true; }
      killed := false;
      ghost var s := Saved(signr, tr.(eip := eip, esp := fp), oldMask, trapNo, error, tr.esp, cr2);
      hide WordsAt, CodeAt, SameOutside, SameFrom, ByteAt;
      NoWords(mem, frame, s);
      ghost var m0 := mem;
      PutArguments(frame, fp, eip, signr, oldMask, s);
      ghost var m1 := mem;
      PutRegisters(frame, fp, eip, signr, oldMask, s);
      Outside(m0, m1, mem, frame, frame + 32, frame + 64);
      ghost var m2 := mem;
      PutState(frame, fp, eip, signr, oldMask, s);
      Outside(m0, m2, mem, frame, frame + 64, frame + 96);
      ghost var m3 := mem;
      PutCode(frame + 96);
      Outside(m0, m3, mem, frame, frame + 96, frame + 104);
      AllWordsKept(m3, mem, frame, s);
    }

    method PutCode(code: Word)
      requires code + 8 < W32
      modifies this`mem
      ensures CodeAt(mem, code) && SameOutside(old(mem), mem, code, code + 8)
    {
      CodeWritten(mem, code);
      hide CodeAt, PutLong, ByteAt;
      mem := PutLong(mem, code, 0xb858);
      mem := PutLong(mem, code + 2, SYS_SIGRETURN);
      mem := PutLong(mem, code + 4, 0x80cd0000);
    }

    /** Return address, argument, segments and index registers. */
    method PutArguments(frame: Word, fp: Word, eip: Word, signr: Word, oldMask: Word, ghost s: Saved)
      requires frame + 128 < W32 && WordsAt(mem, frame, s, 0)
      requires s == Saved(signr, tr.(eip := eip, esp := fp), oldMask, trapNo, error, tr.esp, cr2)
      modifies this`mem
      ensures WordsAt(mem, frame, s, 8) && SameOutside(old(mem), mem, frame + 0, frame + 32)
    {
      hide WordsAt, WordAt, ByteAt;
      PutWord(frame + 96, frame, 0, s);
      PutWord(signr, frame, 1, s);
      PutWord(tr.gs, frame, 2, s);
      PutWord(tr.fs, frame, 3, s);
      PutWord(tr.es, frame, 4, s);
      PutWord(tr.ds, frame, 5, s);
      PutWord(tr.edi, frame, 6, s);
      PutWord(tr.esi, frame, 7, s);
    }

    /** Base pointer, stack pointer, general registers, trap number and error code. */
    method PutRegisters(frame: Word, fp: Word, eip: Word, signr: Word, oldMask: Word, ghost s: Saved)
      requires frame + 128 < W32 && WordsAt(mem, frame, s, 8)
      requires s == Saved(signr, tr.(eip := eip, esp := fp), oldMask, trapNo, error, tr.esp, cr2)
      modifies this`mem
      ensures WordsAt(mem, frame, s, 16) && SameOutside(old(mem), mem, frame + 32, frame + 64)
    {
      hide WordsAt, WordAt, ByteAt;
      PutWord(tr.ebp, frame, 8, s);
      PutWord(fp, frame, 9, s);
      PutWord(tr.ebx, frame, 10, s);
      PutWord(tr.edx, frame, 11, s);
      PutWord(tr.ecx, frame, 12, s);
      PutWord(tr.eax, frame, 13, s);
      PutWord(trapNo, frame, 14, s);
      PutWord(error, frame, 15, s);
    }

    /** Program counter, flags, stack at the signal, mask and fault address. */
    method PutState(frame: Word, fp: Word, eip: Word, signr: Word, oldMask: Word, ghost s: Saved)
      requires frame + 128 < W32 && WordsAt(mem, frame, s, 16)
      requires s == Saved(signr, tr.(eip := eip, esp := fp), oldMask, trapNo, error, tr.esp, cr2)
      modifies this`mem
      ensures WordsAt(mem, frame, s, 24) && SameOutside(old(mem), mem, frame + 64, frame + 96)
    {
      hide WordsAt, WordAt, ByteAt;
      PutWord(eip, frame, 16, s);
      PutWord(tr.cs, frame, 17, s);
      PutWord(tr.eflags, frame, 18, s);
      PutWord(tr.esp, frame, 19, s);
      PutWord(tr.ss, frame, 20, s);
      PutWord(0, frame, 21, s);
      PutWord(oldMask, frame, 22, s);
      PutWord(cr2, frame, 23, s);
    }

    /** The second loop of do_signal: one frame per signal to handle, the lowest first. */
    method BuildFrames(to_handle: set<nat>, oldMask: Word, ghost d: Delivery) returns (killed: bool)
      requires Valid() && forall x :: x in to_handle ==> 0 < x <= 32
      requires d == Now(oldMask, Ascending(to_handle, 32))
      modifies this`tr, this`mem, this`acts, this`blocked
      ensures Valid() && killed == !(lo + 128 * |d.hs| <= d.tr.esp <= hi + 8 || d.hs == [])
      ensures !killed ==>
        FramesIn(mem, d, |d.hs|) && tr == EntryRegs(d, |d.hs|) && blocked == Masks(old(blocked), d.acts, d.hs)
      ensures !killed ==> SameOutside(old(mem), mem, d.tr.esp - 128 * |d.hs|, d.tr.esp)
      ensures !killed ==> forall i: nat :: i < 32 ==> acts[i] == Used(d.acts[i], i + 1 in to_handle)
    {
      hide Built, Ascending, FramesIn, Masks, Or, UserSegments;
      var eip, frame, mask := tr.eip, tr.esp, oldMask;
      var signr: nat := 1;
      ghost var m0, b0, k := mem, blocked, 0;
      BuiltStart(d, mem, blocked, to_handle);
      while signr <= 32 && !(forall x :: x in to_handle ==> x < signr)
        invariant 1 <= signr <= 33 && Valid() && k == |Ascending(to_handle, signr - 1)|
        invariant Built(d, m0, b0, k, mem, tr, eip, frame, mask, blocked) && Fits(d, lo, hi, k)
        invariant forall i: nat :: i < 32 ==> acts[i] == Used(d.acts[i], i + 1 in to_handle && i + 1 < signr)
      {
        NextSignal(to_handle, signr);
        if signr in to_handle {
          var sa := acts[signr - 1];
          killed := SetupNext(frame, eip, signr, mask, blocked, d, k, m0, b0);
          if killed {
            NoRoom(d, lo, hi, k);
            return;
          }
          frame := frame - 128;
          eip := sa.handler;
          if sa.oneshot { acts := acts[signr - 1 := sa.(handler := 0)]; }
          blocked := Or(blocked, sa.mask);
          mask := Or(mask, sa.mask);
          tr := UserSegments(tr);
          k := k + 1;
        }
        signr := signr + 1;
      }
      AscendingDone(to_handle, signr - 1, 32);
      BuiltEnd(d, m0, b0, mem, tr, eip, frame, mask, blocked, lo, hi);
      tr := tr.(esp := frame, eip := eip);
      killed := false;
    }

    /** setup_frame for frame k, with what the loop will make of it. */
    method SetupNext(fp: Word, eip: Word, signr: Word, mask: Word, blk: Word, ghost d: Delivery, ghost k: nat,
                     ghost m0: Mem, ghost b0: Word) returns (killed: bool)
      requires Valid() && k < |d.hs| && d.hs[k] == signr && Built(d, m0, b0, k, mem, tr, eip, fp, mask, blk)
      requires d.trapNo == trapNo && d.error == error && d.cr2 == cr2
      modifies this`mem
      ensures killed == !(lo <= d.tr.esp - 128 * (k + 1) && d.tr.esp - 128 * k <= hi + 8)
      ensures !killed ==> fp >= 128 && var sa := ActionOf(d.acts, signr);
        Built(d, m0, b0, k + 1, mem, UserSegments(tr), sa.handler, fp - 128, Or(mask, sa.mask), Or(blk, sa.mask))
    {
      hide FrameAt, Masks, SameOutside;
      var frame;
      frame, killed := SetupFrame(fp, eip, signr, mask);
      if !killed { BuiltNext(d, m0, b0, k, old(mem), mem, tr, eip, fp, mask, blk); }
    }

    /** do_sigreturn: death when the context cannot be read. */
    method DoSigreturn() returns (killed: bool)
      requires Valid()
      modifies this`tr, this`blocked, this`errorCode
      ensures killed == !(lo <= old(tr.esp) && old(tr.esp) + 88 <= hi)
      ensures killed ==> tr == old(tr) && blocked == old(blocked)
      ensures !killed ==> Cpu(tr, blocked, mem) == Sigreturn(Cpu(old(tr), old(blocked), mem)) && errorCode == -1
    {
      hide Long, And, Restored;
      if !(lo <= tr.esp && tr.esp + 88 <= hi) { return true; }
      var context := tr.esp;
      blocked := And(Long(mem, context + 80), BLOCKABLE);
      tr := Restored(mem, context, tr);
      errorCode := -1;
      killed := false;
    }

    /** The first loop of do_signal: which pending signals have to be handled, or the one that ends the process and
        stays pending; stops are the signals that stopped the process on the way, and reaps says whether children were
        reaped. */
    method CheckSignals(init: bool) returns (v: Verdict, stops: set<nat>, reaps: bool)
      requires Valid() && forall x :: x in pending ==> 0 < x <= 32
      modifies this`pending, this`tr
      ensures match v
        case Handles(to_handle) =>
          && to_handle == Handled(old(pending), blocked, acts)
            && pending == old(pending) - Unblocked(old(pending), blocked)
          && tr == Interrupted(old(tr), errorCode, acts, to_handle)
          && (forall n :: n in Unblocked(old(pending), blocked) ==> !Fatal(acts, n, init))
        case Dies(signr) =>
          && signr in Unblocked(old(pending), blocked) && Fatal(acts, signr, init)
          && (forall n :: n in Unblocked(old(pending), blocked) && Fatal(acts, n, init) ==> signr <= n)
          && pending == old(pending) - LookedAt(old(pending), blocked, v)
      ensures stops == Stopping(LookedAt(old(pending), blocked, v), acts, init)
      ensures reaps <==> Reaping(LookedAt(old(pending), blocked, v), acts)
      ensures v.Handles? ==> forall n :: n in v.to_handle <==>
        n in old(pending) && !Has(blocked, n) && acts[n - 1].handler > 1
      ensures forall n :: n in old(pending) && !Has(blocked, n) && (v.Dies? ==> n < v.signr) ==>
        acts[n - 1].handler != 0 || init || n in {17, 18, 19, 20, 21, 22, 28}
      ensures v.Dies? ==>
        && v.signr in old(pending) && !Has(blocked, v.signr) && v.signr in pending
        && acts[v.signr - 1].handler == 0 && !init && v.signr !in {17, 18, 19, 20, 21, 22, 28}
      ensures forall n :: n in stops <==>
        && n in old(pending) && !Has(blocked, n) && (v.Dies? ==> n < v.signr)
        && acts[n - 1].handler == 0 && !init && n in {19, 20, 21, 22}
      ensures reaps <==> 17 in old(pending) && !Has(blocked, 17) && acts[16].handler == 1 && (v.Dies? ==> 17 < v.signr)
    {
      Meaning(pending, blocked, acts, init);
      ghost var p0 := pending;
      v, stops, reaps := TakeSignals(init);
      Taken(p0, blocked, acts, init, v);
    }

    /** The loop itself. */
    method TakeSignals(init: bool) returns (v: Verdict, stops: set<nat>, reaps: bool)
      requires Valid() && forall x :: x in pending ==> 0 < x <= 32
      modifies this`pending, this`tr
      ensures match v
        case Handles(to_handle) =>
          && to_handle == Handled(old(pending), blocked, acts)
            && pending == old(pending) - Unblocked(old(pending), blocked)
          && tr == Interrupted(old(tr), errorCode, acts, to_handle)
          && (forall n :: n in Unblocked(old(pending), blocked) ==> !Fatal(acts, n, init))
        case Dies(signr) =>
          && signr in Unblocked(old(pending), blocked) && Fatal(acts, signr, init)
          && (forall n :: n in Unblocked(old(pending), blocked) && Fatal(acts, n, init) ==> signr <= n)
          && pending == old(pending) - LookedAt(old(pending), blocked, v)
      ensures stops == Stopping(LookedAt(old(pending), blocked, v), acts, init)
      ensures reaps <==> Reaping(LookedAt(old(pending), blocked, v), acts)
    {
      hide Checked, Interrupts, LookedAt, Stopping, Reaping, Unblocked, Handled, Fatal, Stops, Reaps, Interrupted;
      var to_handle: set<nat> := {};
      ghost var p0, tr0, done := pending, tr, {};
      stops, reaps := {}, false;
      CheckedStart(pending, tr, blocked, errorCode, acts, init);
      NoneTaken(acts, init);
      while true
        invariant Checked(p0, pending, done, to_handle, tr0, tr, blocked, errorCode, acts, init)
        invariant stops == Stopping(done, acts, init) && (reaps <==> Reaping(done, acts))
        decreases |pending|
      {
        CheckedNext(p0, pending, done, to_handle, tr0, tr, blocked, errorCode, acts, init);
        var unblocked := Unblocked(pending, blocked);
        if unblocked == {} { return Handles(to_handle), stops, reaps; }
        var signr := Lowest(unblocked);
        OneTaken(done, signr, acts, init);
        pending := pending - {signr};
        if Fatal(acts, signr, init) {
          pending := pending + {signr};
          return Dies(signr), stops, reaps;
        }
        var action := ActionOf(acts, signr).handler;
        if action > 1 {
          if Interrupts(tr.eax, errorCode, ActionOf(acts, signr)) { tr := tr.(eax := MINUS_EINTR); }
          to_handle := to_handle + {signr};
        } else if Reaps(acts, signr) {
          reaps := true;
        } else if Stops(acts, signr, init) {
          stops := stops + {signr};
        }
        done := done + {signr};
      }
    }

    /** do_signal: 1 when the thread is set up to run its handlers (see Unwind), 0 when none has to run, -1 when it
        dies. */
    method DoSignal(oldMask: Word, init: bool) returns (result: int, stops: set<nat>, reaps: bool, ghost d: Delivery)
      requires Valid() && (forall x :: x in pending ==> 0 < x <= 32) && errorCode < W32
      modifies this
      ensures result in {1, 0, -1} && Valid()
      ensures var handled := Handled(old(pending), old(blocked), old(acts));
        && d == Delivery(Restarted(Interrupted(old(tr), old(errorCode), old(acts), handled), old(errorCode)),
                         oldMask, old(trapNo), old(error), old(cr2), old(acts), Ascending(handled, 32))
        && (result == 0 ==> handled == {} && tr == d.tr && mem == old(mem) && blocked == old(blocked))
        && (result == 1 ==> handled != {} && |d.hs| > 0 && Entered(Cpu(tr, blocked, mem), d, |d.hs|))
      ensures result == 1 ==> blocked == Masks(old(blocked), d.acts, d.hs) && trapNo == error == 0
      ensures result >= 0 ==> pending == old(pending) - Unblocked(old(pending), old(blocked))
      ensures result >= 0 ==>
        && stops == Stopping(Unblocked(old(pending), old(blocked)), old(acts), init)
        && (reaps <==> Reaping(Unblocked(old(pending), old(blocked)), old(acts)))
      ensures result == 1 ==> SameOutside(old(mem), mem, tr.esp, d.tr.esp)
    {
      hide Handled, Unblocked, FramesIn, Masks, SameOutside, Ascending;
      ghost var handled := Handled(pending, blocked, acts);
      HandledRange(pending, blocked, acts);
      ghost var b0 := blocked;
      d := Delivery(Restarted(Interrupted(tr, errorCode, acts, handled), errorCode), oldMask, trapNo, error, cr2, acts,
        Ascending(handled, 32));
      var v;
      v, stops, reaps := CheckSignals(init);
      if v.Dies? { return -1, stops, reaps, d; }
      var eax := tr.eax;
      if errorCode >= 0 && (eax == MINUS_ERESTARTNOHAND || eax == MINUS_ERESTARTSYS || eax == MINUS_ERESTARTNOINTR) {
        tr := tr.(eax := errorCode, eip := (tr.eip - 2) % W32);
      }
      if v.to_handle == {} { return 0, stops, reaps, d; }
      var killed := BuildFrames(v.to_handle, oldMask, d);
      if killed { return -1, stops, reaps, d; }
      trapNo, error := 0, 0;
      result := 1;
    }
  }

  /** done are the signals looked at so far, the lowest ones. */
  ghost predicate Checked(p0: set<nat>, p: set<nat>, done: set<nat>, to_handle: set<nat>, tr0: Regs, tr: Regs,
                          blocked: Word, errorCode: int, acts: seq<Action>, init: bool)
  {
    var all := Unblocked(p0, blocked);
    && done <= all && p == p0 - done && (forall x :: x in p0 ==> x <= 32)
    && (forall d, n :: d in done && n in all && n !in done ==> d < n)
    && (forall n :: n in to_handle <==> n in done && ActionOf(acts, n).handler > 1)
    && (forall n :: n in done ==> !Fatal(acts, n, init))
    && tr == Interrupted(tr0, errorCode, acts, to_handle)
  }

  lemma CheckedStart(p: set<nat>, tr: Regs, blocked: Word, errorCode: int, acts: seq<Action>, init: bool)
    requires forall x :: x in p ==> x <= 32
    ensures Checked(p, p, {}, {}, tr, tr, blocked, errorCode, acts, init)
  {
  }

  /** What one round of the loop does, and what is known when it ends. */
  lemma CheckedNext(p0: set<nat>, p: set<nat>, done: set<nat>, to_handle: set<nat>, tr0: Regs, tr: Regs,
                    blocked: Word, errorCode: int, acts: seq<Action>, init: bool)
    requires Checked(p0, p, done, to_handle, tr0, tr, blocked, errorCode, acts, init)
    ensures var unblocked := Unblocked(p, blocked);
      && unblocked <= p && (forall x :: x in unblocked ==> x <= 32 && x in Unblocked(p0, blocked))
      && (forall n :: n in Unblocked(p0, blocked) && n !in unblocked ==> !Fatal(acts, n, init))
      && p == p0 - done && (unblocked == {} ==> forall v: Verdict :: v.Handles? ==> LookedAt(p0, blocked, v) == done)
      && (forall n :: n in unblocked && (forall x :: x in unblocked ==> n <= x) ==>
        LookedAt(p0, blocked, Dies(n)) == done)
      && (unblocked == {} ==>
            to_handle == Handled(p0, blocked, acts) && p == p0 - Unblocked(p0, blocked)
              && tr == Interrupted(tr0, errorCode, acts, to_handle))
      && (forall n :: n in unblocked && (forall x :: x in unblocked ==> n <= x) && !Fatal(acts, n, init) ==>
            var use := ActionOf(acts, n).handler > 1;
            Checked(p0, p - {n}, done + {n}, if use then to_handle + {n} else to_handle, tr0,
                    if use && Interrupts(tr.eax, errorCode, ActionOf(acts, n)) then tr.(eax := MINUS_EINTR) else tr,
                    blocked, errorCode, acts, init))
  {
    var unblocked := Unblocked(p, blocked);
    assert unblocked == Unblocked(p0, blocked) - done;
    forall n | n in unblocked && (forall x :: x in unblocked ==> n <= x) && !Fatal(acts, n, init)
      ensures var use := ActionOf(acts, n).handler > 1;
        Checked(p0, p - {n}, done + {n}, if use then to_handle + {n} else to_handle, tr0,
                if use && Interrupts(tr.eax, errorCode, ActionOf(acts, n)) then tr.(eax := MINUS_EINTR) else tr,
                blocked, errorCode, acts, init)
    {
      InterruptedMore(tr0, errorCode, acts, to_handle, n);
      hide Interrupts, Has, Fatal, Interrupted;
      assert n in Unblocked(p0, blocked) && n !in done;
      assert p - {n} == p0 - (done + {n});
      forall d, m | d in done + {n} && m in Unblocked(p0, blocked) && m !in done + {n} ensures d < m {
        assert m in unblocked;
      }
    }
  }

  lemma InterruptedMore(tr: Regs, errorCode: int, acts: seq<Action>, to_handle: set<nat>, n: nat)
    ensures var tr' := Interrupted(tr, errorCode, acts, to_handle);
      Interrupted(tr, errorCode, acts, to_handle + {n})
        == if Interrupts(tr'.eax, errorCode, ActionOf(acts, n)) then tr'.(eax := MINUS_EINTR) else tr'
  {
    assert forall x :: x in to_handle + {n} <==> x in to_handle || x == n;
  }

  /** The two memories agree outside [lo, hi). */
  ghost predicate SameOutside(m: Mem, m': Mem, lo: int, hi: int) {
    forall b :: b < lo || hi <= b ==> ByteAt(m', b) == ByteAt(m, b)
  }

  function Used(a: Action, used: bool): Action { if used && a.oneshot then a.(handler := 0) else a }

  /** k frames are built, and the loop's variables are what they should be. */
  ghost predicate Built(d: Delivery, m0: Mem, b0: Word, k: nat, mem: Mem, tr: Regs, eip: Word, frame: Word, mask: Word,
                        blocked: Word)
  {
    && FramesIn(mem, d, k) && SameOutside(m0, mem, d.tr.esp - 128 * k, d.tr.esp)
    && tr == (if k == 0 then d.tr else UserSegments(d.tr)) && eip == EntryRegs(d, k).eip && frame == d.tr.esp - 128 * k
    && mask == Masks(d.oldMask, d.acts, d.hs[..k]) && blocked == Masks(b0, d.acts, d.hs[..k])
  }

  /** The stack has room for k frames. */
  predicate Fits(d: Delivery, lo: nat, hi: nat, k: nat) { k == 0 || lo + 128 * k <= d.tr.esp <= hi + 8 }

  lemma BuiltStart(d: Delivery, m: Mem, blocked: Word, to_handle: set<nat>)
    requires d.hs == Ascending(to_handle, 32)
    ensures Built(d, m, blocked, 0, m, d.tr, d.tr.eip, d.tr.esp, d.oldMask, blocked) && |Ascending(to_handle, 0)| == 0
  {
    AscendingIs(to_handle, 32);
    forall i | 0 <= i < |d.hs| ensures d.hs[i] <= 32 { assert d.hs[i] in d.hs; }
  }

  lemma BuiltEnd(d: Delivery, m0: Mem, b0: Word, mem: Mem, tr: Regs, eip: Word, frame: Word, mask: Word, blocked: Word,
                 lo: nat, hi: nat)
    requires Built(d, m0, b0, |d.hs|, mem, tr, eip, frame, mask, blocked) && Fits(d, lo, hi, |d.hs|)
    ensures FramesIn(mem, d, |d.hs|) && tr.(esp := frame, eip := eip) == EntryRegs(d, |d.hs|)
    ensures blocked == Masks(b0, d.acts, d.hs) && SameOutside(m0, mem, d.tr.esp - 128 * |d.hs|, d.tr.esp)
    ensures lo + 128 * |d.hs| <= d.tr.esp <= hi + 8 || d.hs == []
  {
    assert d.hs[..|d.hs|] == d.hs;
  }

  lemma NoRoom(d: Delivery, lo: nat, hi: nat, k: nat)
    requires k < |d.hs| && Fits(d, lo, hi, k) && !(lo <= d.tr.esp - 128 * (k + 1) && d.tr.esp - 128 * k <= hi + 8)
    ensures !(lo + 128 * |d.hs| <= d.tr.esp <= hi + 8)
  {
  }

  lemma BuiltNext(d: Delivery, m0: Mem, b0: Word, k: nat, m: Mem, m': Mem, tr: Regs, eip: Word, fp: Word, mask: Word,
                  blocked: Word)
    requires k < |d.hs| && Built(d, m0, b0, k, m, tr, eip, fp, mask, blocked) && fp >= 128
    requires FrameAt(m', fp - 128, Saved(d.hs[k], tr.(eip := eip, esp := fp), mask, d.trapNo, d.error, tr.esp, d.cr2))
    requires SameOutside(m, m', fp - 128, fp - 24)
    ensures var sa := ActionOf(d.acts, d.hs[k]);
      Built(d, m0, b0, k + 1, m', UserSegments(tr), sa.handler, fp - 128, Or(mask, sa.mask), Or(blocked, sa.mask))
  {
    hide FrameAt, Or, ByteAt;
    assert Saved(d.hs[k], tr.(eip := eip, esp := fp), mask, d.trapNo, d.error, tr.esp, d.cr2) == SavedIn(d, k);
    OneMore(m, m', d, k);
    MasksMore(d.oldMask, d.acts, d.hs, k);
    MasksMore(b0, d.acts, d.hs, k);
    Outside2(m0, m, m', fp - 128, fp, d.tr.esp);
    hide FramesIn, SameOutside, Masks;
  }

  lemma MasksMore(mask: Word, acts: seq<Action>, hs: seq<nat>, k: nat)
    requires k < |hs|
    ensures Masks(mask, acts, hs[..k + 1]) == Or(Masks(mask, acts, hs[..k]), ActionOf(acts, hs[k]).mask)
  {
    assert hs[..k + 1][..k] == hs[..k];
  }

  lemma NextSignal(to_handle: set<nat>, signr: nat)
    requires 0 < signr <= 32
    ensures var k := |Ascending(to_handle, signr - 1)|;
      |Ascending(to_handle, signr)| == (if signr in to_handle then k + 1 else k)
      && (signr in to_handle ==> k < |Ascending(to_handle, 32)| && Ascending(to_handle, 32)[k] == signr)
  {
    AscendingPrefix(to_handle, signr, 32);
  }

  lemma {:induction false} AscendingPrefix(to_handle: set<nat>, m: nat, n: nat)
    requires m <= n
    ensures Ascending(to_handle, m) <= Ascending(to_handle, n)
  {
    if m < n { AscendingPrefix(to_handle, m, n - 1); }
  }

  lemma OneMore(m: Mem, m': Mem, d: Delivery, k: nat)
    requires k < |d.hs| && FramesIn(m, d, k) && Room(d, k + 1) && FrameAt(m', FramePlace(d, k), SavedIn(d, k))
    requires SameOutside(m, m', FramePlace(d, k), FramePlace(d, k) + 104)
    ensures FramesIn(m', d, k + 1)
  {
    hide FrameAt;
    FramesKept(m, m', d, k);
    assert FrameIn(m', d, k);
  }

  lemma Outside2(m: Mem, m': Mem, m'': Mem, lo: int, mid: int, hi: int)
    requires lo <= mid - 128 && mid <= hi && SameOutside(m, m', mid, hi) && SameOutside(m', m'', lo, mid - 24)
    ensures SameOutside(m, m'', lo, hi)
  {
    hide ByteAt;
  }

  lemma Outside(m: Mem, m': Mem, m'': Mem, lo: int, mid: int, hi: int)
    requires lo <= mid <= hi && SameOutside(m, m', lo, mid) && SameOutside(m', m'', mid, hi)
    ensures SameOutside(m, m'', lo, hi)
  {
    hide ByteAt;
  }

  lemma NoWords(m: Mem, f: Word, s: Saved)
    requires f + 128 < W32
    ensures WordsAt(m, f, s, 0)
  {
  }

  lemma AllWordsKept(m: Mem, m': Mem, f: Word, s: Saved)
    requires f + 128 < W32 && WordsAt(m, f, s, 24) && SameOutside(m, m', f + 96, f + 104)
    ensures WordsAt(m', f, s, 24)
  {
    hide WordAt;
    forall i | 0 <= i < 24 ensures WordAt(m', f, s, i) { WordKept(m, m', f, s, i); }
  }

  // Unwinding.

  /** The frame, word by word: what a handler and a debugger find on the stack. */
  lemma FrameLayout(m: Mem, f: Word, s: Saved)
    requires FrameAt(m, f, s)
    ensures Long(m, f) == f + 96 && Long(m, f + 4) == s.signr
    ensures Long(m, f + 8) == s.r.gs && Long(m, f + 12) == s.r.fs && Long(m, f + 16) == s.r.es
    ensures Long(m, f + 20) == s.r.ds && Long(m, f + 24) == s.r.edi && Long(m, f + 28) == s.r.esi
    ensures Long(m, f + 32) == s.r.ebp && Long(m, f + 36) == s.r.esp && Long(m, f + 40) == s.r.ebx
    ensures Long(m, f + 44) == s.r.edx && Long(m, f + 48) == s.r.ecx && Long(m, f + 52) == s.r.eax
    ensures Long(m, f + 56) == s.trapNo && Long(m, f + 60) == s.error && Long(m, f + 64) == s.r.eip
    ensures Long(m, f + 68) == s.r.cs && Long(m, f + 72) == s.r.eflags && Long(m, f + 76) == s.espAtSignal
    ensures Long(m, f + 80) == s.r.ss && Long(m, f + 84) == 0 && Long(m, f + 88) == s.oldMask
    ensures Long(m, f + 92) == s.cr2
  {
    hide Long, CodeAt;
    assert WordAt(m, f, s, 0) && WordAt(m, f, s, 1) && WordAt(m, f, s, 2) && WordAt(m, f, s, 3) && WordAt(m, f, s,
      4) && WordAt(m, f, s, 5);
    assert WordAt(m, f, s, 6) && WordAt(m, f, s, 7) && WordAt(m, f, s, 8) && WordAt(m, f, s, 9) && WordAt(m, f, s,
      10) && WordAt(m, f, s, 11);
    assert WordAt(m, f, s, 12) && WordAt(m, f, s, 13) && WordAt(m, f, s, 14) && WordAt(m, f, s, 15) && WordAt(m, f,
      s, 16) && WordAt(m, f, s, 17);
    assert WordAt(m, f, s, 18) && WordAt(m, f, s, 19) && WordAt(m, f, s, 20) && WordAt(m, f, s, 21) && WordAt(m, f,
      s, 22) && WordAt(m, f, s, 23);
  }

  /** What a handler is free to do: anything with its registers but esp, and with memory outside the frames. */
  lemma HandlerMay(c: Cpu, ret: Cpu, d: Delivery)
    requires ret.r.esp == c.r.esp
    requires forall b :: c.r.esp <= b < c.r.esp + 4 || c.r.esp + 8 <= b < d.tr.esp ==>
      (b in ret.mem <==> b in c.mem) && (b in c.mem ==> ret.mem[b] == c.mem[b])
    ensures Behaves(c, ret, d)
  {
  }

  /** do_sigreturn takes exactly the flags in FLAGS_MASK from the context. */
  lemma FlagsMixed(now: Word, saved: Word)
    ensures var f := Or(And(now, Not(FLAGS_MASK)), And(saved, FLAGS_MASK));
      And(f, FLAGS_MASK) == And(saved, FLAGS_MASK) && And(f, Not(FLAGS_MASK)) == And(now, Not(FLAGS_MASK))
  {
    Words.Pow2Values();
    MixedBits(now, saved, FLAGS_MASK, 32);
  }

  /** r is e, up to flags that do_sigreturn does not restore. */
  predicate SameRegs(r: Regs, e: Regs) {
    r == e.(eflags := r.eflags) && And(r.eflags, FLAGS_MASK) == And(e.eflags, FLAGS_MASK)
  }

  /** The thread is about to run the handler of frame k - 1, or for k = 0 what was interrupted. */
  ghost predicate Entered(c: Cpu, d: Delivery, k: nat) {
    FramesIn(c.mem, d, k) && SameRegs(c.r, EntryRegs(d, k))
  }

  /** A handler may do anything but end elsewhere on the stack or change frames other than its argument. */
  ghost predicate Behaves(c: Cpu, ret: Cpu, d: Delivery) {
    ret.r.esp == c.r.esp && SameFrom(c.mem, ret.mem, c.r.esp, c.r.esp + 4)
      && SameFrom(c.mem, ret.mem, c.r.esp + 8, d.tr.esp)
  }

  lemma UnwindOne(c: Cpu, ret: Cpu, d: Delivery, k: nat)
    requires k > 0 && Entered(c, d, k) && Behaves(c, ret, d)
    ensures Return(ret).Some? && Entered(Return(ret).value, d, k - 1)
    ensures Return(ret).value.blocked == And(Masks(d.oldMask, d.acts, d.hs[..k - 1]), BLOCKABLE)
  {
    hide FrameAt, FrameLeft, Return, And, Or, Not, Masks;
    assert FrameIn(c.mem, d, k - 1);
    FrameUsed(c.mem, ret.mem, FramePlace(d, k - 1), SavedIn(d, k - 1));
    ReturnRestores(ret, SavedIn(d, k - 1));
    FlagsMixed(ret.r.eflags, d.tr.eflags);
    FramesKept(c.mem, ret.mem, d, k - 1);
    hide FramesIn, FrameIn;
  }

  /** The thread when it enters its handler number j, given where each handler before it returned. */
  function EntryOf(c: Cpu, rets: seq<Cpu>, j: nat): Cpu
    requires j <= |rets|
  {
    if j == 0 then c
    else
      var r := Return(rets[j - 1]);
      if r.Some? then r.value else rets[j - 1]
  }

  ghost predicate AllBehave(c: Cpu, rets: seq<Cpu>, d: Delivery) {
    forall j :: 0 <= j < |rets| ==> Behaves(EntryOf(c, rets, j), rets[j], d)
  }

  /** What the thread finds when it enters its handler number j: code, argument, stack and mask of the j-th highest
      signal. */
  ghost predicate Finds(c: Cpu, d: Delivery, n: nat, j: nat)
    requires j < n <= |d.hs|
  {
    && c.r.eip == ActionOf(d.acts, d.hs[n - 1 - j]).handler && c.r.esp == d.tr.esp - 128 * (n - j)
    && Long(c.mem, c.r.esp + 4) == d.hs[n - 1 - j]
    && (j > 0 ==> c.blocked == And(Masks(d.oldMask, d.acts, d.hs[..n - j]), BLOCKABLE))
  }

  lemma {:induction false} UnwindTo(c: Cpu, rets: seq<Cpu>, d: Delivery, n: nat, j: nat)
    requires n <= |d.hs| && |rets| == n && j <= n && Entered(c, d, n) && AllBehave(c, rets, d)
    ensures Entered(EntryOf(c, rets, j), d, n - j)
    ensures j > 0 ==> EntryOf(c, rets, j).blocked == And(Masks(d.oldMask, d.acts, d.hs[..n - j]), BLOCKABLE)
  {
    hide Entered, Behaves, Return, Masks;
    if j > 0 {
      UnwindTo(c, rets, d, n, j - 1);
      assert Behaves(EntryOf(c, rets, j - 1), rets[j - 1], d);
      UnwindOne(EntryOf(c, rets, j - 1), rets[j - 1], d, n - (j - 1));
    }
  }

  lemma EntryFinds(c: Cpu, d: Delivery, k: nat)
    requires 0 < k <= |d.hs| && Entered(c, d, k)
    ensures c.r.eip == ActionOf(d.acts, d.hs[k - 1]).handler && c.r.esp == d.tr.esp - 128 * k
    ensures Long(c.mem, c.r.esp + 4) == d.hs[k - 1]
  {
    hide Long, And, CodeAt;
    assert FrameIn(c.mem, d, k - 1);
    assert WordAt(c.mem, FramePlace(d, k - 1), SavedIn(d, k - 1), 1);
  }

  /** Every handler is entered once, the highest signal first, with its own argument, stack and mask; when all have
      returned, the thread has the registers, the stack and the mask it had, up to flags sigreturn leaves alone. */
  lemma Unwind(c: Cpu, rets: seq<Cpu>, d: Delivery)
    requires Entered(c, d, |d.hs|) && |rets| == |d.hs| > 0 && AllBehave(c, rets, d)
    ensures forall j :: 0 <= j < |rets| ==> var at, h := EntryOf(c, rets, j), d.hs[|rets| - 1 - j];
      && at.r.eip == ActionOf(d.acts, h).handler && at.r.esp == d.tr.esp - 128 * (|rets| - j)
      && Long(at.mem, at.r.esp + 4) == h
      && (j > 0 ==> at.blocked == And(Masks(d.oldMask, d.acts, d.hs[..|rets| - j]), BLOCKABLE))
    ensures var end := EntryOf(c, rets, |rets|);
      && end.r == d.tr.(eflags := end.r.eflags) && And(end.r.eflags, FLAGS_MASK) == And(d.tr.eflags, FLAGS_MASK)
      && end.blocked == And(d.oldMask, BLOCKABLE)
  {
    var n := |rets|;
    hide Return, Masks, And, Entered, AllBehave, EntryOf;
    forall j | 0 <= j < n ensures Finds(EntryOf(c, rets, j), d, n, j) {
      UnwindTo(c, rets, d, n, j);
      EntryFinds(EntryOf(c, rets, j), d, n - j);
    }
    UnwindTo(c, rets, d, n, n);
    EntryEnd(EntryOf(c, rets, n), d);
    NoMasks(d);
  }

  lemma EntryEnd(c: Cpu, d: Delivery)
    requires Entered(c, d, 0)
    ensures SameRegs(c.r, d.tr)
  {
  }

  lemma NoMasks(d: Delivery)
    ensures Masks(d.oldMask, d.acts, d.hs[..0]) == d.oldMask
  {
  }

  /** The mask before delivery comes back when it blocked nothing that cannot be blocked. */
  lemma MaskComesBack(mask: Word)
    requires And(mask, Not(BLOCKABLE)) == 0
    ensures And(mask, BLOCKABLE) == mask
  {
    Words.Pow2Values();
    WithinMask(mask, BLOCKABLE, 32);
  }
}

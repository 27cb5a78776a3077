/** src/kernel/logbuf.c: variable-length records serialised into a wrapping byte array. */
module LogRing {
  import opened Lists
  import Words

  const LOG_BUF_LEN: nat := 16384
  const LOG_LINE_MAX: nat := 1024
  const LOG_RECORD_HEADER: nat := 20
  const W32: nat := Words.W32
  const EPIPE: int := 32

  type Byte = x | 0 <= x < 256

  /** struct log_record with its text. */
  datatype Record = Record(prio: nat, flags: nat, seqno: nat, usec: nat, text: seq<Byte>)

  predicate WellFormed(r: Record) {
    r.prio < 0x1_0000 && r.flags < 0x1_0000 && r.seqno < W32 && r.usec < 0x1_0000_0000_0000_0000
      && 0 < |r.text| <= LOG_LINE_MAX
  }

  // Little-endian words.

  function Pow256(n: nat): nat { if n == 0 then 1 else 256 * Pow256(n - 1) }

  function Word(x: nat, n: nat): (s: seq<Byte>)
    ensures |s| == n
  {
    if n == 0 then [] else [x % 256] + Word(x / 256, n - 1)
  }

  function UnWord(s: seq<Byte>): nat { if s == [] then 0 else s[0] + 256 * UnWord(s[1..]) }

  lemma {:induction false} WordRoundTrip(x: nat, n: nat)
    requires x < Pow256(n)
    ensures UnWord(Word(x, n)) == x
  {
    if n > 0 {
      WordRoundTrip(x / 256, n - 1);
      assert Word(x, n)[1..] == Word(x / 256, n - 1);
    }
  }

  function Header(r: Record): (s: seq<Byte>)
    ensures |s| == LOG_RECORD_HEADER
  {
    Word(|r.text|, 4) + Word(r.prio, 2) + Word(r.flags, 2) + Word(r.seqno, 4) + Word(r.usec, 8)
  }

  /** A record as it lies in the log: header, text and NUL. */
  function Encode(r: Record): (s: seq<Byte>)
    ensures |s| == LOG_RECORD_HEADER + |r.text| + 1
  {
    Header(r) + r.text + [0]
  }

  /** The fields of a header; len is the length of the text behind it. */
  datatype Head = Head(len: nat, prio: nat, flags: nat, seqno: nat, usec: nat)

  function Decode(h: seq<Byte>): Head
    requires |h| == LOG_RECORD_HEADER
  {
    Head(UnWord(h[..4]), UnWord(h[4..6]), UnWord(h[6..8]), UnWord(h[8..12]), UnWord(h[12..]))
  }

  function HeadOf(r: Record): Head { Head(|r.text|, r.prio, r.flags, r.seqno, r.usec) }

  lemma HeaderRoundTrip(r: Record)
    requires WellFormed(r)
    ensures Decode(Header(r)) == HeadOf(r)
  {
    Powers();
    WordRoundTrip(|r.text|, 4);
    WordRoundTrip(r.prio, 2);
    WordRoundTrip(r.flags, 2);
    WordRoundTrip(r.seqno, 4);
    WordRoundTrip(r.usec, 8);
    HeaderParts(Word(|r.text|, 4), Word(r.prio, 2), Word(r.flags, 2), Word(r.seqno, 4), Word(r.usec, 8));
    hide Pow256, Word, UnWord;
  }

  lemma HeaderParts(a: seq<Byte>, b: seq<Byte>, c: seq<Byte>, d: seq<Byte>, e: seq<Byte>)
    requires |a| == 4 && |b| == 2 && |c| == 2 && |d| == 4 && |e| == 8
    ensures var h := a + b + c + d + e;
      h[..4] == a && h[4..6] == b && h[6..8] == c && h[8..12] == d && h[12..] == e
  {
  }

  lemma Powers()
    ensures Pow256(2) == 0x1_0000 && Pow256(4) == W32 && Pow256(8) == 0x1_0000_0000_0000_0000
  {
    assert Pow256(1) == 256;
    assert Pow256(3) == 0x100_0000;
    assert Pow256(5) == 0x100_0000_0000;
    assert Pow256(6) == 0x1_0000_0000_0000;
    assert Pow256(7) == 0x100_0000_0000_0000;
  }

  // The ring.

  /** Where p lies, counted from off. */
  function Dist(off: nat, p: nat): (d: nat)
    ensures d < LOG_BUF_LEN
  {
    (p - off) % LOG_BUF_LEN
  }

  /** The len bytes from off on. */
  function Ring(b: seq<Byte>, off: nat, len: nat): (s: seq<Byte>)
    requires |b| == LOG_BUF_LEN
    ensures |s| == len
  {
    seq(len, j requires 0 <= j < len => b[(off + j) % LOG_BUF_LEN])
  }

  /** b with src written from off on. */
  function Written(b: seq<Byte>, off: nat, src: seq<Byte>): (r: seq<Byte>)
    requires |b| == LOG_BUF_LEN
    ensures |r| == LOG_BUF_LEN
  {
    seq(LOG_BUF_LEN, p requires 0 <= p < LOG_BUF_LEN => if Dist(off, p) < |src| then src[Dist(off, p)] else b[p])
  }

  lemma DistAt(off: nat, j: nat, k: nat)
    ensures Dist(off + j, (off + k) % LOG_BUF_LEN) == (k - j) % LOG_BUF_LEN
  {
  }

  lemma DistMore(off: nat, n: nat, p: nat)
    requires n < LOG_BUF_LEN
    ensures Dist(off + n, p) == if Dist(off, p) >= n then Dist(off, p) - n else Dist(off, p) + LOG_BUF_LEN - n
  {
  }

  lemma WrittenTwice(b: seq<Byte>, off: nat, s: seq<Byte>, t: seq<Byte>)
    requires |b| == LOG_BUF_LEN && |s| + |t| <= LOG_BUF_LEN && |s| < LOG_BUF_LEN
    ensures Written(Written(b, off, s), off + |s|, t) == Written(b, off, s + t)
  {
    forall p: nat | p < LOG_BUF_LEN ensures Written(Written(b, off, s), off + |s|, t)[p] == Written(b, off, s + t)[p] {
      DistMore(off, |s|, p);
    }
  }

  lemma ReadBack(b: seq<Byte>, off: nat, s: seq<Byte>)
    requires |b| == LOG_BUF_LEN && |s| <= LOG_BUF_LEN
    ensures Ring(Written(b, off, s), off, |s|) == s
  {
    forall j: nat | j < |s| ensures Ring(Written(b, off, s), off, |s|)[j] == s[j] { DistAt(off, 0, j); }
  }

  /** Writing behind n bytes leaves them as they are. */
  lemma WrittenBehind(b: seq<Byte>, tail: nat, n: nat, s: seq<Byte>)
    requires |b| == LOG_BUF_LEN && n + |s| <= LOG_BUF_LEN
    ensures Ring(Written(b, tail + n, s), tail, n) == Ring(b, tail, n)
  {
    forall j: nat | j < n
      ensures Ring(Written(b, tail + n, s), tail, n)[j] == Ring(b, tail, n)[j]
    {
      DistAt(tail, n, j);
    }
  }

  lemma RingSplit(b: seq<Byte>, off: nat, m: nat, n: nat)
    requires |b| == LOG_BUF_LEN
    ensures Ring(b, off, m + n) == Ring(b, off, m) + Ring(b, off + m, n)
  {
  }

  /** An offset only matters modulo the length. */
  lemma RingMod(b: seq<Byte>, off: nat, n: nat)
    requires |b| == LOG_BUF_LEN
    ensures Ring(b, off % LOG_BUF_LEN, n) == Ring(b, off, n)
  {
    forall j: nat | j < n ensures Ring(b, off % LOG_BUF_LEN, n)[j] == Ring(b, off, n)[j] { ModPlus(off, j); }
  }

  lemma ModPlus(off: nat, j: nat)
    ensures (off % LOG_BUF_LEN + j) % LOG_BUF_LEN == (off + j) % LOG_BUF_LEN
  {
  }

  lemma WrittenMod(b: seq<Byte>, off: nat, s: seq<Byte>)
    requires |b| == LOG_BUF_LEN
    ensures Written(b, off % LOG_BUF_LEN, s) == Written(b, off, s)
  {
    forall p: nat | p < LOG_BUF_LEN
      ensures Written(b, off % LOG_BUF_LEN, s)[p] == Written(b, off, s)[p]
    {
      DistMod(off, p);
    }
  }

  lemma DistMod(off: nat, p: nat)
    ensures Dist(off % LOG_BUF_LEN, p) == Dist(off, p)
  {
  }

  // The queue of records.

  function Bytes(rs: seq<Record>): seq<Byte>
  {
    if rs == [] then [] else Encode(rs[0]) + Bytes(rs[1..])
  }

  lemma {:induction false} BytesConcat(rs: seq<Record>, ts: seq<Record>)
    ensures Bytes(rs + ts) == Bytes(rs) + Bytes(ts)
  {
    if rs == [] {
      assert rs + ts == ts;
    } else {
      assert (rs + ts)[1..] == rs[1..] + ts;
      BytesConcat(rs[1..], ts);
    }
  }

  /** The longest suffix of all records ever stored that fits the log. */
  function Retained(h: seq<Record>): seq<Record>
  {
    if |Bytes(h)| <= LOG_BUF_LEN then h else Retained(h[1..])
  }

  lemma {:induction false} RetainedIs(h: seq<Record>)
    ensures var r := Retained(h);
      && |r| <= |h| && r == h[|h| - |r|..] && |Bytes(r)| <= LOG_BUF_LEN
      && (|r| < |h| ==> |Bytes(h[|h| - |r| - 1..])| > LOG_BUF_LEN)
  {
    if |Bytes(h)| > LOG_BUF_LEN {
      RetainedIs(h[1..]);
      var r := Retained(h);
      assert h[1..][|h[1..]| - |r|..] == h[|h| - |r|..];
      if |r| < |h[1..]| { assert h[1..][|h[1..]| - |r| - 1..] == h[|h| - |r| - 1..]; } else { assert h[0..] == h; }
    }
  }

  /** One more record only needs what was retained so far. */
  lemma {:induction false} RetainedStep(h: seq<Record>, r: Record)
    ensures Retained(h + [r]) == Retained(Retained(h) + [r])
  {
    if |Bytes(h)| > LOG_BUF_LEN {
      BytesConcat(h, [r]);
      assert (h + [r])[1..] == h[1..] + [r];
      RetainedStep(h[1..], r);
    }
  }

  /** Sequence numbers are contiguous modulo 2^32 and end before next. */
  ghost predicate Numbered(rs: seq<Record>, next: nat) {
    forall i :: 0 <= i < |rs| ==> rs[i].seqno == (next - (|rs| - i)) % W32
  }

  ghost predicate AllWellFormed(rs: seq<Record>) { forall r :: r in rs ==> WellFormed(r) }

  /** The index of the first record from i on with this number, or |rs|. */
  function LookupFrom(rs: seq<Record>, n: nat, i: nat): (k: nat)
    requires i <= |rs|
    ensures i <= k <= |rs| && (k < |rs| ==> rs[k].seqno == n) && forall j :: i <= j < k ==> rs[j].seqno != n
    decreases |rs| - i
  {
    if i == |rs| || rs[i].seqno == n then i else LookupFrom(rs, n, i + 1)
  }

  function Lookup(rs: seq<Record>, n: nat): nat { LookupFrom(rs, n, 0) }

  lemma {:induction false} BytesAtLeast(rs: seq<Record>)
    requires AllWellFormed(rs)
    ensures |Bytes(rs)| >= 22 * |rs|
  {
    if rs != [] {
      assert WellFormed(rs[0]);
      BytesAtLeast(rs[1..]);
    }
  }

  /** (int32_t)(n - oldest) < 0 */
  predicate Before(n: nat, oldest: nat) { (n - oldest) % W32 >= 0x8000_0000 }

  /** A number that the signed comparison calls older than the oldest record belongs to no record. */
  lemma OlderIsAbsent(rs: seq<Record>, next: nat, n: nat)
    requires AllWellFormed(rs) && Numbered(rs, next) && |Bytes(rs)| <= LOG_BUF_LEN && rs != [] && Before(n, rs[0].seqno)
    ensures Lookup(rs, n) == |rs|
  {
    hide Bytes, AllWellFormed, WellFormed, Numbered, Before, Lookup, LookupFrom;
    BytesAtLeast(rs);
    var i := Lookup(rs, n);
    FoundAt(rs, n);
    if i < |rs| {
      NumberAt(rs, next, 0);
      NumberAt(rs, next, i);
      NotBefore(next, |rs|, i, rs[0].seqno, rs[i].seqno);
    }
  }

  lemma FoundAt(rs: seq<Record>, n: nat)
    ensures Lookup(rs, n) <= |rs| && (Lookup(rs, n) < |rs| ==> rs[Lookup(rs, n)].seqno == n)
  {
  }

  lemma NumberAt(rs: seq<Record>, next: nat, i: nat)
    requires Numbered(rs, next) && i < |rs|
    ensures rs[i].seqno == (next - (|rs| - i)) % W32
  {
  }

  lemma NotBefore(next: nat, len: nat, i: nat, oldest: nat, n: nat)
    requires i <= len < 0x8000_0000 && oldest == (next - len) % W32 && n == (next - (len - i)) % W32
    ensures !Before(n, oldest)
  {
    assert (n - oldest) % W32 == i;
  }

  /** Exactly the numbers of the last |rs| stores have a record, each its own. */
  lemma NumberedLookup(rs: seq<Record>, next: nat, n: nat)
    requires AllWellFormed(rs) && Numbered(rs, next) && |Bytes(rs)| <= LOG_BUF_LEN && n < W32
    ensures Lookup(rs, n) < |rs| <==> 0 < (next - n) % W32 <= |rs|
    ensures Lookup(rs, n) < |rs| ==> Lookup(rs, n) == |rs| - (next - n) % W32
  {
    BytesAtLeast(rs);
    var d := (next - n) % W32;
    if 0 < d <= |rs| {
      Swapped(next, d, n);
      assert rs[|rs| - d].seqno == (next - d) % W32;
    }
    var i := Lookup(rs, n);
    if i < |rs| {
      assert rs[i].seqno == (next - (|rs| - i)) % W32;
      Swapped(next, |rs| - i, n);
    }
  }

  lemma Swapped(next: nat, d: nat, n: nat)
    requires d < W32 && n < W32
    ensures (next - d) % W32 == n <==> (next - n) % W32 == d
  {
  }

  // Decimal output.

  function Digit(d: nat): Byte
    requires d < 10
  {
    48 + d
  }

  function Decimal(v: nat): (s: seq<Byte>)
    ensures |s| > 0
  {
    if v < 10 then [Digit(v)] else Decimal(v / 10) + [Digit(v % 10)]
  }

  /** The number a string of digits stands for. */
  function Value(s: seq<Byte>): int { if s == [] then 0 else 10 * Value(s[..|s| - 1]) + s[|s| - 1] - 48 }

  /** What is printed reads back as the same number, and has no leading zero. */
  lemma {:induction false} DecimalValue(v: nat)
    ensures Value(Decimal(v)) == v && (v > 0 ==> Decimal(v)[0] != 48) && forall d :: d in Decimal(v) ==> 48 <= d < 58
  {
    var s := Decimal(v);
    if v < 10 {
      assert s[..0] == [];
    } else {
      DecimalValue(v / 10);
      assert s[..|s| - 1] == Decimal(v / 10);
    }
  }

  function Pow10(n: nat): nat { if n == 0 then 1 else 10 * Pow10(n - 1) }

  lemma {:induction false} DecimalLength(v: nat, n: nat)
    requires n > 0 && v < Pow10(n)
    ensures |Decimal(v)| <= n
  {
    if v >= 10 { DecimalLength(v / 10, n - 1); }
  }

  function Zeros(n: nat): seq<Byte> { if n == 0 then [] else [48] + Zeros(n - 1) }

  /** At least `digits` digits, with zeros in front. */
  function Fixed(v: nat, digits: nat): seq<Byte>
  {
    if |Decimal(v)| >= digits then Decimal(v) else Zeros(digits - |Decimal(v)|) + Decimal(v)
  }

  function Reverse(s: seq<Byte>): (r: seq<Byte>)
    ensures |r| == |s|
  {
    if s == [] then [] else Reverse(s[1..]) + [s[0]]
  }

  lemma {:induction false} ReverseAppend(s: seq<Byte>, b: Byte)
    ensures Reverse(s + [b]) == [b] + Reverse(s)
  {
    if s != [] {
      assert (s + [b])[1..] == s[1..] + [b];
      ReverseAppend(s[1..], b);
    } else {
      assert (s + [b])[1..] == [];
    }
  }

  /** The first loop of append_u32 and append_u64: the digits, least significant first. */
  method DigitsReversed(value: nat) returns (tmp: seq<Byte>)
    ensures Reverse(tmp) == Decimal(value)
  {
    tmp := [Digit(value % 10)];
    var v: nat := value / 10;
    assert tmp[1..] == [] && Reverse(tmp) == [Digit(value % 10)];
    while v > 0
      invariant Decimal(value) == if v == 0 then Reverse(tmp) else Decimal(v) + Reverse(tmp)
    {
      ReverseAppend(tmp, Digit(v % 10));
      tmp := tmp + [Digit(v % 10)];
      v := v / 10;
    }
  }

  /** The last loop: tmp goes out from its end. */
  method EmitReversed(p: seq<Byte>, tmp: seq<Byte>) returns (r: seq<Byte>)
    ensures r == p + Reverse(tmp)
  {
    r := p;
    var n: nat := |tmp|;
    while n > 0
      invariant n <= |tmp| && r == p + Reverse(tmp[n..])
    {
      n := n - 1;
      assert tmp[n..][1..] == tmp[n + 1..];
      r := r + [tmp[n]];
    }
    assert tmp[0..] == tmp;
  }

  /** append_u32 and append_u64 */
  method Append(p: seq<Byte>, value: nat) returns (r: seq<Byte>)
    ensures r == p + Decimal(value)
  {
    var tmp := DigitsReversed(value);
    r := EmitReversed(p, tmp);
  }

  /** append_u64_fixed: zeros up to `digits`. */
  method AppendFixed(p: seq<Byte>, value: nat, digits: nat) returns (r: seq<Byte>)
    ensures r == p + Fixed(value, digits)
  {
    hide Decimal;
    var tmp := DigitsReversed(value);
    ghost var z: nat := 0;
    while |tmp| < digits
      invariant |tmp| == |Decimal(value)| + z && Reverse(tmp) == Zeros(z) + Decimal(value)
      invariant z > 0 ==> |tmp| <= digits
    {
      ReverseAppend(tmp, 48);
      tmp := tmp + [48];
      z := z + 1;
    }
    r := EmitReversed(p, tmp);
  }

  /** What a reader of /dev/kmsg gets for a record. */
  function KmsgLine(r: Record): seq<Byte>
  {
    Decimal(r.prio) + [44] + Decimal(r.seqno) + [44] + Decimal(r.usec) + [44] + Decimal(r.flags) + [59, 32] + r.text
      + [10]
  }

  function SyslogLine(r: Record): seq<Byte>
  {
    [60] + Decimal(r.prio) + [91] + Decimal(r.usec / 1000000) + [46] + Fixed(r.usec % 1000000, 6) + [93, 32] + r.text
      + [10]
  }

  // Reading lines back.

  /** How many digits s starts with. */
  function Leading(s: seq<Byte>): (n: nat)
    ensures n <= |s|
  {
    if s != [] && 48 <= s[0] < 58 then 1 + Leading(s[1..]) else 0
  }

  /** The number s starts with, and what follows behind the separator. */
  function Field(s: seq<Byte>, stop: Byte): Option<(int, seq<Byte>)>
  {
    var n := Leading(s);
    if 0 < n < |s| && s[n] == stop then Some((Value(s[..n]), s[n + 1..])) else None
  }

  /** The text between a blank and the final newline. */
  function Message(s: seq<Byte>): Option<seq<Byte>>
  {
    if |s| >= 2 && s[0] == 32 && s[|s| - 1] == 10 then Some(s[1..|s| - 1]) else None
  }

  /** A line of /dev/kmsg, taken apart: four numbers behind each other and the text. */
  function ParseKmsg(line: seq<Byte>): Option<(int, int, int, int, seq<Byte>)>
  {
    match Field(line, 44)
    case None => None
    case Some((prio, s1)) =>
      match Field(s1, 44)
      case None => None
      case Some((seqno, s2)) =>
        match Field(s2, 44)
        case None => None
        case Some((usec, s3)) =>
          match Field(s3, 59)
          case None => None
          case Some((flags, s4)) =>
            match Message(s4)
            case None => None
            case Some(text) => Some((prio, seqno, usec, flags, text))
  }

  /** A syslog line: the priority, seconds and six digits of microseconds, and the text. */
  function ParseSyslog(line: seq<Byte>): Option<(int, int, int, seq<Byte>)>
  {
    if line == [] || line[0] != 60 then None
    else
      match Field(line[1..], 91)
      case None => None
      case Some((prio, s1)) =>
        match Field(s1, 46)
        case None => None
        case Some((sec, s2)) =>
          match Field(s2, 93)
          case None => None
          case Some((micro, s3)) =>
            match Message(s3)
            case None => None
            case Some(text) => if Leading(s2) == 6 then Some((prio, sec, micro, text)) else None
  }

  lemma {:induction false} LeadingAll(s: seq<Byte>, rest: seq<Byte>)
    requires (forall d :: d in s ==> 48 <= d < 58) && (rest == [] || !(48 <= rest[0] < 58))
    ensures Leading(s + rest) == |s|
  {
    if s == [] {
      assert s + rest == rest;
    } else {
      assert (s + rest)[1..] == s[1..] + rest && s[0] in s;
      assert forall d :: d in s[1..] ==> d in s;
      LeadingAll(s[1..], rest);
    }
  }

  /** A number in decimal is read back, with or without zeroes in front. */
  lemma FieldOf(digits: seq<Byte>, stop: Byte, rest: seq<Byte>)
    requires digits != [] && (forall d :: d in digits ==> 48 <= d < 58) && !(48 <= stop < 58)
    ensures Field(digits + [stop] + rest, stop) == Some((Value(digits), rest))
      && Leading(digits + [stop] + rest) == |digits|
  {
    var s := digits + [stop] + rest;
    assert s == digits + ([stop] + rest);
    LeadingAll(digits, [stop] + rest);
    assert s[..|digits|] == digits && s[|digits| + 1..] == rest;
    hide Value;
  }

  /** A line of /dev/kmsg gives back every field of its record. */
  lemma KmsgParses(r: Record)
    ensures ParseKmsg(KmsgLine(r)) == Some((r.prio, r.seqno, r.usec, r.flags, r.text))
  {
    DecimalValue(r.prio);
    DecimalValue(r.seqno);
    DecimalValue(r.usec);
    DecimalValue(r.flags);
    hide Decimal, Field, Value;
    var s4 := [32] + r.text + [10];
    var s3 := Decimal(r.flags) + [59] + s4;
    var s2 := Decimal(r.usec) + [44] + s3;
    var s1 := Decimal(r.seqno) + [44] + s2;
    assert KmsgLine(r) == Decimal(r.prio) + [44] + s1;
    assert s4[1..|s4| - 1] == r.text;
    FieldOf(Decimal(r.prio), 44, s1);
    FieldOf(Decimal(r.seqno), 44, s2);
    FieldOf(Decimal(r.usec), 44, s3);
    FieldOf(Decimal(r.flags), 59, s4);
  }

  /** A padded number has the wanted digits and is the same number. */
  lemma FixedValue(v: nat, digits: nat)
    requires digits > 0 && v < Pow10(digits)
    ensures |Fixed(v, digits)| == digits && Value(Fixed(v, digits)) == v
    ensures forall d :: d in Fixed(v, digits) ==> 48 <= d < 58
  {
    hide Decimal, Value, Pow10, Zeros;
    DecimalLength(v, digits);
    DecimalValue(v);
    var n := digits - |Decimal(v)|;
    ZerosValue(n, Decimal(v));
    ZerosLength(n);
    assert Fixed(v, digits) == if n == 0 then Decimal(v) else Zeros(n) + Decimal(v);
  }

  lemma {:induction false} ZerosValue(n: nat, s: seq<Byte>)
    ensures Value(Zeros(n) + s) == Value(s) && forall d :: d in Zeros(n) ==> d == 48
    decreases n, |s|
  {
    if s != [] {
      ZerosValue(n, s[..|s| - 1]);
      var all := Zeros(n) + s;
      assert all[..|all| - 1] == Zeros(n) + s[..|s| - 1];
    } else if n > 0 {
      ZerosValue(n - 1, []);
      ZerosSame(n);
      assert Zeros(n - 1) + [] == Zeros(n - 1) && Zeros(n) + [] == Zeros(n);
      assert Zeros(n)[..|Zeros(n)| - 1] == Zeros(n - 1);
    } else {
      assert Zeros(0) + [] == [];
    }
  }

  lemma {:induction false} ZerosSame(n: nat)
    requires n > 0
    ensures Zeros(n) == Zeros(n - 1) + [48]
  {
    if n > 1 { ZerosSame(n - 1); }
  }

  /** A syslog line gives back priority, time and text. */
  lemma SyslogParses(r: Record)
    ensures ParseSyslog(SyslogLine(r)) == Some((r.prio, r.usec / 1000000, r.usec % 1000000, r.text))
  {
    hide Decimal, Field, Value, Fixed, Leading, Pow10;
    Powers10();
    DecimalValue(r.prio);
    DecimalValue(r.usec / 1000000);
    FixedValue(r.usec % 1000000, 6);
    SyslogParts(Decimal(r.prio), Decimal(r.usec / 1000000), Fixed(r.usec % 1000000, 6), r.text);
  }

  lemma SyslogParts(prio: seq<Byte>, sec: seq<Byte>, micro: seq<Byte>, text: seq<Byte>)
    requires prio != [] && sec != [] && |micro| == 6
    requires forall d :: d in prio || d in sec || d in micro ==> 48 <= d < 58
    ensures ParseSyslog([60] + prio + [91] + sec + [46] + micro + [93, 32] + text + [10])
      == Some((Value(prio), Value(sec), Value(micro), text))
  {
    hide Field, Value, Leading;
    var line := [60] + prio + [91] + sec + [46] + micro + [93, 32] + text + [10];
    var s3 := [32] + text + [10];
    var s2 := micro + [93] + s3;
    var s1 := sec + [46] + s2;
    assert line == [60] + (prio + [91] + s1);
    assert line[1..] == prio + [91] + s1;
    assert s3[1..|s3| - 1] == text;
    FieldOf(prio, 91, s1);
    FieldOf(sec, 46, s2);
    FieldOf(micro, 93, s3);
  }

  /** The line buffer of LOG_LINE_MAX + 64 bytes is large enough. */
  lemma KmsgLineFits(r: Record)
    requires WellFormed(r)
    ensures |KmsgLine(r)| <= LOG_LINE_MAX + 64
  {
    Powers10();
    DecimalLength(r.prio, 5);
    DecimalLength(r.seqno, 10);
    DecimalLength(r.usec, 20);
    DecimalLength(r.flags, 5);
    hide Decimal;
  }

  lemma SyslogLineFits(r: Record)
    requires WellFormed(r)
    ensures |SyslogLine(r)| <= LOG_LINE_MAX + 64
  {
    Powers10();
    DecimalLength(r.prio, 5);
    DecimalLength(r.usec / 1000000, 20);
    DecimalLength(r.usec % 1000000, 6);
    ZerosLength(6 - |Decimal(r.usec % 1000000)|);
    hide Decimal;
  }

  lemma {:induction false} ZerosLength(n: nat)
    ensures |Zeros(n)| == n
  {
    if n > 0 { ZerosLength(n - 1); }
  }

  lemma Powers10()
    ensures Pow10(5) == 10_0000 && Pow10(6) == 100_0000 && Pow10(10) == 100_0000_0000
    ensures Pow10(20) == 1_0000_0000_0000_0000_0000
  {
    assert Pow10(3) == 1000;
    assert Pow10(8) == 1_0000_0000;
    assert Pow10(12) == 1_0000_0000_0000;
    assert Pow10(14) == 100_0000_0000_0000;
    assert Pow10(16) == 1_0000_0000_0000_0000;
    assert Pow10(18) == 100_0000_0000_0000_0000;
  }

  /** format_kmsg_line */
  method FormatKmsgLine(h: Head, text: seq<Byte>) returns (line: seq<Byte>)
    ensures line == KmsgLine(Record(h.prio, h.flags, h.seqno, h.usec, text))
  {
    hide Decimal;
    line := Append([], h.prio);
    line := Append(line + [44], h.seqno);
    line := Append(line + [44], h.usec);
    line := Append(line + [44], h.flags);
    line := line + [59, 32] + text + [10];
  }

  /** format_syslog_line */
  method FormatSyslogLine(h: Head, text: seq<Byte>) returns (line: seq<Byte>)
    ensures line == SyslogLine(Record(h.prio, h.flags, h.seqno, h.usec, text))
  {
    hide Decimal, Fixed;
    line := Append([60], h.prio);
    line := Append(line + [91], h.usec / 1000000);
    line := AppendFixed(line + [46], h.usec % 1000000, 6);
    line := line + [93, 32] + text + [10];
  }

  // The log.

  class LogBuf {
    var buf: array<Byte>
    var head: nat     // next write offset
    var tail: nat     // oldest complete record
    var count: nat
    var used: nat
    var nextSeq: nat
    ghost var history: seq<Record>  // every record stored since the log was cleared

    /** The log holds the records rs. */
    ghost predicate Holds(rs: seq<Record>)
      reads this`buf, this`head, this`tail, this`count, this`used, this`nextSeq, buf
    {
      && buf.Length == LOG_BUF_LEN && tail < LOG_BUF_LEN && head == (tail + used) % LOG_BUF_LEN
      && count == |rs| && used == |Bytes(rs)| <= LOG_BUF_LEN && Ring(buf[..], tail, used) == Bytes(rs)
      && AllWellFormed(rs) && Numbered(rs, nextSeq) && nextSeq < W32
    }

    /** It holds as many of the latest records as fit. */
    ghost predicate Valid()
      reads this, buf
    {
      Holds(Retained(history)) && nextSeq == |history| % W32
    }

    ghost function Records(): seq<Record>
      reads this
    {
      Retained(history)
    }

    constructor ()
      ensures Valid() && history == []
    {
      buf := new Byte[LOG_BUF_LEN];
      head, tail, count, used, nextSeq, history := 0, 0, 0, 0, 0, [];
    }

    method CopyToLog(off: nat, src: seq<Byte>)
      requires buf.Length == LOG_BUF_LEN && |src| <= LOG_BUF_LEN
      modifies buf
      ensures buf[..] == Written(old(buf[..]), off, src)
    {
      var o := off % LOG_BUF_LEN;
      var first := LOG_BUF_LEN - o;
      if first > |src| { first := |src|; }
      forall i | 0 <= i < first { buf[o + i] := src[i]; }
      if |src| > first {
        forall i | 0 <= i < |src| - first { buf[i] := src[first + i]; }
      }
      WrittenMod(old(buf[..]), off, src);
      ghost var b := old(buf[..]);
      forall p: nat | p < LOG_BUF_LEN ensures buf[p] == Written(b, o, src)[p] { DistCases(o, p); }
    }

    method CopyFromLog(off: nat, len: nat) returns (dst: seq<Byte>)
      requires buf.Length == LOG_BUF_LEN && len <= LOG_BUF_LEN
      ensures dst == Ring(buf[..], off, len)
    {
      var o := off % LOG_BUF_LEN;
      var first := LOG_BUF_LEN - o;
      if first > len { first := len; }
      dst := buf[o..o + first];
      if len > first { dst := dst + buf[..len - first]; }
      RingMod(buf[..], off, len);
      forall j: nat | j < len ensures dst[j] == Ring(buf[..], o, len)[j] {}
    }

    method ReadHead(off: nat) returns (h: Head)
      requires buf.Length == LOG_BUF_LEN
      ensures h == Decode(Ring(buf[..], off, LOG_RECORD_HEADER))
    {
      var bytes := CopyFromLog(off, LOG_RECORD_HEADER);
      h := Decode(bytes);
    }

    /** drop_oldest_locked */
    method DropOldest(ghost rs: seq<Record>)
      requires Holds(rs)
      modifies this`tail, this`used, this`count
      ensures Holds(if rs == [] then rs else rs[1..])
    {
      hide Encode, Ring, Bytes, Decode;
      if count == 0 { return; }
      RecordAt(buf[..], tail, rs, 0);
      BehindFirst(buf[..], tail, rs);
      var rec := ReadHead(tail);
      var size := LOG_RECORD_HEADER + rec.len + 1;
      used := used - size;
      ModPlus(tail + size, used);
      tail := (tail + size) % LOG_BUF_LEN;
      count := count - 1;
    }

    /** oldest_seq_locked */
    method OldestSeq() returns (n: nat)
      requires Valid()
      ensures n == if Records() == [] then nextSeq else Records()[0].seqno
    {
      hide Encode, Ring, Bytes, Decode, Retained;
      if count == 0 { return nextSeq; }
      RecordAt(buf[..], tail, Records(), 0);
      var rec := ReadHead(tail);
      n := rec.seqno;
    }

    /** logbuf_store: one more record; the log keeps the longest suffix of all records that fits. */
    method Store(prio: int, text: seq<Byte>, usec: nat)
      requires Valid() && usec < 0x1_0000_0000_0000_0000
      modifies this, buf
      ensures Valid() && buf == old(buf)
      ensures text == [] ==> history == old(history) && nextSeq == old(nextSeq)
      ensures text != [] ==>
        history == old(history) + [Record(prio % 0x1_0000, 0, old(nextSeq), usec, text[..Min(|text|, LOG_LINE_MAX)])]
    {
      hide Encode, Ring, Bytes, Retained, Holds;
      if |text| == 0 { return; }
      var len := |text|;
      if len > LOG_LINE_MAX { len := LOG_LINE_MAX; }
      var total := LOG_RECORD_HEADER + len + 1;
      ghost var rec := Record(prio % 0x1_0000, 0, nextSeq, usec, text[..len]);
      RetainedStep(history, rec);
      ghost var rs := MakeRoom(total, Records(), rec);
      NextNumber(|history|);
      AppendRecord(prio, text[..len], usec, rs);
      history := history + [rec];
    }

    /** The dropping loop of logbuf_store. */
    method MakeRoom(total: nat, ghost r: seq<Record>, ghost rec: Record) returns (ghost rs: seq<Record>)
      requires Holds(r) && |Encode(rec)| == total && WellFormed(rec)
      modifies this`tail, this`used, this`count
      ensures Holds(rs) && used + total <= LOG_BUF_LEN && rs + [rec] == Retained(r + [rec])
    {
      hide Encode, Ring, Bytes, Retained;
      rs := r;
      while count > 0 && LOG_BUF_LEN - used < total
        invariant Holds(rs) && Retained(rs + [rec]) == Retained(r + [rec])
        decreases count
      {
        RetainedDrop(rs, rec);
        DropOldest(rs);
        rs := rs[1..];
      }
      Fits(rs, rec);
    }

    /** The writing part of logbuf_store. */
    method AppendRecord(prio: int, text: seq<Byte>, usec: nat, ghost rs: seq<Record>)
      requires Holds(rs) && usec < 0x1_0000_0000_0000_0000 && 0 < |text| <= LOG_LINE_MAX
      requires used + LOG_RECORD_HEADER + |text| + 1 <= LOG_BUF_LEN
      modifies this`head, this`used, this`count, this`nextSeq, buf
      ensures Holds(rs + [Record(prio % 0x1_0000, 0, old(nextSeq), usec, text)]) && nextSeq == (old(nextSeq) + 1) % W32
    {
      hide Ring, Bytes, Retained, Written;
      var rec := Record(prio % 0x1_0000, 0, nextSeq, usec, text);
      Fits(rs, rec);
      Append3(buf[..], tail, used, rec);
      StoredBytes(buf[..], tail, rs, rec);
      NumberedAppend(rs, nextSeq, rec);
      nextSeq := (nextSeq + 1) % W32;
      hide Encode, Numbered;
      CopyToLog(head, Header(rec));
      var text_off := head + LOG_RECORD_HEADER;
      CopyToLog(text_off, text);
      var nul_off := text_off + |text|;
      CopyToLog(nul_off, [0]);
      var total := LOG_RECORD_HEADER + |text| + 1;
      ModPlus(tail + used, total);
      head := (head + total) % LOG_BUF_LEN;
      used := used + total;
      count := count + 1;
    }

    /** find_seq_locked: where the record with this number starts, or -1. */
    method FindSeq(n: nat) returns (off: int)
      requires Valid()
      ensures var i := Lookup(Records(), n);
        off == if i < |Records()| then (tail + OffsetOf(Records(), i)) % LOG_BUF_LEN else -1
    {
      hide Encode, Ring, Bytes, Decode, Retained, OffsetOf;
      ghost var rs := Records();
      var cur := tail;
      OffsetZero(rs);
      for i: nat := 0 to count
        invariant i <= |rs| && cur == (tail + OffsetOf(rs, i)) % LOG_BUF_LEN && Lookup(rs, n) == LookupFrom(rs, n, i)
      {
        RecordAt(buf[..], tail, rs, i);
        RingMod(buf[..], tail + OffsetOf(rs, i), LOG_RECORD_HEADER);
        var rec := ReadHead(cur);
        if rec.seqno == n { return cur; }
        ModPlus(tail + OffsetOf(rs, i), LOG_RECORD_HEADER + rec.len + 1);
        cur := (cur + LOG_RECORD_HEADER + rec.len + 1) % LOG_BUF_LEN;
      }
      off := -1;
    }

    /** read_record_locked */
    method ReadRecord(off: nat, size: nat, ghost rs: seq<Record>, ghost i: nat) returns (out: seq<Byte>, next: nat)
      requires Holds(rs) && i < |rs| && off == (tail + OffsetOf(rs, i)) % LOG_BUF_LEN
      ensures out == KmsgLine(rs[i])[..Min(|KmsgLine(rs[i])|, size)] && next == (rs[i].seqno + 1) % W32
    {
      hide Encode, Ring, Bytes, Decode, KmsgLine, OffsetOf;
      RecordAt(buf[..], tail, rs, i);
      RingMod(buf[..], tail + OffsetOf(rs, i), LOG_RECORD_HEADER);
      TextMod(buf[..], tail + OffsetOf(rs, i), |rs[i].text|);
      var rec := ReadHead(off);
      var text := CopyFromLog(off + LOG_RECORD_HEADER, rec.len);
      var line := FormatKmsgLine(rec, text);
      assert line == KmsgLine(rs[i]);
      var total := |line|;
      if total > size { total := size; }
      out := line[..total];
      next := (rec.seqno + 1) % W32;
    }

    /** read_seq_locked: the line of the record with number n, 0 at the end, -EPIPE when it is gone. */
    method ReadSeq(n: nat, size: nat) returns (ret: int, out: seq<Byte>, next: Option<nat>)
      requires Valid() && n < W32
      ensures var rs := Records();
        if rs == [] || n == nextSeq then ret == 0 && out == [] && next == None
        else if Lookup(rs, n) == |rs| then ret == -EPIPE && out == [] && next == None
        else
          var line := KmsgLine(rs[Lookup(rs, n)]);
          ret == |out| && out == line[..Min(|line|, size)] && next == Some((n + 1) % W32)
      ensures ret > 0 && (|out| < size || size >= LOG_LINE_MAX + 64) ==>
        exists r :: r in Records() && r.seqno == n && ParseKmsg(out) == Some((r.prio, n, r.usec, r.flags, r.text))
    {
      hide Encode, Ring, Bytes, Decode, Retained, KmsgLine, OffsetOf;
      out, next := [], None;
      if count == 0 || n == nextSeq { return 0, out, next; }
      var oldest := OldestSeq();
      ghost var rs := Records();
      if Before(n, oldest) {
        OlderIsAbsent(rs, nextSeq, n);
        return -EPIPE, out, next;
      }
      var off := FindSeq(n);
      if off < 0 { return -EPIPE, out, next; }
      var after;
      out, after := ReadRecord(off, size, rs, Lookup(rs, n));
      ghost var r := rs[Lookup(rs, n)];
      KmsgLineFits(r);
      KmsgParses(r);
      assert r in rs && (|out| < size || size >= LOG_LINE_MAX + 64 ==> out == KmsgLine(r));
      ret, next := |out|, Some(after);
    }

    /** logbuf_format_syslog: the lines of all records, cut at size; clear empties the log. */
    method FormatSyslog(size: nat, clear: bool) returns (out: seq<Byte>)
      requires Valid()
      modifies this
      ensures var all := SyslogText(old(Records())); out == all[..Min(|all|, size)]
      ensures Valid() && buf == old(buf) && history == if clear then [] else old(history)
    {
      out := SyslogLines(size);
      if clear { Clear(); }
    }

    /** The loop of logbuf_format_syslog. */
    method SyslogLines(size: nat) returns (out: seq<Byte>)
      requires Valid()
      ensures var all := SyslogText(Records()); out == all[..Min(|all|, size)]
    {
      ghost var rs := Records();
      TextStart(rs, size);
      hide Encode, Ring, Bytes, Decode, Retained, OffsetOf, SyslogLine, SyslogText;
      out := [];
      var off := tail;
      OffsetZero(rs);
      var i: nat := 0;
      while i < count && |out| < size
        invariant i <= count && off == (tail + OffsetOf(rs, i)) % LOG_BUF_LEN
        invariant out == SyslogText(rs[..i])[..Min(|SyslogText(rs[..i])|, size)]
      {
        RecordAt(buf[..], tail, rs, i);
        RingMod(buf[..], tail + OffsetOf(rs, i), LOG_RECORD_HEADER);
        TextMod(buf[..], tail + OffsetOf(rs, i), |rs[i].text|);
        var rec := ReadHead(off);
        var text := CopyFromLog(off + LOG_RECORD_HEADER, rec.len);
        var line := FormatSyslogLine(rec, text);
        assert line == SyslogLine(rs[i]);
        var total := |line|;
        if total > size - |out| { total := size - |out|; }
        TextStep(rs, i, size);
        out := out + line[..total];
        ModPlus(tail + OffsetOf(rs, i), LOG_RECORD_HEADER + rec.len + 1);
        off := (off + LOG_RECORD_HEADER + rec.len + 1) % LOG_BUF_LEN;
        i := i + 1;
      }
      SyslogPrefix(rs, i);
      assert rs[..|rs|] == rs;
    }

    /** logbuf_clear */
    method Clear()
      requires buf.Length == LOG_BUF_LEN
      modifies this`head, this`tail, this`count, this`used, this`nextSeq, this`history
      ensures Valid() && history == []
    {
      head, tail, count, used, nextSeq, history := 0, 0, 0, 0, 0, [];
    }
  }

  lemma DistCases(o: nat, p: nat)
    requires o < LOG_BUF_LEN && p < LOG_BUF_LEN
    ensures Dist(o, p) == if p >= o then p - o else p + LOG_BUF_LEN - o
  {
  }

  /** Where record i lies. */
  function OffsetOf(rs: seq<Record>, i: nat): nat
    requires i <= |rs|
  {
    |Bytes(rs[..i])|
  }

  lemma RecordAt(b: seq<Byte>, tail: nat, rs: seq<Record>, i: nat)
    requires |b| == LOG_BUF_LEN && Ring(b, tail, |Bytes(rs)|) == Bytes(rs) && i < |rs| && AllWellFormed(rs)
    ensures Decode(Ring(b, tail + OffsetOf(rs, i), LOG_RECORD_HEADER)) == HeadOf(rs[i])
    ensures Ring(b, tail + OffsetOf(rs, i) + LOG_RECORD_HEADER, |rs[i].text|) == rs[i].text
    ensures OffsetOf(rs, i + 1) == OffsetOf(rs, i) + LOG_RECORD_HEADER + |rs[i].text| + 1 <= |Bytes(rs)|
    ensures WellFormed(rs[i])
    ensures i == 0 ==> OffsetOf(rs, i) == 0
  {
    hide Bytes, Decode, Header, Ring, OffsetOf;
    BytesLengths(rs, i);
    BytesSlices(rs, i);
    HeaderRoundTrip(rs[i]);
    var m, n, all := OffsetOf(rs, i), |rs[i].text|, Bytes(rs);
    SubRing(b, tail, all, m, LOG_RECORD_HEADER);
    SubRing(b, tail, all, m + LOG_RECORD_HEADER, n);
  }

  lemma BytesLengths(rs: seq<Record>, i: nat)
    requires i < |rs|
    ensures OffsetOf(rs, i + 1) == OffsetOf(rs, i) + |Encode(rs[i])| <= |Bytes(rs)|
    ensures i == 0 ==> OffsetOf(rs, i) == 0
  {
    hide Bytes, Encode;
    BytesAround(rs, i);
    if i == 0 { BytesNone(rs); }
  }

  /** Record i within all the bytes. */
  lemma BytesSlices(rs: seq<Record>, i: nat)
    requires i < |rs| && OffsetOf(rs, i) + |Encode(rs[i])| <= |Bytes(rs)|
    ensures var m, r, all := OffsetOf(rs, i), rs[i], Bytes(rs);
      all[m..m + LOG_RECORD_HEADER] == Header(r) && all[m + LOG_RECORD_HEADER..m + LOG_RECORD_HEADER + |r.text|] ==
        r.text
  {
    hide Bytes, Header;
    BytesAround(rs, i);
    SlicesOf(Bytes(rs[..i]), Header(rs[i]), rs[i].text, [0], Bytes(rs[i + 1..]));
  }

  lemma BytesNone(rs: seq<Record>)
    ensures Bytes(rs[..0]) == []
  {
  }

  lemma Around(rs: seq<Record>, i: nat)
    requires i < |rs|
    ensures rs == rs[..i + 1] + rs[i + 1..] && rs[..i + 1] == rs[..i] + [rs[i]]
  {
  }

  lemma BytesAround(rs: seq<Record>, i: nat)
    requires i < |rs|
    ensures Bytes(rs) == Bytes(rs[..i]) + Encode(rs[i]) + Bytes(rs[i + 1..])
    ensures Bytes(rs[..i + 1]) == Bytes(rs[..i]) + Encode(rs[i])
  {
    hide Bytes, Encode;
    Around(rs, i);
    BytesConcat(rs[..i + 1], rs[i + 1..]);
    BytesConcat(rs[..i], [rs[i]]);
    BytesOne(rs[i]);
  }

  lemma SlicesOf(a: seq<Byte>, h: seq<Byte>, t: seq<Byte>, z: seq<Byte>, c: seq<Byte>)
    ensures var all := a + (h + t + z) + c;
      all[|a|..|a| + |h|] == h && all[|a| + |h|..|a| + |h| + |t|] == t
  {
  }

  lemma BytesOne(r: Record)
    ensures Bytes([r]) == Encode(r)
  {
    assert [r][1..] == [];
  }

  /** A part of what lies in the ring lies at its own offset. */
  lemma SubRing(b: seq<Byte>, off: nat, s: seq<Byte>, m: nat, n: nat)
    requires |b| == LOG_BUF_LEN && Ring(b, off, |s|) == s && m + n <= |s|
    ensures Ring(b, off + m, n) == s[m..m + n]
  {
    RingSplit(b, off, m, |s| - m);
    RingSplit(b, off + m, n, |s| - m - n);
    hide Ring;
    assert s[m..] == Ring(b, off + m, |s| - m);
    assert s[m..m + n] == s[m..][..n];
  }

  lemma BehindFirst(b: seq<Byte>, tail: nat, rs: seq<Record>)
    requires |b| == LOG_BUF_LEN && rs != [] && Ring(b, tail, |Bytes(rs)|) == Bytes(rs)
    ensures var size := LOG_RECORD_HEADER + |rs[0].text| + 1;
      |Bytes(rs)| == size + |Bytes(rs[1..])| && Ring(b, (tail + size) % LOG_BUF_LEN, |Bytes(rs[1..])|) == Bytes(rs[1..])
  {
    var size := LOG_RECORD_HEADER + |rs[0].text| + 1;
    SubRing(b, tail, Bytes(rs), size, |Bytes(rs[1..])|);
    RingMod(b, tail + size, |Bytes(rs[1..])|);
  }

  lemma RetainedDrop(rs: seq<Record>, r: Record)
    requires rs != [] && |Bytes(rs)| + |Encode(r)| > LOG_BUF_LEN
    ensures Retained(rs + [r]) == Retained(rs[1..] + [r])
  {
    BytesConcat(rs, [r]);
    assert (rs + [r])[1..] == rs[1..] + [r];
  }

  lemma Fits(rs: seq<Record>, r: Record)
    requires |Bytes(rs)| + |Encode(r)| <= LOG_BUF_LEN || (rs == [] && |r.text| <= LOG_LINE_MAX)
    ensures Retained(rs + [r]) == rs + [r] && |Bytes(rs + [r])| == |Bytes(rs)| + |Encode(r)| <= LOG_BUF_LEN
  {
    BytesConcat(rs, [r]);
    BytesOne(r);
    assert rs == [] ==> Bytes(rs) == [];
    hide Bytes, Encode;
  }

  /** The three copies of logbuf_store write the encoded record. */
  lemma Append3(b: seq<Byte>, tail: nat, used: nat, r: Record)
    requires |b| == LOG_BUF_LEN && used + |Encode(r)| <= LOG_BUF_LEN
    ensures var head := (tail + used) % LOG_BUF_LEN;
      Written(Written(Written(b, head, Header(r)), head + LOG_RECORD_HEADER, r.text),
        head + LOG_RECORD_HEADER + |r.text|, [0])
        == Written(b, tail + used, Encode(r))
  {
    var head := (tail + used) % LOG_BUF_LEN;
    WrittenTwice(b, head, Header(r), r.text);
    WrittenTwice(b, head, Header(r) + r.text, [0]);
    WrittenMod(b, tail + used, Encode(r));
    hide Written, Header;
  }

  /** The record lies behind the others. */
  lemma StoredBytes(b: seq<Byte>, tail: nat, rs: seq<Record>, r: Record)
    requires |b| == LOG_BUF_LEN && |Bytes(rs)| + |Encode(r)| <= LOG_BUF_LEN && Ring(b, tail, |Bytes(rs)|) == Bytes(rs)
    ensures Ring(Written(b, tail + |Bytes(rs)|, Encode(r)), tail, |Bytes(rs)| + |Encode(r)|) == Bytes(rs + [r])
  {
    var used := |Bytes(rs)|;
    hide Ring, Written, Bytes, Encode;
    var b' := Written(b, tail + used, Encode(r));
    WrittenBehind(b, tail, used, Encode(r));
    ReadBack(b, tail + used, Encode(r));
    RingSplit(b', tail, used, |Encode(r)|);
    BytesConcat(rs, [r]);
    BytesOne(r);
  }

  lemma NumberedAppend(rs: seq<Record>, next: nat, r: Record)
    requires Numbered(rs, next) && r.seqno == next < W32
    ensures Numbered(rs + [r], (next + 1) % W32)
  {
    var ts, n := rs + [r], (next + 1) % W32;
    forall i | 0 <= i < |ts| ensures ts[i].seqno == (n - (|ts| - i)) % W32 {
      assert i < |rs| ==> ts[i] == rs[i];
      NextMod(next, |ts| - i);
    }
  }

  lemma NextMod(next: nat, d: nat)
    requires next < W32 && d > 0
    ensures ((next + 1) % W32 - d) % W32 == (next - (d - 1)) % W32
  {
  }

  lemma NextNumber(n: nat)
    ensures (n % W32 + 1) % W32 == (n + 1) % W32
  {
  }

  lemma OffsetZero(rs: seq<Record>)
    ensures OffsetOf(rs, 0) == 0
  {
  }

  lemma TextMod(b: seq<Byte>, off: nat, n: nat)
    requires |b| == LOG_BUF_LEN
    ensures Ring(b, off % LOG_BUF_LEN + LOG_RECORD_HEADER, n) == Ring(b, off + LOG_RECORD_HEADER, n)
  {
    RingMod(b, off + LOG_RECORD_HEADER, n);
    RingMod(b, off % LOG_BUF_LEN + LOG_RECORD_HEADER, n);
    ModPlus(off, LOG_RECORD_HEADER);
    hide Ring;
  }

  /** All lines, one after the other. */
  function SyslogText(rs: seq<Record>): seq<Byte>
  {
    if rs == [] then [] else SyslogText(rs[..|rs| - 1]) + SyslogLine(rs[|rs| - 1])
  }

  lemma TextStart(rs: seq<Record>, size: nat)
    ensures SyslogText(rs[..0])[..Min(|SyslogText(rs[..0])|, size)] == []
  {
    assert rs[..0] == [];
  }

  /** The text so far, cut at size, goes on with the next line, cut at what is left. */
  lemma TextStep(rs: seq<Record>, i: nat, size: nat)
    requires i < |rs| && |SyslogText(rs[..i])| < size
    ensures var s, s', line := SyslogText(rs[..i]), SyslogText(rs[..i + 1]), SyslogLine(rs[i]);
      s'[..Min(|s'|, size)] == s + line[..Min(|line|, size - |s|)]
  {
    hide SyslogLine;
    assert rs[..i + 1][..i] == rs[..i];
    var s, line := SyslogText(rs[..i]), SyslogLine(rs[i]);
    assert SyslogText(rs[..i + 1]) == s + line;
  }

  /** The text is one line behind the other, and the line of each record gives it back. */
  lemma SyslogTextParses(rs: seq<Record>, i: nat)
    requires i < |rs|
    ensures SyslogText(rs[..0]) == [] && SyslogText(rs[..|rs|]) == SyslogText(rs)
    ensures var from, to := |SyslogText(rs[..i])|, |SyslogText(rs[..i + 1])|;
      && from < to <= |SyslogText(rs)|
      && ParseSyslog(SyslogText(rs)[from..to])
        == Some((rs[i].prio, rs[i].usec / 1000000, rs[i].usec % 1000000, rs[i].text))
  {
    hide SyslogLine, ParseSyslog;
    assert rs[..|rs|] == rs && rs[..i + 1][..i] == rs[..i];
    SyslogPrefix(rs, i + 1);
    SyslogParses(rs[i]);
    var from, to := |SyslogText(rs[..i])|, |SyslogText(rs[..i + 1])|;
    assert SyslogText(rs[..i + 1]) == SyslogText(rs[..i]) + SyslogLine(rs[i]);
    assert SyslogText(rs)[from..to] == SyslogText(rs)[..to][from..] == SyslogLine(rs[i]);
    LineNotEmpty(rs[i]);
  }

  lemma LineNotEmpty(r: Record)
    ensures |SyslogLine(r)| > 0
  {
  }

  /** A shorter log prints a prefix. */
  lemma {:induction false} SyslogPrefix(rs: seq<Record>, i: nat)
    requires i <= |rs|
    ensures |SyslogText(rs[..i])| <= |SyslogText(rs)| && SyslogText(rs)[..|SyslogText(rs[..i])|] == SyslogText(rs[..i])
  {
    hide SyslogLine;
    if i < |rs| {
      var init := rs[..|rs| - 1];
      assert init[..i] == rs[..i];
      SyslogPrefix(init, i);
    } else {
      assert rs[..i] == rs;
    }
  }
}

/** compiler-rt/udivmodti4.c: 128-bit division by Knuth's Algorithm D and by shift-subtract. */
module WideDivision {
  import opened Words

  function Add64(x: int, y: int): nat { (x + y) % W64 }
  function Sub64(x: int, y: int): nat { (x - y) % W64 }
  function Mul64(x: int, y: int): nat { (x * y) % W64 }

  /** v is a normalised 64-bit divisor with 32-bit digits vn1, vn0; un:next is a dividend below v * 2^32. */
  ghost predicate Digits(un: nat, next: nat, v: nat, vn1: nat, vn0: nat) {
    v == vn1 * W32 + vn0 && W63 <= v < W64 && vn1 < W32 && vn0 < W32 && W32 <= 2 * vn1
    && un < v && next < W32
  }

  /** The estimate q is too big exactly when the digit test says so. */
  lemma DigitTest(un: nat, next: nat, v: nat, vn1: nat, vn0: nat, q: nat, rhat: nat)
    requires v == vn1 * W32 + vn0 && q * vn1 + rhat == un
    ensures q * v <= un * W32 + next <==> q * vn0 <= W32 * rhat + next
  {
    assert q * v == (q * vn1) * W32 + q * vn0;
  }

  lemma DigitBounds(un: nat, next: nat, v: nat, vn1: nat, vn0: nat)
    requires Digits(un, next, v, vn1, vn0)
    ensures un / vn1 <= W32 + 1
    ensures Digit(un, next, v) < W32
    ensures Digit(un, next, v) <= un / vn1
  {
    QuotientBelow(un, vn1, W32 + 2);
    QuotientBelow(un * W32 + next, v, W32);
    EstimateIsUpperBound(un, next, v, vn1, vn0, un / vn1);
  }

  lemma EstimateIsUpperBound(un: nat, next: nat, v: nat, vn1: nat, vn0: nat, q: nat)
    requires v == vn1 * W32 + vn0 && v > 0 && next < W32 && vn1 > 0 && q == un / vn1
    ensures Digit(un, next, v) <= q
  {
    assert un < (q + 1) * vn1 by { DivisionEquation(un, vn1); }
    MulMono(un + 1, (q + 1) * vn1, W32);
    assert (q + 1) * v == (q + 1) * vn1 * W32 + (q + 1) * vn0;
    QuotientBelow(un * W32 + next, v, q + 1);
  }

  lemma QuotientBelow(n: nat, d: nat, q: nat)
    requires d > 0 && n < q * d
    ensures n / d < q
  {
    if n / d >= q { MulMono(q, n / d, d); }
  }

  lemma QuotientAtLeast(n: nat, d: nat, q: nat)
    requires d > 0 && q * d <= n
    ensures q <= n / d
  {
    if q > n / d { MulMono(n / d + 1, q, d); }
  }

  lemma NoWrap(x: nat)
    requires x < W64
    ensures x % W64 == x
  {
  }

  /** While q and rhat are 32-bit digits, neither side of the digit test wraps. */
  lemma TestFits(next: nat, vn0: nat, q: nat, rhat: nat)
    requires q < W32 && rhat < W32 && next < W32 && vn0 < W32
    ensures Mul64(q, vn0) == q * vn0
    ensures Add64(Mul64(W32, rhat), next) == W32 * rhat + next
  {
    MulMono(q, W32, vn0);
    MulMono(0, q, vn0);
    NoWrap(q * vn0);
    NoWrap(W32 * rhat);
    NoWrap(W32 * rhat + next);
  }

  predicate TestFails(next: nat, vn0: nat, q: nat, rhat: nat) {
    q >= W32 || Mul64(q, vn0) > Add64(Mul64(W32, rhat), next)
  }

  /** A failing test means q is above the true digit. */
  lemma TooHigh(un: nat, next: nat, v: nat, vn1: nat, vn0: nat, q: nat, rhat: nat)
    requires Digits(un, next, v, vn1, vn0) && Estimates(un, vn1, q, rhat) && rhat < W32
    requires TestFails(next, vn0, q, rhat)
    ensures Digit(un, next, v) < q
  {
    if q < W32 {
      TestFits(next, vn0, q, rhat);
      DigitTest(un, next, v, vn1, vn0, q, rhat);
      QuotientBelow(un * W32 + next, v, q);
    } else {
      DigitBounds(un, next, v, vn1, vn0);
    }
  }

  /** A passing test, or a remainder digit of at least 2^32, means q is not above the true digit. */
  lemma NotTooHigh(un: nat, next: nat, v: nat, vn1: nat, vn0: nat, q: nat, rhat: nat)
    requires Digits(un, next, v, vn1, vn0) && Estimates(un, vn1, q, rhat) && q <= W32
    requires rhat >= W32 || !TestFails(next, vn0, q, rhat)
    ensures q <= Digit(un, next, v)
  {
    if rhat >= W32 {
      MulMono(q, W32, vn0);
    } else {
      TestFits(next, vn0, q, rhat);
    }
    DigitTest(un, next, v, vn1, vn0, q, rhat);
    QuotientAtLeast(un * W32 + next, v, q);
  }

  lemma SplitDivisor(v: nat)
    requires W63 <= v < W64
    ensures forall un: nat, next: nat :: un < v && next < W32 ==> Digits(un, next, v, Shr(v, 32), And(v, 0xFFFF_FFFF))
  {
    Pow2Values();
    AndMask(v, 32);
    assert v == v / W32 * W32 + v % W32;
  }

  /** The digit being computed: floor of (un:next) / v. */
  function Digit(un: nat, next: nat, v: nat): nat
    requires v > 0
  {
    DivNonNegative(un * W32 + next, v);
    (un * W32 + next) / v
  }

  ghost predicate Estimates(un: nat, vn1: nat, q: nat, rhat: nat) {
    q * vn1 + rhat == un
  }

  /**
   * One base-2^32 quotient digit of Algorithm D. All arithmetic is modulo 2^64;
   * `corrections` counts how often the first estimate was lowered.
   */
  method QuotientDigit(un: nat, next: nat, ghost v: nat, vn1: nat, vn0: nat) returns (q: nat, ghost corrections: nat)
    requires Digits(un, next, v, vn1, vn0)
    ensures q == Digit(un, next, v)
    ensures corrections <= 2 && q + corrections == un / vn1
  {
    q := un / vn1;
    var rhat := Sub64(un, Mul64(q, vn1));
    corrections := 0;
    FirstEstimate(un, next, v, vn1, vn0);
    q, corrections := CorrectDigit(un, next, v, vn1, vn0, q, rhat);
  }

  /** The correction loop: lowers an estimate that is too big. */
  method CorrectDigit(un: nat, next: nat, ghost v: nat, vn1: nat, vn0: nat, q0: nat, rhat0: nat)
    returns (q: nat, ghost corrections: nat)
    requires Digits(un, next, v, vn1, vn0)
    requires Estimates(un, vn1, q0, rhat0) && rhat0 < W32 && Digit(un, next, v) <= q0 <= W32 + 1
    ensures q == Digit(un, next, v)
    ensures corrections <= 2 && q + corrections == q0
  {
    hide Estimates, Digit, Mul64;
    q := q0;
    var rhat: nat := rhat0;
    corrections := 0;
    while q >= W32 || Mul64(q, vn0) > Add64(Mul64(W32, rhat), next)
      invariant Estimates(un, vn1, q, rhat) && rhat < W32
      invariant Digit(un, next, v) <= q <= W32 + 1
      invariant corrections == 0 || (corrections == 1 && vn1 <= rhat)
      invariant q + corrections == q0
      decreases q
    {
      TooHigh(un, next, v, vn1, vn0, q, rhat);
      StepDown(un, vn1, q, rhat);
      q := Sub64(q, 1);
      rhat := Add64(rhat, vn1);
      corrections := corrections + 1;
      if rhat >= W32 { break; }
    }
    NotTooHigh(un, next, v, vn1, vn0, q, rhat);
  }

  lemma FirstEstimate(un: nat, next: nat, v: nat, vn1: nat, vn0: nat)
    requires Digits(un, next, v, vn1, vn0)
    ensures var q := un / vn1; var rhat := Sub64(un, Mul64(q, vn1));
      Estimates(un, vn1, q, rhat) && rhat < W32 && Digit(un, next, v) <= q <= W32 + 1
  {
    DigitBounds(un, next, v, vn1, vn0);
    DivisionEquation(un, vn1);
    NoWrap(un / vn1 * vn1);
    NoWrap(un % vn1);
  }

  lemma DivisionEquation(n: nat, d: nat)
    requires d > 0
    ensures n == n / d * d + n % d && 0 <= n / d * d
  {
    MulMono(0, n / d, d);
  }

  lemma StepDown(un: nat, vn1: nat, q: nat, rhat: nat)
    requires 0 < q <= W32 + 1 && rhat < W32 && vn1 < W32 && Estimates(un, vn1, q, rhat)
    ensures Sub64(q, 1) == q - 1 && Add64(rhat, vn1) == rhat + vn1
    ensures Estimates(un, vn1, q - 1, rhat + vn1)
  {
    NoWrap(q - 1);
    NoWrap(rhat + vn1);
    assert (q - 1) * vn1 == q * vn1 - vn1;
  }

  /** Shifting dividend and divisor left by the divisor's leading zeros multiplies both by 2^s without loss. */
  lemma Normalise(u1: nat, u0: nat, v: nat, s: nat)
    requires 0 < v < W64 && u1 < v && u0 < W64 && 0 < s < 64
    requires v * Pow2(s) < W64
    ensures Shl(v, s, 64) == v * Pow2(s)
    ensures Or(Shl(u1, s, 64), Shr(u0, 64 - s)) < v * Pow2(s)
    ensures Or(Shl(u1, s, 64), Shr(u0, 64 - s)) * W64 + Shl(u0, s, 64) == (u1 * W64 + u0) * Pow2(s)
  {
    var p, p' := Pow2(s), Pow2(64 - s);
    assert p * p' == W64 by { Pow2Values(); Pow2Add(s, 64 - s); }
    NormaliseArith(u1, u0, v, p, p');
    assert Shl(v, s, 64) == v * p by { Shl64(v, s); }
    assert Shl(u1, s, 64) == u1 * p by { Shl64(u1, s); }
    assert Shl(u0, s, 64) == (u0 * p) % W64 by { Shl64(u0, s); }
    assert Shr(u0, 64 - s) == u0 / p';
    assert Or(u1 * p, u0 / p') == u1 * p + u0 / p' by { OrIsAdd(u1, u0 / p', s); }
  }

  lemma Shl64(x: nat, s: nat)
    ensures Shl(x, s, 64) == (x * Pow2(s)) % W64
  {
    Pow2Values();
  }

  lemma NormaliseArith(u1: nat, u0: nat, v: nat, p: nat, p': nat)
    requires p > 0 && p' > 0 && p * p' == W64 && u1 < v && u0 < W64 && v * p < W64
    ensures u0 / p' < p && (v * p) % W64 == v * p && (u1 * p) % W64 == u1 * p
    ensures u1 * p + u0 / p' < v * p
    ensures (u1 * p + u0 / p') * W64 + (u0 * p) % W64 == (u1 * W64 + u0) * p
  {
    MulMono(u1 + 1, v, p);
    assert (u1 + 1) * p == u1 * p + p;
    QuotientBelow(u0, p', p);
    NoWrap(v * p);
    MulMono(0, u1, p);
    NoWrap(u1 * p);
    var h, l := u0 / p', u0 % p';
    DivisionEquation(u0, p');
    LowPart(u0, h, l, p, p');
    assert (u1 * p + h) * W64 == u1 * W64 * p + h * W64;
    assert (u1 * W64 + u0) * p == u1 * W64 * p + u0 * p;
  }

  lemma LowPart(u0: nat, h: nat, l: nat, p: nat, p': nat)
    requires p > 0 && p * p' == W64 && u0 == h * p' + l && l < p'
    ensures (u0 * p) % W64 == l * p && u0 * p == h * W64 + l * p
  {
    assert u0 * p == h * (p * p') + l * p by {
      assert u0 * p == (h * p') * p + l * p;
      assert (h * p') * p == h * (p * p');
    }
    MulMono(l + 1, p', p);
    assert (l + 1) * p == l * p + p;
    MulMono(0, l, p);
    DivModUnique(u0 * p, W64, h, l * p);
  }

  /** Dividing the scaled operands scales the remainder. */
  lemma Descale(u: nat, v: nat, p: nat, un: nat, vn: nat, q: nat, r: nat)
    requires p > 0 && v > 0 && un == u * p && vn == v * p && un == q * vn + r && r < vn
    ensures u == q * v + r / p && r / p < v
  {
    var r' := u - q * v;
    assert r == r' * p by {
      assert r' * p == u * p - q * v * p;
      assert q * (v * p) == q * v * p;
    }
    if r' < 0 { MulMono(r', -1, p); }
    if r' >= v { MulMono(v, r', p); }
    DivModUnique(r, p, r', 0);
  }

  /** The two digits of Algorithm D make the full quotient. */
  lemma TwoDigits(un64: nat, un10: nat, v: nat, q1: nat, q0: nat, un21: nat, r: nat)
    requires v > 0
    requires un64 * W32 + un10 / W32 == q1 * v + un21 && un21 * W32 + un10 % W32 == q0 * v + r
    ensures un64 * W64 + un10 == (q1 * W32 + q0) * v + r
  {
    DivisionEquation(un10, W32);
    assert (q1 * v + un21) * W32 == q1 * v * W32 + un21 * W32;
    assert (q1 * W32 + q0) * v == q1 * v * W32 + q0 * v;
  }

  /** A wrapped difference recovers the true value when that value is a word. */
  lemma WrappedRemainder(un: nat, next: nat, v: nat, q: nat)
    requires v < W64 && v > 0 && q == Digit(un, next, v)
    ensures Sub64(Add64(Mul64(un, W32), next), Mul64(q, v)) == (un * W32 + next) % v
    ensures un * W32 + next == q * v + (un * W32 + next) % v
  {
    var n := un * W32 + next;
    DivisionEquation(n, v);
    WrapAdd(un * W32, next);
    WrapSub(n, q * v);
    NoWrap(n % v);
  }

  lemma WrapAdd(x: nat, y: nat)
    ensures (x % W64 + y) % W64 == (x + y) % W64
  {
    var t := x % W64 + y;
    DivModUnique(x + y, W64, x / W64 + t / W64, t % W64);
  }

  lemma WrapSub(x: nat, y: nat)
    ensures (x % W64 - y % W64) % W64 == (x - y) % W64
  {
    var t := x % W64 - y % W64;
    DivModUnique(x - y, W64, x / W64 - y / W64 + t / W64, t % W64);
  }

  /** Algorithm D proper, on a divisor whose top bit is set. */
  method DivideNormalised(un64: nat, un10: nat, vn: nat) returns (q: nat, rn: nat)
    requires W63 <= vn < W64 && un64 < vn && un10 < W64
    ensures un64 * W64 + un10 == q * vn + rn && rn < vn
    ensures q < W64
  {
    SplitDivisor(vn);
    Pow2Values();
    AndMask(un10, 32);
    QuotientBelow(un10, W32, W32);
    var vn1, vn0 := Shr(vn, 32), And(vn, 0xFFFF_FFFF);
    var un1, un0 := Shr(un10, 32), And(un10, 0xFFFF_FFFF);

    var q1, _ := QuotientDigit(un64, un1, vn, vn1, vn0);
    DigitBounds(un64, un1, vn, vn1, vn0);
    WrappedRemainder(un64, un1, vn, q1);
    var un21 := Sub64(Add64(Mul64(un64, W32), un1), Mul64(q1, vn));

    var q0, _ := QuotientDigit(un21, un0, vn, vn1, vn0);
    DigitBounds(un21, un0, vn, vn1, vn0);
    WrappedRemainder(un21, un0, vn, q0);
    rn := Sub64(Add64(Mul64(un21, W32), un0), Mul64(q0, vn));

    TwoDigits(un64, un10, vn, q1, q0, un21, rn);
    NoWrap(q1 * W32);
    NoWrap(q1 * W32 + q0);
    q := Add64(Mul64(q1, W32), q0);
  }

  lemma Clz64(v: nat)
    requires 0 < v < W64
    ensures v < Pow2(64) && v * Pow2(Clz(v, 64)) < W64 <= 2 * (v * Pow2(Clz(v, 64)))
  {
    Pow2Values();
  }

  /** 128-by-64-bit division; the caller guarantees that the quotient fits in 64 bits. */
  method Udiv128By64To64Default(u1: nat, u0: nat, v: nat) returns (q: nat, r: nat)
    requires u1 < v < W64 && u0 < W64
    ensures u1 * W64 + u0 == q * v + r && r < v
    ensures q < W64
  {
    hide Pow2, Or, Shl, Shr;
    Clz64(v);
    var s := Clz(v, 64);
    var un64, un10, vn := u1, u0, v;
    if s > 0 {
      vn := Shl(v, s, 64);
      un64 := Or(Shl(u1, s, 64), Shr(u0, 64 - s));
      un10 := Shl(u0, s, 64);
      Normalise(u1, u0, v, s);
      Shl64(u0, s);
    } else {
      Pow2Zero(u1 * W64 + u0, v);
    }
    ghost var un := un64 * W64 + un10;
    assert un == (u1 * W64 + u0) * Pow2(s) && vn == v * Pow2(s);
    var rn;
    q, rn := DivideNormalised(un64, un10, vn);
    Descale(u1 * W64 + u0, v, Pow2(s), un, vn, q, rn);
    ShrIs(rn, s);
    r := Shr(rn, s);
  }

  lemma Pow2Zero(x: nat, y: nat)
    ensures x == x * Pow2(0) && y == y * Pow2(0)
  {
    assert Pow2(0) == 1;
  }

  lemma ShrIs(x: nat, s: nat)
    ensures Shr(x, s) == x / Pow2(s)
  {
  }

  /** Arithmetic right shift by w - 1: all ones when the sign bit is set, else zero. */
  function SignMask(x: nat, w: nat): nat
    requires w > 0
  {
    if x >= Pow2(w - 1) then Pow2(w) - 1 else 0
  }

  /** r is at most twice d, and shares its top bit when d has one: the sign of d - r - 1 then decides r >= d. */
  ghost predicate SignTestApplies(d: nat, r: nat, half: nat) {
    d < 2 * half && r < 2 * half && r < 2 * d && (d >= half ==> r >= half)
  }

  lemma SignTest(d: nat, r: nat, half: nat)
    requires half > 0 && SignTestApplies(d, r, half)
    ensures (d - r - 1) % (2 * half) >= half <==> r >= d
  {
    if r >= d {
      DivModUnique(d - r - 1, 2 * half, -1, d - r - 1 + 2 * half);
    } else {
      DivModUnique(d - r - 1, 2 * half, 0, d - r - 1);
    }
  }

  /** Branch-free `if (r >= d) { r -= d; carry = 1; }` on words of w bits. */
  method ConditionalSubtract(d: nat, r: nat, w: nat) returns (carry: nat, r': nat)
    requires w > 0 && SignTestApplies(d, r, Pow2(w - 1))
    ensures carry == if r >= d then 1 else 0
    ensures r' == if r >= d then r - d else r
  {
    var s := SignMask((d - r - 1) % Pow2(w), w);
    SignTest(d, r, Pow2(w - 1));
    MaskedSubtract(d, r, w, s);
    carry := And(s, 1);
    r' := (r - And(d, s)) % Pow2(w);
  }

  lemma MaskedSubtract(d: nat, r: nat, w: nat, s: nat)
    requires w > 0 && d < Pow2(w) && r < Pow2(w)
    requires s == if r >= d then Pow2(w) - 1 else 0
    ensures And(s, 1) == if r >= d then 1 else 0
    ensures (r - And(d, s)) % Pow2(w) == if r >= d then r - d else r
  {
    if r >= d {
      AndMask(s, 1);
      AndMask(d, w);
      DivModUnique(d, Pow2(w), 0, d);
      DivModUnique(r - d, Pow2(w), 0, r - d);
    } else {
      DivModUnique(r, Pow2(w), 0, r);
    }
  }

  /** The leading zeros of the high half are those of the whole double word. */
  lemma TopBit(x: nat, w: nat)
    requires x < Pow2(2 * w) && 0 < x / Pow2(w) < Pow2(w)
    ensures var n := Clz(x / Pow2(w), w); TopBitAt(x, 2 * w, n)
  {
    var h := x / Pow2(w);
    var n := Clz(h, w);
    Pow2Add(w, w);
    Pow2Add(n, w - n);
    DivisionEquation(x, Pow2(w));
    assert Pow2(w) <= 2 * (h * Pow2(n));
    TopBitArith(x, h, Pow2(w), Pow2(n), Pow2(w - n));
  }

  lemma TopBitArith(x: nat, h: nat, p: nat, k: nat, g: nat)
    requires p == k * g && h * p <= x < h * p + p && h * k < p <= 2 * (h * k) && k > 0
    ensures x * k < p * p <= 2 * (x * k)
  {
    TopBitBelow(x, h, p, k, g);
    assert p * p <= 2 * (x * k) by {
      MulMono(p, 2 * (h * k), p);
      MulMono(h * p, x, k);
      assert (h * k) * p == (h * p) * k;
    }
  }

  lemma TopBitBelow(x: nat, h: nat, p: nat, k: nat, g: nat)
    requires p == k * g && x < h * p + p && h * k < p && k > 0
    ensures x * k < p * p
  {
    if h >= g { MulMono(g, h, k); }
    MulMono(h + 1, g, p);
    var y := g * p;
    assert x < y;
    assert y * k == p * p by { assert g * p * k == (k * g) * p; }
    MulMono(x + 1, y, k);
  }

  /** Aligning the divisor b under the dividend a by the difference of their leading zeros. */
  lemma Align(a: nat, b: nat, w: nat, n: nat, m: nat)
    requires w > 0 && a > 0
    requires TopBitAt(a, w, n) && TopBitAt(b, w, m)
    ensures m < n ==> a < b
    ensures n <= m ==> a < 2 * (b * Pow2(m - n)) && b * Pow2(m - n) < Pow2(w)
    ensures n <= m && b * Pow2(m - n) >= Pow2(w - 1) ==> a >= Pow2(w - 1)
  {
    if m < n {
      Pow2Add(m, n - m);
      Pow2Monotone(1, n - m);
      AlignLess(a, b, Pow2(m), Pow2(n - m), Pow2(w));
    } else {
      Pow2Add(n, m - n);
      AlignFits(a, b, Pow2(n), Pow2(m - n), Pow2(w));
      if b * Pow2(m - n) >= Pow2(w - 1) && n > 0 {
        Pow2Monotone(1, n);
        MulMono(2, Pow2(n), b * Pow2(m - n));
      }
    }
  }

  lemma AlignLess(a: nat, b: nat, km: nat, t: nat, p: nat)
    requires t >= 2 && km > 0 && a * (km * t) < p <= 2 * (b * km)
    ensures a < b
  {
    assert b * (km * t) == t * (b * km);
    MulMono(2, t, b * km);
    if a >= b { MulMono(b, a, km * t); }
  }

  lemma AlignFits(a: nat, b: nat, kn: nat, t: nat, p: nat)
    requires kn > 0 && a * kn < p <= 2 * (b * (kn * t)) && b * (kn * t) < p
    ensures a < 2 * (b * t) && b * t < p
    ensures b * (kn * t) == kn * (b * t)
  {
    assert b * (kn * t) == kn * (b * t);
    if a >= 2 * (b * t) { MulMono(2 * (b * t), a, kn); }
    MulMono(1, kn, b * t);
  }

  lemma Highs(x: nat)
    requires W64 <= x < W128
    ensures 0 < x / W64 < Pow2(64)
    ensures var n := Clz(x / W64, 64); TopBitAt(x, 128, n)
  {
    Pow2Values();
    QuotientBelow(x, W64, W64);
    TopBit(x, 64);
  }

  lemma DoubleFits(q: nat)
    requires 2 * q < W64
    ensures Shl(q, 1, 64) == 2 * q
    ensures forall c: nat :: c <= 1 ==> Or(2 * q, c) == 2 * q + c
  {
    Shl64(q, 1);
    assert Pow2(1) == 2;
    NoWrap(2 * q);
    OrIsAdd(q, 0, 1);
    OrIsAdd(q, 1, 1);
  }

  /** Shifts one more bit into the quotient q of a by the doubled divisor. */
  method QuotientBit(ghost a: nat, q: nat, divisor: nat, dividend: nat) returns (q': nat, dividend': nat)
    requires SignTestApplies(divisor, dividend, W127) && q < W63
    requires a == q * (2 * divisor) + dividend
    ensures a == q' * divisor + dividend' && dividend' < divisor
  {
    assert Pow2(127) == W127 by { Pow2Values(); }
    DoubleFits(q);
    var carry;
    carry, dividend' := ConditionalSubtract(divisor, dividend, 128);
    q' := Or(Shl(q, 1, 64), carry);
    assert (2 * q + carry) * divisor == q * (2 * divisor) + carry * divisor;
  }

  lemma QuotientFits(a: nat, q: nat, step: nat, bound: nat)
    requires q * step <= a < W128 && step * bound >= W128 && bound > 0
    ensures q < bound
  {
    if q >= bound { MulMono(bound, q, step); }
  }

  /** x doubled n times. */
  function Doubled(x: nat, n: nat): nat {
    if n == 0 then x else 2 * Doubled(x, n - 1)
  }

  lemma {:induction false} DoubledIsShift(x: nat, n: nat)
    ensures Doubled(x, n) == x * Pow2(n)
  {
    if n > 0 { DoubledIsShift(x, n - 1); }
  }

  /** Shifts the divisor so that its top bit lies under the dividend's. */
  method AlignDivisor(a: nat, b: nat) returns (shift: nat, divisor: nat)
    requires W64 <= b <= a < W128
    ensures shift < 64 && divisor == Doubled(b, shift)
    ensures divisor < W128 && a < 2 * divisor && (divisor >= W127 ==> a >= W127)
  {
    Highs(a); Highs(b);
    var n, m := Clz(a / W64, 64), Clz(b / W64, 64);
    Align(a, b, 128, n, m);
    shift := m - n;
    Shl128(b, shift);
    DoubledIsShift(b, shift);
    divisor := Shl(b, shift, 128);
  }

  lemma Shl128(x: nat, s: nat)
    ensures x * Pow2(s) < Pow2(128) ==> Shl(x, s, 128) == x * Pow2(s)
    ensures Pow2(127) == W127 && Pow2(128) == W128
  {
    Pow2Values();
    if x * Pow2(s) < W128 { DivModUnique(x * Pow2(s), W128, 0, x * Pow2(s)); }
  }

  lemma HalveDoubled(x: nat, n: nat)
    ensures Shr(Doubled(x, n), 1) <= Doubled(x, n) / 2
    ensures n > 0 ==> Shr(Doubled(x, n), 1) == Doubled(x, n - 1)
  {
    assert Pow2(1) == 2;
  }

  lemma {:induction false} DoubledGrows(x: nat, n: nat)
    ensures Doubled(x, n) >= x
  {
    if n > 0 { DoubledGrows(x, n - 1); }
  }

  /** Shift-subtract division for a divisor with a nonzero high word. */
  method ShiftSubtract128(a: nat, b: nat) returns (q: nat, r: nat)
    requires W64 <= b <= a < W128
    ensures a == q * b + r && r < b
    ensures q < W64
  {
    var shift, divisor := AlignDivisor(a, b);
    q, r := 0, a;
    ghost var step := 2 * divisor;
    var k: int := shift;
    while k >= 0
      invariant -1 <= k <= shift
      invariant step == Doubled(b, k + 1)
      invariant k >= 0 ==> divisor == Doubled(b, k) && divisor < W128 && (divisor >= W127 ==> r >= W127)
      invariant r < step && r < W128 && a == q * step + r
    {
      DoubledGrows(b, k);
      QuotientFits(a, q, step, W63);
      q, r := QuotientBit(a, q, divisor, r);
      step := divisor;
      HalveDoubled(b, k);
      divisor := Shr(divisor, 1);
      k := k - 1;
    }
    QuotientFits(a, q, b, W64);
  }

  /** Full 128-bit division. */
  method Udivmodti4(a: nat, b: nat) returns (q: nat, r: nat)
    requires a < W128 && 0 < b < W128
    ensures a == q * b + r && r < b
    ensures q < W128
  {
    if b > a { return 0, a; }
    DivisionEquation(a, W64);
    if b / W64 == 0 {
      var high, low := a / W64, a % W64;
      QuotientBelow(a, W64, W64);
      if high < b {
        q, r := Udiv128By64To64Default(high, low, b);
      } else {
        var qHigh := high / b;
        DivisionEquation(high, b);
        var qLow;
        qLow, r := Udiv128By64To64Default(high % b, low, b);
        q := qHigh * W64 + qLow;
        TwoStep(a, b, high, low, qHigh, qLow, r);
      }
      return;
    }
    q, r := ShiftSubtract128(a, b);
  }

  lemma TwoStep(a: nat, b: nat, high: nat, low: nat, qHigh: nat, qLow: nat, r: nat)
    requires b > 0 && a == high * W64 + low && high < W64 && qLow < W64
    requires qHigh == high / b && high % b * W64 + low == qLow * b + r
    ensures a == (qHigh * W64 + qLow) * b + r
    ensures qHigh * W64 + qLow < W128
  {
    DivisionEquation(high, b);
    assert (qHigh * W64 + qLow) * b == (qHigh * b) * W64 + qLow * b;
    QuotientBelow(high, b, W64) by { MulMono(1, b, W64); }
  }
}

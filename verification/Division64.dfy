/** compiler-rt/udivmoddi4.c and divmoddi4.c: 64-bit division from 32-bit halves. */
module Division64 {
  import opened Words
  import opened W = WideDivision

  /** Splitting a 32-bit word at bit t, as the pairs of shifts in the source do. */
  lemma Funnel(h: nat, l: nat, t: nat)
    requires h < W32 && l < W32 && 0 < t < 32
    ensures Pow2(t) * Pow2(32 - t) == W32
    ensures Shl(l, 32 - t, 32) == l % Pow2(t) * Pow2(32 - t)
    ensures Or(Shl(h, 32 - t, 32), Shr(l, t)) == h % Pow2(t) * Pow2(32 - t) + l / Pow2(t)
  {
    hide Pow2, Or, Shl;
    FunnelPow(t);
    FunnelPart(h, t);
    FunnelPart(l, t);
    QuotientBelow(l, Pow2(t), Pow2(32 - t));
    OrIsAdd(h % Pow2(t), l / Pow2(t), 32 - t);
  }

  lemma FunnelPow(t: nat)
    requires 0 < t < 32
    ensures Pow2(t) * Pow2(32 - t) == W32 && Pow2(32) == W32
  {
    Pow2Values();
    Pow2Add(t, 32 - t);
    hide Pow2;
  }

  lemma FunnelPart(x: nat, t: nat)
    requires 0 < t < 32
    ensures Shl(x, 32 - t, 32) == x % Pow2(t) * Pow2(32 - t)
  {
    hide Pow2;
    FunnelPow(t);
    FunnelShl(x, Pow2(t), Pow2(32 - t));
  }

  lemma FunnelShl(x: nat, p: nat, p': nat)
    requires p > 0 && p' > 0 && p * p' == W32
    ensures (x * p') % W32 == x % p * p'
  {
    DivisionEquation(x, p);
    assert x * p' == x / p * W32 + x % p * p' by {
      assert x / p * p * p' == x / p * (p * p');
      assert (x / p * p + x % p) * p' == x / p * p * p' + x % p * p';
    }
    MulMono(x % p + 1, p, p');
    assert (x % p + 1) * p' == x % p * p' + p';
    DivModUnique(x * p', W32, x / p, x % p * p');
  }

  /** r is a >> sr, and q holds the low sr bits of a at its top. */
  ghost predicate Split(a: nat, sr: nat, q: nat, r: nat)
    requires sr < 64
  {
    r == Shr(a, sr) && q == a % Pow2(sr) * Pow2(64 - sr)
  }

  /** q:r hold a, with the high sr bits of q still to be shifted into r. */
  ghost predicate Start(a: nat, b: nat, sr: nat, q: nat, r: nat) {
    && 0 < sr < 64 && Split(a, sr, q, r) && r < b
    && (b >= W63 ==> sr == 1 && a >= W63)
  }

  /** q = a << (64 - sr) and r = a >> sr, assembled from 32-bit halves. */
  method InitialDigits(high: nat, low: nat, sr: nat) returns (qHigh: nat, qLow: nat, rHigh: nat, rLow: nat)
    requires high < W32 && low < W32 && 0 < sr < 64
    ensures qHigh < W32 && qLow < W32 && rHigh < W32 && rLow < W32
    ensures Split(high * W32 + low, sr, qHigh * W32 + qLow, rHigh * W32 + rLow)
  {
    if sr == 32 {
      qLow, qHigh, rHigh, rLow := 0, low, 0, high;
      assert Pow2(32) == W32 by { Pow2Values(); }
      DivModUnique(high * W32 + low, W32, high, low);
    } else if sr < 32 {
      qLow := 0;
      qHigh := Shl(low, 32 - sr, 32);
      rHigh := Shr(high, sr);
      rLow := Or(Shl(high, 32 - sr, 32), Shr(low, sr));
      Funnel(high, low, sr);
      Pow2Plus32(32 - sr);
      ShortShift(high, low, Pow2(sr), Pow2(32 - sr), Pow2(64 - sr));
    } else {
      qLow := Shl(low, 64 - sr, 32);
      qHigh := Or(Shl(high, 64 - sr, 32), Shr(low, sr - 32));
      rHigh := 0;
      rLow := Shr(high, sr - 32);
      Funnel(high, low, sr - 32);
      Pow2Plus32(sr - 32);
      LongShift(high, low, Pow2(sr - 32), Pow2(64 - sr), Pow2(sr));
    }
  }

  lemma PartBelow(x: nat, y: nat, p: nat, p': nat)
    requires p * p' == W32 && x < p && y < p'
    ensures x * p' + y < W32
  {
    MulMono(x + 1, p, p');
    assert (x + 1) * p' == x * p' + p';
  }

  /** Two 32-bit words split at bit t by quotient and remainder. */
  lemma SplitWords(h: nat, l: nat, p: nat, p': nat)
    requires h < W32 && l < W32 && p > 0 && p' > 0 && p * p' == W32
    ensures h / p < W32 && h % p * p' + l / p < W32 && l % p * p' < W32
    ensures h == h / p * p + h % p && l == l / p * p + l % p
  {
    MulMono(1, p, W32);
    QuotientBelow(h, p, W32);
    QuotientBelow(l, p, p');
    PartBelow(h % p, l / p, p, p');
    MulMono(1, p', p');
    PartBelow(l % p, 0, p, p');
    DivisionEquation(h, p);
    DivisionEquation(l, p);
  }

  lemma ShortShift(h: nat, l: nat, p: nat, p': nat, p'': nat)
    requires h < W32 && l < W32 && p > 0 && p' > 0 && p * p' == W32 && p'' == p' * W32
    ensures h / p < W32 && h % p * p' + l / p < W32 && l % p * p' < W32
    ensures h / p * W32 + (h % p * p' + l / p) == (h * W32 + l) / p
    ensures l % p * p' * W32 == (h * W32 + l) % p * p''
  {
    SplitWords(h, l, p, p');
    ShortSum(h, l, p, p', h / p, h % p, l / p, l % p);
    DivModUnique(h * W32 + l, p, h / p * W32 + (h % p * p' + l / p), l % p);
    Assoc(l % p, p', W32);
  }

  lemma Assoc(x: nat, y: nat, z: nat)
    ensures x * y * z == x * (y * z)
  {
  }

  lemma ShortSum(h: nat, l: nat, p: nat, p': nat, hq: nat, hr: nat, lq: nat, lr: nat)
    requires p * p' == W32 && h == hq * p + hr && l == lq * p + lr
    ensures h * W32 + l == (hq * W32 + (hr * p' + lq)) * p + lr
  {
    assert hr * p' * p == hr * W32 by { assert hr * p' * p == hr * (p * p'); }
  }

  lemma LongShift(h: nat, l: nat, p: nat, p': nat, p'': nat)
    requires h < W32 && l < W32 && p > 0 && p' > 0 && p * p' == W32 && p'' == p * W32
    ensures h / p < W32 && h % p * p' + l / p < W32 && l % p * p' < W32
    ensures h / p == (h * W32 + l) / p''
    ensures (h % p * p' + l / p) * W32 + l % p * p' == (h * W32 + l) % p'' * p'
  {
    SplitWords(h, l, p, p');
    LongSum(h, l, p, p', h / p, h % p, l / p, l % p);
    DivModUnique(h * W32 + l, p'', h / p, h % p * W32 + l);
  }

  lemma Pow2Plus32(t: nat)
    ensures Pow2(t + 32) == Pow2(t) * W32
  {
    Pow2Add(t, 32);
    Pow2Values();
  }

  lemma LongSum(h: nat, l: nat, p: nat, p': nat, hq: nat, hr: nat, lq: nat, lr: nat)
    requires p * p' == W32 && h == hq * p + hr && l == lq * p + lr && hr < p && l < W32
    ensures h * W32 + l == hq * (p * W32) + (hr * W32 + l) && hr * W32 + l < p * W32
    ensures (hr * W32 + l) * p' == (hr * p' + lq) * W32 + lr * p'
  {
    assert l * p' == lq * W32 + lr * p' by { assert lq * p * p' == lq * (p * p'); }
  }

  const W31: nat := 0x8000_0000

  /** (x << 1) | bit on one 32-bit word; the bit shifted out is x >> 31. */
  lemma ShiftIn(x: nat, bit: nat)
    requires x < W32 && bit <= 1
    ensures Shr(x, 31) == x / W31 <= 1
    ensures Or(Shl(x, 1, 32), bit) == 2 * x + bit - x / W31 * W32
    ensures 0 <= 2 * x + bit - x / W31 * W32 < W32
  {
    assert Pow2(31) == W31 && Pow2(32) == W32 && Pow2(1) == 2 by { Pow2Values(); assert Pow2(1) == 2; }
    var m := x % W31;
    DivModUnique(2 * x, W32, x / W31, 2 * m);
    OrIsAdd(m, bit, 1);
  }

  /** h:l is x; the four shifts and ors of the source double it and bring in a bit. */
  lemma ShiftPair(h: nat, l: nat, bit: nat)
    requires h < W32 && l < W32 && bit <= 1
    ensures var x, out := h * W32 + l, Shr(h, 31);
      var h', l' := Or(Shl(h, 1, 32), Shr(l, 31)), Or(Shl(l, 1, 32), bit);
      h' < W32 && l' < W32 && out <= 1 && (out == 1 <==> x >= W63)
      && h' * W32 + l' == 2 * x + bit - out * W64
  {
    ShiftIn(l, bit);
    ShiftIn(h, Shr(l, 31));
  }

  /**
   * Loop invariant: a splits into the quotient bits found so far (with the pending carry), the
   * partial remainder r, and the bits of a still in the top of q.
   */
  ghost predicate Progress(a: nat, b: nat, q: nat, r: nat, carry: nat, p: nat, p': nat, rest: nat, low: nat) {
    && p > 0 && p' > 0 && p * p' == W64 && rest < p && low < p' && carry <= 1 && r < b
    && q == rest * p' + low
    && a == ((2 * low + carry) * b + r) * p + rest
    && (b >= W63 && p > 1 ==> a == r * p + rest && p == 2 && a >= W63)
  }

  /** The bit shifted out of q is the next bit of a. */
  lemma NextBitOfA(q: nat, p: nat, p': nat, rest: nat, low: nat, carry: nat, out: nat) returns (rest': nat)
    requires p > 0 && 2 * p * p' == W64 && rest < 2 * p && low < p' && carry <= 1
    requires q == rest * p' + low && out <= 1 && (out == 1 <==> q >= W63)
    ensures rest' < p && rest == out * p + rest'
    ensures 2 * q + carry - out * W64 == rest' * (2 * p') + (2 * low + carry)
  {
    assert p * p' == W63 by { assert 2 * p * p' == 2 * (p * p'); }
    if out == 1 {
      assert (rest + 1) * p' == rest * p' + p';
      if rest < p { MulMono(rest + 1, p, p'); }
      rest' := rest - p;
      assert rest * p' == rest' * p' + W63;
    } else {
      if rest >= p { MulMono(p, rest, p'); }
      rest' := rest;
    }
    assert rest' * (2 * p') == 2 * (rest' * p');
  }

  /** Moving that bit into r keeps the value of a. */
  lemma MoveBit(a: nat, b: nat, r: nat, p: nat, acc: nat, out: nat, rest: nat)
    requires out <= 1 && a == (acc * b + r) * (2 * p) + (out * p + rest)
    ensures a == (2 * acc * b + (2 * r + out)) * p + rest
  {
    assert (acc * b + r) * (2 * p) == 2 * acc * b * p + 2 * r * p;
  }

  lemma TakeBit(a: nat, b: nat, acc: nat, r: nat, p: nat, rest: nat, carry: nat, r': nat)
    requires a == (2 * acc * b + r) * p + rest
    requires if r >= b then carry == 1 && r' == r - b else carry == 0 && r' == r
    ensures a == ((2 * acc + carry) * b + r') * p + rest
  {
    assert (2 * acc + 1) * b == 2 * acc * b + b;
  }

  /** With a divisor of 2^63 or more there is one iteration, and it compares a itself with b. */
  lemma BigDivisor(a: nat, b: nat, r: nat, p: nat, out: nat, rest: nat)
    requires b >= W63 ==> a == r * (2 * p) + (out * p + rest) && 2 * p == 2 && a >= W63
    requires b < W64 && r < b && out <= 1 && rest < p
    ensures b >= W63 ==> 2 * r + out == a
    ensures b < W63 ==> 2 * r + out < W64
  {
    if b >= W63 { assert p == 1; }
  }

  lemma StartProgress(a: nat, b: nat, sr: nat, q: nat, r: nat)
    requires a < W64 && Start(a, b, sr, q, r)
    ensures Progress(a, b, q, r, 0, Pow2(sr), Pow2(64 - sr), a % Pow2(sr), 0)
  {
    assert Pow2(sr) * Pow2(64 - sr) == W64 by { Pow2Add(sr, 64 - sr); Pow2Values(); }
    DivisionEquation(a, Pow2(sr));
    assert Pow2(1) == 2;
  }

  lemma FinalCarry(a: nat, b: nat, q: nat, r: nat, carry: nat, p': nat, rest: nat, low: nat)
    requires a < W64 && Progress(a, b, q, r, carry, 1, p', rest, low)
    ensures Or(Shl(q, 1, 64), carry) == 2 * q + carry
    ensures a == (2 * q + carry) * b + r
  {
    assert q == low;
    MulMono(1, b, 2 * q + carry);
    DoubleFits(q);
  }

  /** The main shift-subtract loop and the final carry. */
  method ShiftLoop(a: nat, b: nat, sr0: nat, qHigh0: nat, qLow0: nat, rHigh0: nat, rLow0: nat) returns (q: nat, r: nat)
    requires a < W64 && 0 < b < W64
    requires qHigh0 < W32 && qLow0 < W32 && rHigh0 < W32 && rLow0 < W32
    requires Start(a, b, sr0, qHigh0 * W32 + qLow0, rHigh0 * W32 + rLow0)
    ensures IsDivision(a, b, q, r)
  {
    var qHigh: nat, qLow: nat, rHigh: nat, rLow: nat := qHigh0, qLow0, rHigh0, rLow0;
    var carry: nat := 0;
    var sr := sr0;
    ghost var p: nat, p': nat, rest: nat, low: nat := Pow2(sr), Pow2(64 - sr), a % Pow2(sr), 0;
    StartProgress(a, b, sr, qHigh * W32 + qLow, rHigh * W32 + rLow);
    while sr > 0
      invariant qHigh < W32 && qLow < W32 && rHigh < W32 && rLow < W32
      invariant p == Pow2(sr)
      invariant Progress(a, b, qHigh * W32 + qLow, rHigh * W32 + rLow, carry, p, p', rest, low)
    {
      qHigh, qLow, rHigh, rLow, carry, rest, low :=
        ShiftOnce(a, b, qHigh, qLow, rHigh, rLow, carry, Pow2(sr - 1), p', rest, low);
      p, p' := Pow2(sr - 1), 2 * p';
      sr := sr - 1;
    }
    FinalCarry(a, b, qHigh * W32 + qLow, rHigh * W32 + rLow, carry, p', rest, low);
    q := Or(Shl(qHigh * W32 + qLow, 1, 64), carry);
    r := rHigh * W32 + rLow;
  }

  /** One iteration: shift r:q left by one, then subtract b if it fits. */
  method ShiftOnce(ghost a: nat, b: nat, qHigh: nat, qLow: nat, rHigh: nat, rLow: nat, carry: nat,
                   ghost p: nat, ghost p': nat, ghost rest: nat, ghost low: nat)
    returns (qHigh': nat, qLow': nat, rHigh': nat, rLow': nat, carry': nat, ghost rest': nat, ghost low': nat)
    requires a < W64 && 0 < b < W64 && p > 0
    requires qHigh < W32 && qLow < W32 && rHigh < W32 && rLow < W32
    requires Progress(a, b, qHigh * W32 + qLow, rHigh * W32 + rLow, carry, 2 * p, p', rest, low)
    ensures qHigh' < W32 && qLow' < W32 && rHigh' < W32 && rLow' < W32
    ensures Progress(a, b, qHigh' * W32 + qLow', rHigh' * W32 + rLow', carry', p, 2 * p', rest', low')
  {
    hide Progress, Or, Shl, Shr, Pow2;
    ghost var q1, r1, out := qHigh * W32 + qLow, rHigh * W32 + rLow, Shr(qHigh, 31);
    ShiftIn(qHigh, 0);
    ShiftPair(rHigh, rLow, out);
    ShiftPair(qHigh, qLow, carry) by { ProgressCarry(a, b, q1, r1, carry, 2 * p, p', rest, low); }
    rest', low' := Iterate(a, b, q1, r1, carry, p, p', rest, low, out);
    rHigh' := Or(Shl(rHigh, 1, 32), Shr(rLow, 31));
    rLow' := Or(Shl(rLow, 1, 32), Shr(qHigh, 31));
    qHigh' := Or(Shl(qHigh, 1, 32), Shr(qLow, 31));
    qLow' := Or(Shl(qLow, 1, 32), carry);
    Pow2At63();
    var r3;
    carry', r3 := ConditionalSubtract(b, rHigh' * W32 + rLow', 64);
    rHigh', rLow' := r3 / W32, r3 % W32;
  }

  lemma ProgressCarry(a: nat, b: nat, q: nat, r: nat, carry: nat, p: nat, p': nat, rest: nat, low: nat)
    requires Progress(a, b, q, r, carry, p, p', rest, low)
    ensures carry <= 1
  {
  }

  /** One iteration on the values held by the words. */
  lemma Iterate(a: nat, b: nat, q: nat, r: nat, carry: nat, p: nat, p': nat, rest: nat, low: nat, out: nat)
    returns (rest': nat, low': nat)
    requires a < W64 && 0 < b < W64 && p > 0
    requires Progress(a, b, q, r, carry, 2 * p, p', rest, low)
    requires out <= 1 && (out == 1 <==> q >= W63)
    ensures var q', r2 := 2 * q + carry - out * W64, 2 * r + out;
      && SignTestApplies(b, r2, W63)
      && q' >= 0
      && Progress(a, b, q', if r2 >= b then r2 - b else r2, if r2 >= b then 1 else 0, p, 2 * p', rest', low')
  {
    rest' := NextBitOfA(q, p, p', rest, low, carry, out);
    low' := 2 * low + carry;
    MoveBit(a, b, r, p, low', out, rest');
    BigDivisor(a, b, r, p, out, rest');
    var r2 := 2 * r + out;
    TakeBit(a, b, low', r2, p, rest', if r2 >= b then 1 else 0, if r2 >= b then r2 - b else r2);
    assert p * (2 * p') == W64 by { Assoc(2, p, p'); Assoc(p, 2, p'); }
    MulMono(0, rest', 2 * p');
  }

  lemma Pow2At63()
    ensures Pow2(63) == W63
  {
    Pow2Values();
  }

  /** The high halves decide: aligning b under a by the difference of leading zeros. */
  lemma LeadingZeros(x: nat)
    requires W32 <= x < W64
    ensures 0 < x / W32 < Pow2(32)
    ensures var n := Clz(x / W32, 32); TopBitAt(x, 64, n)
  {
    Pow2Values();
    QuotientBelow(x, W32, W32);
    TopBit(x, 32);
  }

  /** sr = 1 + clz(b) - clz(a) brings the top of a just below b. */
  lemma StartValid(a: nat, b: nat, n: nat, m: nat)
    requires 0 < a < W64 && 0 < b < W64 && n <= m
    requires TopBitAt(a, 64, n) && TopBitAt(b, 64, m)
    ensures Shr(a, m - n + 1) < b
    ensures b >= W63 ==> m == n && a >= W63
  {
    Pow2At63();
    Align(a, b, 64, n, m);
    var t := Pow2(m - n);
    assert Pow2(m - n + 1) == 2 * t;
    ShrIs(a, m - n + 1);
    BelowHalf(a, b, t);
    if b >= W63 { TopAligned(b, m - n); }
  }

  lemma BelowHalf(a: nat, b: nat, t: nat)
    requires t > 0 && a < 2 * (b * t)
    ensures a / (2 * t) < b
  {
    Assoc(2, b, t); Assoc(b, 2, t);
    QuotientBelow(a, 2 * t, b);
  }

  lemma TopAligned(b: nat, k: nat)
    requires b >= W63 && b * Pow2(k) < Pow2(64)
    ensures k == 0 && b * Pow2(k) >= W63
  {
    assert Pow2(64) == W64 && Pow2(1) == 2 && Pow2(0) == 1 by { Pow2Values(); }
    var j := if k > 0 then 1 else 0;
    Pow2Monotone(j, k);
    MulMono(Pow2(j), Pow2(k), b);
  }

  /** The divisor is a power of two: its mask gives the remainder. */
  lemma PowerOfTwoDivisor(high: nat, low: nat, d: nat)
    requires 0 < high < W32 && low < W32 && 0 < d < W32 && And(d, d - 1) == 0
    ensures d == Pow2(Ctz(d)) && Ctz(d) < 32 && (Ctz(d) == 0 ==> d == 1)
    ensures And(low, d - 1) == (high * W32 + low) % d == low % d
  {
    AndPredZero(d);
    var t := Ctz(d);
    assert Pow2(32) == W32 by { Pow2Values(); }
    if t >= 32 { Pow2Monotone(32, t); }
    AndMask(low, t);
    Pow2Add(t, 32 - t);
    ModOfMultiple(high, low, d, Pow2(32 - t));
  }

  lemma ModOfMultiple(high: nat, low: nat, d: nat, g: nat)
    requires d > 0 && d * g == W32
    ensures (high * W32 + low) % d == low % d
  {
    DivisionEquation(low, d);
    assert high * W32 == high * g * d by { Assoc(high, g, d); }
    DivModUnique(high * W32 + low, d, high * g + low / d, low % d);
  }

  /** K X / K 0 by the high halves alone. */
  lemma HighOnly(high: nat, low: nat, d: nat)
    requires low < W32 && d > 0
    ensures IsDivision(high * W32 + low, d * W32, high / d, high % d * W32 + low)
  {
    DivisionEquation(high, d);
    var q := high / d;
    assert (q * d + high % d) * W32 == q * (d * W32) + high % d * W32;
  }

  /** Division by a power of two in the low half. */
  method ShiftDivide(high: nat, low: nat, d: nat) returns (q: nat, r: nat)
    requires 0 < high < W32 && low < W32 && 0 < d < W32 && And(d, d - 1) == 0
    ensures IsDivision(high * W32 + low, d, q, r)
  {
    hide Or, And, Shl, Pow2;
    var a := high * W32 + low;
    PowerOfTwoDivisor(high, low, d);
    r := And(low, d - 1);
    DivisionEquation(a, d);
    if d == 1 { return a, r; }
    var sr := Ctz(d);
    Funnel(high, low, sr);
    ShortShift(high, low, Pow2(sr), Pow2(32 - sr), Pow2(32 - sr) * W32);
    ShrIs(high, sr);
    ShrIs(low, sr);
    q := Shr(high, sr) * W32 + Or(Shl(high, 32 - sr, 32), Shr(low, sr));
  }

  /** The difference of leading zeros, wrapped as an unsigned word; large when b is above a. */
  method LeadingZeroGap(a: nat, b: nat) returns (sr: nat)
    requires W32 <= a < W64 && W32 <= b < W64
    ensures sr > 31 ==> a < b
    ensures sr <= 31 ==> Shr(a, sr + 1) < b && (b >= W63 ==> sr == 0 && a >= W63)
    ensures sr == 31 ==> b < 2 * W32
  {
    hide Pow2, Shr, TopBitAt;
    LeadingZeros(a);
    LeadingZeros(b);
    var n, m := Clz(a / W32, 32), Clz(b / W32, 32);
    sr := (m - n) % W32;
    Align(a, b, 64, n, m);
    WrappedGap(m, n);
    if n <= m {
      StartValid(a, b, n, m);
      if m == 31 { ClzOfOne(b / W32); }
    }
  }

  lemma WrappedGap(m: nat, n: nat)
    requires m < 32 && n < 32
    ensures n <= m ==> (m - n) % W32 == m - n
    ensures m < n ==> (m - n) % W32 > 31
  {
    if n <= m {
      DivModUnique(m - n, W32, 0, m - n);
    } else {
      DivModUnique(m - n, W32, -1, m - n + W32);
    }
  }

  lemma ClzOfOne(d: nat)
    requires 0 < d < Pow2(32) && Clz(d, 32) >= 31
    ensures d == 1
  {
    var k := Clz(d, 32);
    Pow2Monotone(31, k);
    assert Pow2(31) == W31 && Pow2(32) == W32 by { Pow2Values(); }
    MulMono(W31, Pow2(k), d);
  }

  /** A 32-bit divisor, seen as a 64-bit one, has 32 more leading zeros. */
  lemma SmallDivisor(d: nat)
    requires 0 < d < W32 && And(d, d - 1) != 0
    ensures d < Pow2(32) && Clz(d, 32) <= 30
    ensures var m := 32 + Clz(d, 32); TopBitAt(d, 64, m)
  {
    assert Pow2(32) == W32 && Pow2(64) == W64 by { Pow2Values(); }
    var k := Clz(d, 32);
    if k >= 31 { ClzOfOne(d); }
    Pow2Plus32(k);
    Assoc(d, Pow2(k), W32);
  }

  /** The same gap when the divisor is a 32-bit word that is no power of two. */
  method SmallDivisorGap(a: nat, b: nat) returns (sr: nat)
    requires W32 <= a < W64 && 0 < b < W32 && And(b, b - 1) != 0
    ensures 0 < sr < 64 && Shr(a, sr) < b
  {
    hide Pow2, Shr, And, TopBitAt;
    LeadingZeros(a);
    SmallDivisor(b);
    var n, m := Clz(a / W32, 32), Clz(b, 32);
    sr := (1 + 32 + m - n) % W32;
    DivModUnique(1 + 32 + m - n, W32, 0, 1 + 32 + m - n);
    StartValid(a, b, n, 32 + m);
  }

  /** The common tail: q = a << (64 - sr), r = a >> sr, then sr rounds of shift and subtract. */
  method ShiftAndSubtract(a: nat, b: nat, sr: nat) returns (q: nat, r: nat)
    requires a < W64 && 0 < b < W64 && 0 < sr < 64
    requires Shr(a, sr) < b && (b >= W63 ==> sr == 1 && a >= W63)
    ensures IsDivision(a, b, q, r)
  {
    hide Pow2, Shr, Split, IsDivision;
    QuotientBelow(a, W32, W32);
    var qHigh, qLow, rHigh, rLow := InitialDigits(a / W32, a % W32, sr);
    SplitHigh(a, sr, qHigh * W32 + qLow, rHigh * W32 + rLow);
    q, r := ShiftLoop(a, b, sr, qHigh, qLow, rHigh, rLow);
  }

  lemma SplitHigh(a: nat, sr: nat, q: nat, r: nat)
    requires sr < 64 && Split(a, sr, q, r)
    ensures r == Shr(a, sr)
  {
  }

  lemma MaskedHigh(high: nat, low: nat, d: nat)
    requires 0 < high < W32 && low < W32 && 0 < d < W32 && And(d, d - 1) == 0
    ensures IsDivision(high * W32 + low, d * W32, Shr(high, Ctz(d)), And(high, d - 1) * W32 + low)
  {
    HighOnly(high, low, d);
    PowerOfTwoDivisor(high, high, d);
    ShrIs(high, Ctz(d));
  }

  /** The divisor's low half is zero. */
  method DivideByHigh(a: nat, b: nat) returns (q: nat, r: nat)
    requires W32 <= a < W64 && W32 <= b < W64 && b % W32 == 0
    ensures IsDivision(a, b, q, r)
  {
    hide Pow2, Or, And, Shr, IsDivision;
    var nHigh, nLow, dHigh := a / W32, a % W32, b / W32;
    QuotientBelow(a, W32, W32);
    QuotientBelow(b, W32, W32);
    if nLow == 0 {
      HighOnly(nHigh, nLow, dHigh);
      return nHigh / dHigh, nHigh % dHigh * W32;
    }
    if And(dHigh, dHigh - 1) == 0 {
      MaskedHigh(nHigh, nLow, dHigh);
      return Shr(nHigh, Ctz(dHigh)), And(nHigh, dHigh - 1) * W32 + nLow;
    }
    var sr := LeadingZeroGap(a, b);
    if sr > 30 {
      AndOne();
      ZeroQuotient(a, b);
      return 0, a;
    }
    q, r := ShiftAndSubtract(a, b, sr + 1);
  }

  /** 64-bit division from 32-bit halves. */
  method Udivmoddi4(a: nat, b: nat) returns (q: nat, r: nat)
    requires a < W64 && 0 < b < W64
    ensures a == q * b + r && r < b
    ensures IsDivision(a, b, q, r)
  {
    q, r := DivideWords(a, b);
  }

  /** Its cases. */
  method DivideWords(a: nat, b: nat) returns (q: nat, r: nat)
    requires a < W64 && 0 < b < W64
    ensures IsDivision(a, b, q, r)
  {
    hide Pow2, And, Shr, IsDivision;
    var nHigh, nLow, dHigh, dLow := a / W32, a % W32, b / W32, b % W32;
    QuotientBelow(a, W32, W32);
    if nHigh == 0 {
      if dHigh == 0 {
        NativeDivision(nLow, dLow);
        return nLow / dLow, nLow % dLow;
      }
      ZeroQuotient(a, b);
      return 0, nLow;
    }
    if dLow == 0 {
      q, r := DivideByHigh(a, b);
    } else if dHigh == 0 {
      if And(dLow, dLow - 1) == 0 {
        q, r := ShiftDivide(nHigh, nLow, dLow);
      } else {
        var sr := SmallDivisorGap(a, b);
        q, r := ShiftAndSubtract(a, b, sr);
      }
    } else {
      var sr := LeadingZeroGap(a, b);
      if sr > 31 {
        ZeroQuotient(a, b);
        return 0, a;
      }
      q, r := ShiftAndSubtract(a, b, sr + 1);
    }
  }

  lemma NativeDivision(n: nat, d: nat)
    requires d > 0
    ensures IsDivision(n, d, n / d, n % d)
  {
    DivisionEquation(n, d);
  }

  lemma ZeroQuotient(a: nat, b: nat)
    requires a < b
    ensures IsDivision(a, b, 0, a)
  {
  }

  lemma AndOne()
    ensures And(1, 0) == 0
  {
  }

  /** The two's complement reading of a 64-bit word. */
  function Signed(x: nat): int { if x >= W63 then x - W64 else x }

  /** (x ^ s) - s: negates x modulo 2^64 when s is all ones. */
  function NegateIf(x: nat, s: nat): nat { (Xor(x, s) - s) % W64 }

  function Magnitude(a: int): nat { if a < 0 then -a else a }

  function WithSign(x: nat, negative: bool): int { if negative then 0 - x else x }

  /** A signed value as a 64-bit word. */
  function Word(a: int): nat { a % W64 }

  function Ones(negative: bool): nat { if negative then W64 - 1 else 0 }

  lemma NegateIfValue(x: nat, negative: bool)
    requires x < W64
    ensures NegateIf(x, Ones(negative)) == Word(WithSign(x, negative))
  {
    if negative {
      assert Xor(x, W64 - 1) == W64 - 1 - x by { assert Pow2(64) == W64 by { Pow2Values(); } XorOnes(x, 64); }
    } else {
      XorZero(x);
    }
  }

  /** Arithmetic right shift by 63 of a signed word. */
  lemma SignMaskValue(a: int)
    requires -W63 <= a < W63
    ensures SignMask(Word(a), 64) == Ones(a < 0)
  {
    Pow2Values();
  }

  lemma SignedWord(a: int)
    requires -W63 <= a < W63
    ensures Signed(Word(a)) == a
  {
  }

  /** Signed division: the quotient is truncated toward zero and the remainder takes the sign of a. */
  method Divmoddi4(a: int, b: int) returns (q: int, r: int)
    requires -W63 <= a < W63 && -W63 <= b < W63 && b != 0
    ensures a != -W63 || b != -1 ==> a == q * b + r
    ensures a == -W63 && b == -1 ==> q == -W63 && r == 0
    ensures (if r < 0 then -r else r) < (if b < 0 then -b else b)
    ensures r != 0 ==> (r < 0 <==> a < 0)
  {
    hide SignMask, NegateIf, IsDivision, Word, Signed;
    var sA, sB := SignMask(Word(a), 64), SignMask(Word(b), 64);
    SignMaskValue(a);
    SignMaskValue(b);
    MagnitudeWord(a);
    MagnitudeWord(b);
    var uq, ur := Udivmoddi4(NegateIf(Word(a), sA), NegateIf(Word(b), sB));
    QuotientSigns(a, b, uq, ur);
    XorMasks();
    sB := Xor(sB, sA);
    NegateIfValue(uq, (a < 0) != (b < 0));
    NegateIfValue(ur, a < 0);
    q := Signed(NegateIf(uq, sB));
    r := Signed(NegateIf(ur, sA));
    SignedWord(WithSign(ur, a < 0));
    if uq < W63 || (a < 0) != (b < 0) { SignedWord(WithSign(uq, (a < 0) != (b < 0))); } else { SignedMin(); }
  }

  lemma SignedMin()
    ensures Signed(Word(W63)) == -W63
  {
  }

  lemma MagnitudeWord(a: int)
    requires -W63 <= a < W63
    ensures NegateIf(Word(a), Ones(a < 0)) == Magnitude(a)
  {
    NegateIfValue(Word(a), a < 0);
  }

  lemma XorMasks()
    ensures Xor(0, 0) == 0 && Xor(W64 - 1, 0) == Xor(0, W64 - 1) == W64 - 1 && Xor(W64 - 1, W64 - 1) == 0
  {
    XorZero(W64 - 1);
    assert Pow2(64) == W64 by { Pow2Values(); }
    XorOnes(0, 64);
    XorOnes(W64 - 1, 64);
  }

  /** Giving the magnitudes' quotient and remainder their signs. */
  lemma QuotientSigns(a: int, b: int, uq: nat, ur: nat)
    requires -W63 <= a < W63 && -W63 <= b < W63 && b != 0
    requires IsDivision(Magnitude(a), Magnitude(b), uq, ur)
    ensures ur < Magnitude(b) && ur <= Magnitude(a)
    ensures a == WithSign(uq, (a < 0) != (b < 0)) * b + WithSign(ur, a < 0)
    ensures uq <= W63
    ensures uq == W63 ==> a == -W63 && (b == 1 || b == -1)
    ensures a == -W63 && b == -1 ==> uq == W63 && ur == 0
  {
    MulMono(1, Magnitude(b), uq);
    MulMono(0, uq, Magnitude(b));
    assert (0 - uq) * b == 0 - uq * b && uq * (0 - b) == 0 - uq * b;
    if Magnitude(b) >= 2 { MulMono(2, Magnitude(b), uq); }
  }
}

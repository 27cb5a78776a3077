/** Fixed-width unsigned words as natural numbers, with C's shifts and bitwise operators written out. */
module Words {
  const W32: nat := 0x1_0000_0000
  const W63: int := 0x8000_0000_0000_0000
  const W64: nat := 0x1_0000_0000_0000_0000
  const W127: nat := 0x8000_0000_0000_0000_0000_0000_0000_0000
  const W128: nat := 0x1_0000_0000_0000_0000_0000_0000_0000_0000

  function Pow2(n: nat): (p: nat)
    ensures p > 0
  {
    if n == 0 then 1 else 2 * Pow2(n - 1)
  }

  lemma Pow2Values()
    ensures Pow2(31) == 0x8000_0000 && Pow2(32) == W32
    ensures Pow2(63) == W63 && Pow2(64) == W64
    ensures Pow2(127) == W127 && Pow2(128) == W128
  {
    assert Pow2(16) == 0x1_0000;
    Pow2Add(15, 16); Pow2Add(16, 16); Pow2Add(31, 32); Pow2Add(32, 32);
    Pow2Add(63, 64); Pow2Add(64, 64);
    assert Pow2(15) == 0x8000;
  }

  lemma {:induction false} Pow2Add(a: nat, b: nat)
    ensures Pow2(a + b) == Pow2(a) * Pow2(b)
  {
    if a > 0 {
      Pow2Add(a - 1, b);
      assert Pow2(a + b) == 2 * Pow2(a - 1 + b);
    }
  }

  lemma {:induction false} Pow2Monotone(a: nat, b: nat)
    requires a <= b
    ensures Pow2(a) <= Pow2(b)
  {
    if a < b { Pow2Monotone(a, b - 1); }
  }

  /** Quotient and remainder are determined by the division equation. */
  lemma DivModUnique(n: int, d: int, q: int, r: int)
    requires n == q * d + r && 0 <= r < d
    ensures q == n / d && r == n % d
  {
    var q', r' := n / d, n % d;
    assert (q' - q) * d == r - r';
    if q < q' { MulMono(1, q' - q, d); }
    if q' < q { MulMono(1, q - q', d); }
  }

  /** q and r are the quotient and remainder of a by b. */
  ghost predicate IsDivision(a: nat, b: nat, q: nat, r: nat) {
    a == q * b + r && r < b
  }

  lemma MulMono(a: int, b: int, c: int)
    requires a <= b && 0 <= c
    ensures a * c <= b * c
  {
  }

  /** x << s in a word of w bits. */
  function Shl(x: nat, s: nat, w: nat): nat { (x * Pow2(s)) % Pow2(w) }

  /** x >> s. */
  function Shr(x: nat, s: nat): nat {
    DivNonNegative(x, Pow2(s));
    x / Pow2(s)
  }

  lemma DivNonNegative(x: nat, d: nat)
    requires d > 0
    ensures x / d >= 0
  {
    if x / d < 0 { MulMono(x / d, -1, d); }
  }

  function Or(x: nat, y: nat): nat
  {
    if x == 0 && y == 0 then 0
    else 2 * Or(x / 2, y / 2) + (if x % 2 == 1 || y % 2 == 1 then 1 else 0)
  }

  function And(x: nat, y: nat): nat
  {
    if x == 0 || y == 0 then 0
    else 2 * And(x / 2, y / 2) + (if x % 2 == 1 && y % 2 == 1 then 1 else 0)
  }

  function Xor(x: nat, y: nat): nat
  {
    if x == 0 && y == 0 then 0
    else 2 * Xor(x / 2, y / 2) + (if x % 2 != y % 2 then 1 else 0)
  }

  /** Numbers with no bit in common are combined by | as by +. */
  lemma {:induction false} OrIsAdd(h: nat, y: nat, s: nat)
    requires y < Pow2(s)
    ensures Or(h * Pow2(s), y) == h * Pow2(s) + y
  {
    var x := h * Pow2(s);
    if s == 0 {
      assert x == h && y == 0;
      OrZero(h);
    } else {
      var x' := h * Pow2(s - 1);
      assert x == 2 * x';
      OrIsAdd(h, y / 2, s - 1);
    }
  }

  lemma OrZero(x: nat)
    ensures Or(x, 0) == x
  {
  }

  /** Masking with 2^s - 1 keeps the low s bits. */
  lemma {:induction false} AndMask(x: nat, s: nat)
    ensures And(x, Pow2(s) - 1) == x % Pow2(s)
  {
    if s == 0 {
      assert x % 1 == 0;
    } else if x == 0 {
      assert 0 % Pow2(s) == 0;
    } else {
      var p := Pow2(s - 1);
      AndMask(x / 2, s - 1);
      ModDouble(x, p);
      AndStep(x, p);
    }
  }

  lemma AndStep(x: nat, p: nat)
    requires x > 0 && p > 0
    ensures And(x, 2 * p - 1) == 2 * And(x / 2, p - 1) + x % 2
  {
    var y := 2 * p - 1;
    assert y / 2 == p - 1 && y % 2 == 1;
  }

  lemma ModDouble(x: nat, p: nat)
    requires p > 0
    ensures x % (2 * p) == 2 * (x / 2 % p) + x % 2
  {
    var h := x / 2;
    assert h == h / p * p + h % p;
    assert x == (h / p) * (2 * p) + (2 * (h % p) + x % 2);
    DivModUnique(x, 2 * p, h / p, 2 * (h % p) + x % 2);
  }

  /** x & (x - 1) is zero exactly when at most one bit of x is set. */
  lemma {:induction false} AndPredZero(x: nat)
    requires x > 0 && And(x, x - 1) == 0
    ensures x == Pow2(Ctz(x))
  {
    if x % 2 == 0 {
      assert (x - 1) / 2 == x / 2 - 1;
      if x / 2 > 1 {
        AndPredZero(x / 2);
      }
    } else if x > 1 {
      assert And(x, x - 1) == 2 * And(x / 2, x / 2) by { assert (x - 1) / 2 == x / 2; }
      AndSelf(x / 2);
    }
  }

  lemma AndSelf(x: nat)
    ensures And(x, x) == x
  {
  }

  /** x ^ (2^w - 1) complements the w bits of x. */
  lemma {:induction false} XorOnes(x: nat, w: nat)
    requires x < Pow2(w)
    ensures Xor(x, Pow2(w) - 1) == Pow2(w) - 1 - x
  {
    if w > 0 {
      var p := Pow2(w - 1);
      assert (2 * p - 1) / 2 == p - 1;
      XorOnes(x / 2, w - 1);
    }
  }

  lemma XorZero(x: nat)
    ensures Xor(x, 0) == x
  {
  }

  /** The top bit of the w-bit word x is below n zeros. */
  ghost predicate TopBitAt(x: nat, w: nat, n: nat) {
    x * Pow2(n) < Pow2(w) <= 2 * (x * Pow2(n))
  }

  /** Number of leading zero bits of a nonzero w-bit word. */
  function Clz(x: nat, w: nat): (n: nat)
    requires 0 < x < Pow2(w)
    ensures TopBitAt(x, w, n)
    ensures n < w
    decreases Pow2(w) - x
  {
    if Pow2(w) <= 2 * x then 0
    else
      var m := Clz(2 * x, w);
      assert 2 * x * Pow2(m) == x * Pow2(m + 1);
      assert m + 1 < w by {
        if m + 1 >= w { Pow2Monotone(w, m + 1); MulMono(1, x, Pow2(m + 1)); }
      }
      m + 1
  }

  /** Number of trailing zero bits of a nonzero word. */
  function Ctz(x: nat): nat
    requires x > 0
  {
    if x % 2 == 1 then 0 else 1 + Ctz(x / 2)
  }
}

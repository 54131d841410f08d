/** The `u64` bit operators the replay bitmap uses, on words held as numbers. */
module Bits {
  import opened Words

  predicate Bit(x: nat, i: nat) {
    if i == 0 then x % 2 == 1 else Bit(x / 2, i - 1)
  }

  /** `2^n`. */
  function Pow2(n: nat): (p: nat)
    ensures p >= 1
  {
    if n == 0 then 1 else 2 * Pow2(n - 1)
  }

  /** Bitwise or. */
  function Or(a: nat, b: nat): (r: nat) {
    if a == 0 && b == 0 then 0
    else 2 * Or(a / 2, b / 2) + (if a % 2 == 1 || b % 2 == 1 then 1 else 0)
  }

  /** Bitwise and. */
  function And(a: nat, b: nat): (r: nat)
    decreases a
  {
    if a == 0 || b == 0 then 0
    else 2 * And(a / 2, b / 2) + (if a % 2 == 1 && b % 2 == 1 then 1 else 0)
  }

  /** Shift left by one place in a 64-bit word: the top bit falls off. */
  function Shl1(x: u64): (r: u64) { (2 * x) % (U64_MAX + 1) }

  /** `x << s` in a 64-bit word. */
  function Shl(x: u64, s: nat): (r: u64)
    decreases s
  {
    if s == 0 then x else Shl(Shl1(x), s - 1)
  }

  lemma {:induction false} BitOfZero(i: nat)
    ensures !Bit(0, i)
  {
    if i > 0 { BitOfZero(i - 1); }
  }

  /** The lowest bit of a union, and the rest of it. */
  lemma OrHalves(a: nat, b: nat)
    ensures Or(a, b) % 2 == 1 <==> a % 2 == 1 || b % 2 == 1
    ensures Or(a, b) / 2 == Or(a / 2, b / 2)
  {
  }

  lemma {:induction false} OrBit(a: nat, b: nat, i: nat)
    ensures Bit(Or(a, b), i) <==> Bit(a, i) || Bit(b, i)
    decreases i
  {
    OrHalves(a, b);
    if i > 0 {
      OrBit(a / 2, b / 2, i - 1);
    }
  }

  /** `x & (1 << i) != 0` asks exactly for bit `i`. */
  lemma {:induction false} AndMask(x: nat, i: nat)
    ensures And(x, Pow2(i)) != 0 <==> Bit(x, i)
    decreases i
  {
    if x == 0 {
      BitOfZero(i);
    } else if i > 0 {
      AndMask(x / 2, i - 1);
    } else {
      assert And(x / 2, 0) == 0;
    }
  }

  lemma {:induction false} OrBound(a: nat, b: nat, n: nat)
    requires a < Pow2(n) && b < Pow2(n)
    ensures Or(a, b) < Pow2(n)
    decreases n
  {
    if !(a == 0 && b == 0) {
      OrBound(a / 2, b / 2, n - 1);
    }
  }

  lemma {:induction false} Pow2Bit(n: nat, i: nat)
    ensures Bit(Pow2(n), i) <==> i == n
    decreases n
  {
    if n == 0 {
      if i > 0 { BitOfZero(i - 1); }
    } else if i > 0 {
      Pow2Bit(n - 1, i - 1);
    }
  }

  lemma HalfOfModulus(x: nat, m: nat)
    requires m >= 1
    ensures x % (2 * m) == 2 * (x / 2 % m) + x % 2
  {
    var q, r := x / 2, x % 2;
    var k, t := q / m, q % m;
    assert q == k * m + t;
    assert x == k * (2 * m) + (2 * t + r);
    QuotientIs(x, 2 * m, k, 2 * t + r);
  }

  /** Reducing modulo `2^n` keeps the low `n` bits. */
  lemma {:induction false} ModBit(x: nat, n: nat, i: nat)
    requires i < n
    ensures Bit(x % Pow2(n), i) == Bit(x, i)
    decreases n
  {
    var low := x / 2 % Pow2(n - 1);
    HalfOfModulus(x, Pow2(n - 1));
    assert x % Pow2(n) == 2 * low + x % 2;
    BitOfPair(low, x % 2, i);
    if i > 0 { ModBit(x / 2, n - 1, i - 1); }
  }

  lemma BitOfPair(high: nat, low: nat, i: nat)
    requires low < 2
    ensures Bit(2 * high + low, i) <==> if i == 0 then low == 1 else Bit(high, i - 1)
  {
    assert (2 * high + low) / 2 == high && (2 * high + low) % 2 == low;
  }

  lemma Pow16()
    ensures Pow2(16) == 0x1_0000
  {
    assert Pow2(4) == 16;
    Pow2Sum(4, 4);
    Pow2Sum(8, 8);
  }

  lemma Pow32()
    ensures Pow2(32) == 0x1_0000_0000
  {
    Pow16();
    Pow2Sum(16, 16);
  }

  lemma Pow64()
    ensures Pow2(64) == U64_MAX + 1
  {
    Pow32();
    Pow2Sum(32, 32);
  }

  lemma {:induction false} Pow2Sum(a: nat, b: nat)
    ensures Pow2(a + b) == Pow2(a) * Pow2(b)
    decreases a
  {
    if a > 0 {
      Pow2Sum(a - 1, b);
      assert Pow2(a + b) == 2 * Pow2(a - 1 + b);
    }
  }

  lemma {:induction false} Pow2Monotone(a: nat, b: nat)
    requires a <= b
    ensures Pow2(a) <= Pow2(b)
    decreases b - a
  {
    if a < b { Pow2Monotone(a + 1, b); }
  }

  /** `1 << n` for a shift below 64. */
  function Mask(n: nat): (r: u64)
    requires n < 64
  {
    Pow64();
    Pow2Monotone(n, 63);
    Pow2(n)
  }

  function Or64(a: u64, b: u64): (r: u64) {
    Pow64();
    OrBound(a, b, 64);
    Or(a, b)
  }

  /** What a shift does to each bit of the word. */
  lemma {:induction false} ShlBit(x: u64, s: nat, i: nat)
    requires i < 64
    ensures Bit(Shl(x, s), i) <==> i >= s && Bit(x, i - s)
    decreases s
  {
    if s > 0 {
      ShlBit(Shl1(x), s - 1, i);
      if i >= s - 1 {
        Pow64();
        ModBit(2 * x, 64, i - (s - 1));
      }
    }
  }
}

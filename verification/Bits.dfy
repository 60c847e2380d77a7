/** Bit operations on natural numbers, as JavaScript performs them on unsigned 32-bit patterns. */
module Bits {
  type Byte = b: nat | b < 256

  function Pow2(n: nat): (p: nat)
    ensures p >= 1
  {
    if n == 0 then 1 else 2 * Pow2(n - 1)
  }

  /** x with n zero bits after it. */
  function Doubled(x: nat, n: nat): nat {
    if n == 0 then x else 2 * Doubled(x, n - 1)
  }

  lemma {:induction false} DoubledTimes(x: nat, n: nat)
    ensures Doubled(x, n) == Pow2(n) * x
  {
    if n > 0 {
      DoubledTimes(x, n - 1);
      assert Pow2(n) * x == 2 * (Pow2(n - 1) * x);
    }
  }

  const WORD: nat := 0x1_0000_0000

  /** The number whose digits in some base are given, the most significant one first. */
  function BaseValue(digits: seq<nat>, base: nat): nat {
    if digits == [] then 0 else base * BaseValue(digits[..|digits| - 1], base) + digits[|digits| - 1]
  }

  lemma LowDigit(x: nat, d: nat, y: nat, e: nat, base: nat)
    requires d < base && e < base && base * x + d == base * y + e
    ensures x == y && d == e
  {
    ModUnique(base * x + d, base, x, d);
    ModUnique(base * x + d, base, y, e);
  }

  /** Digits of the same number are the same, given how many there are. */
  lemma {:induction false} SameDigits(a: seq<nat>, b: seq<nat>, base: nat)
    requires |a| == |b| && BaseValue(a, base) == BaseValue(b, base)
    requires forall i :: 0 <= i < |a| ==> a[i] < base && b[i] < base
    ensures a == b
  {
    if a != [] {
      var m := |a| - 1;
      LowDigit(BaseValue(a[..m], base), a[m], BaseValue(b[..m], base), b[m], base);
      SameDigits(a[..m], b[..m], base);
      assert a == a[..m] + [a[m]] && b == b[..m] + [b[m]];
    }
  }

  function And(a: nat, b: nat): nat {
    if a == 0 || b == 0 then 0 else 2 * And(a / 2, b / 2) + (if a % 2 == 1 && b % 2 == 1 then 1 else 0)
  }

  function Or(a: nat, b: nat): nat
    decreases a + b
  {
    if a == 0 then b
    else if b == 0 then a
    else 2 * Or(a / 2, b / 2) + (if a % 2 == 1 || b % 2 == 1 then 1 else 0)
  }

  /** `a << n` keeps 32 bits and uses the low five bits of n. */
  function Shl(a: nat, n: nat): (r: nat)
    ensures r < WORD
  {
    a * Pow2(n % 32) % WORD
  }

  lemma Pow2Values()
    ensures Pow2(4) == 16 && Pow2(5) == 32 && Pow2(7) == 128 && Pow2(8) == 256
    ensures Pow2(16) == 0x1_0000 && Pow2(24) == 0x100_0000 && Pow2(31) == 0x8000_0000 && Pow2(32) == WORD
  {
    Pow2Sum(8, 8);
    Pow2Sum(16, 8);
    Pow2Sum(24, 7);
    Pow2Sum(16, 16);
    assert Pow2(4) == 2 * 2 * Pow2(2);
    assert Pow2(7) == 2 * 2 * 2 * Pow2(4);
  }

  lemma {:induction false} Pow2Sum(m: nat, n: nat)
    ensures Pow2(m + n) == Pow2(m) * Pow2(n)
  {
    if n > 0 {
      Pow2Sum(m, n - 1);
      assert Pow2(m + n) == 2 * (Pow2(m) * Pow2(n - 1)) == Pow2(m) * (2 * Pow2(n - 1));
    }
  }

  lemma HalfMod(a: nat, p: nat)
    requires p >= 1
    ensures a % (2 * p) == 2 * (a / 2 % p) + a % 2
  {
    var q, r := a / 2 / p, a / 2 % p;
    assert a / 2 == q * p + r;
    assert a == 2 * (q * p + r) + a % 2;
    assert a == (2 * p) * q + (2 * r + a % 2);
    ModUnique(a, 2 * p, q, 2 * r + a % 2);
  }

  lemma ModUnique(a: int, m: nat, q: int, r: nat)
    requires r < m && a == m * q + r
    ensures a % m == r && a / m == q
  {
    var d := a / m - q;
    assert a == m * (a / m) + a % m;
    assert m * d == r - a % m;
    MulFar(m, d);
  }

  lemma RemainderBelow(a: nat, p: nat)
    requires p >= 1
    ensures a % p <= a
  {
    if a < p { SmallMod(a, p); }
  }

  lemma MulFar(m: int, d: int)
    requires m >= 0
    ensures (d >= 1 ==> m * d >= m) && (d <= -1 ==> m * d <= -m)
  {
  }

  lemma SmallMod(x: nat, m: nat)
    requires x < m
    ensures x % m == x
  {
  }

  lemma AndHalves(a: nat, b: nat)
    ensures And(a, b) == 2 * And(a / 2, b / 2) + (if a % 2 == 1 && b % 2 == 1 then 1 else 0)
  {
  }

  lemma OrHalves(a: nat, b: nat)
    ensures Or(a, b) == 2 * Or(a / 2, b / 2) + (if a % 2 == 1 || b % 2 == 1 then 1 else 0)
  {
  }

  /** Masking with k ones is reduction modulo 2^k. */
  lemma {:induction false} AndLowMask(a: nat, k: nat)
    ensures And(a, Pow2(k) - 1) == a % Pow2(k)
  {
    if k > 0 {
      var p := Pow2(k - 1);
      AndHalves(a, 2 * p - 1);
      AndLowMask(a / 2, k - 1);
      HalfMod(a, p);
    }
  }

  lemma {:induction false} OrDoubled(high: nat, low: nat, k: nat)
    requires low < Pow2(k)
    ensures Or(Doubled(high, k), low) == Doubled(high, k) + low
  {
    if k > 0 {
      OrHalves(Doubled(high, k), low);
      OrDoubled(high, low / 2, k - 1);
    }
  }

  /** A number shifted past another one is joined to it by `|` as by addition. */
  lemma OrDisjoint(high: nat, low: nat, k: nat)
    requires low < Pow2(k)
    ensures Or(high * Pow2(k), low) == high * Pow2(k) + low
  {
    DoubledTimes(high, k);
    OrDoubled(high, low, k);
  }

  /** Masking with m ones above k zeros clears the k low bits of a number of k + m bits. */
  lemma {:induction false} AndHighMask(a: nat, k: nat, m: nat, mask: nat)
    requires a < Pow2(k + m) && mask == Pow2(k + m) - Pow2(k)
    ensures And(a, mask) == a - a % Pow2(k)
    decreases k
  {
    if k == 0 {
      AndLowMask(a, m);
      SmallMod(a, Pow2(m));
    } else {
      AndHalves(a, mask);
      AndHighMask(a / 2, k - 1, m, mask / 2);
      HalfMod(a, Pow2(k - 1));
    }
  }

  lemma {:induction false} Pow2Monotone(m: nat, n: nat)
    requires m <= n
    ensures Pow2(m) <= Pow2(n)
  {
    if m < n { Pow2Monotone(m, n - 1); }
  }

  lemma ShlExact(a: nat, n: nat)
    requires n < 32 && a * Pow2(n) < WORD
    ensures Shl(a, n) == a * Pow2(n)
  {
    SmallMod(n, 32);
    SmallMod(a * Pow2(n), WORD);
  }

  /** Four bytes shifted into place and joined by `|` are a big-endian number. */
  lemma JoinBytes(a: nat, b: nat, c: nat, d: nat)
    requires a < 256 && b < 256 && c < 256 && d < 256
    ensures Or(Or(Or(Shl(a, 24), Shl(b, 16)), Shl(c, 8)), d) == a * 0x100_0000 + b * 0x1_0000 + c * 0x100 + d
  {
    Pow2Values();
    ShlExact(a, 24);
    ShlExact(b, 16);
    ShlExact(c, 8);
    OrDisjoint(a, b * 0x1_0000, 24);
    OrDisjoint(a * 0x100 + b, c * 0x100, 16);
    OrDisjoint(a * 0x1_0000 + b * 0x100 + c, d, 8);
  }
}

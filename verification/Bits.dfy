/**
 The unsigned 64-bit arithmetic that the prefix decoder relies on: shifts that drop bits above
 bit 63 and a bitwise or, both on mathematical naturals, with the facts that make
 "or in the next digit" the same as "add the next digit".
 */
module Bits {

  type Byte = x: int | 0 <= x < 256

  /** 2^64, one more than the largest std::uintmax_t. */
  const TWO_64: nat := 0x1_0000_0000_0000_0000

  function Pow(base: nat, exponent: nat): (p: nat)
    requires 0 < base
    ensures 0 < p
  {
    if exponent == 0 then 1 else base * Pow(base, exponent - 1)
  }

  function Zeros(n: nat): (z: seq<Byte>)
    ensures |z| == n
  {
    seq(n, i => 0)
  }

  function BitOr(a: nat, b: nat): nat
    decreases a + b
  {
    if a == 0 && b == 0 then 0
    else (if a % 2 == 1 || b % 2 == 1 then 1 else 0) + 2 * BitOr(a / 2, b / 2)
  }

  /** x << k in 64 bits: bits shifted past bit 63 are lost. */
  function ShiftLeft(x: nat, k: nat): nat {
    x * Pow(2, k) % TWO_64
  }

  lemma {:induction false} OrZero(b: nat)
    ensures BitOr(0, b) == b
  {
    if b > 0 { OrZero(b / 2); }
  }

  /** An or of numbers with no common bit is their sum. */
  lemma {:induction false} OrDisjoint(a: nat, b: nat, k: nat)
    requires a < Pow(2, k)
    ensures BitOr(a, b * Pow(2, k)) == a + b * Pow(2, k)
  {
    if k == 0 {
      OrZero(b);
    } else {
      var half := b * Pow(2, k - 1);
      assert b * Pow(2, k) == 2 * half;
      OrDisjoint(a / 2, b, k - 1);
    }
  }

  /** Or-ing in a value shifted past every bit of acc adds it, if nothing is shifted out of 64 bits. */
  lemma OrShifted(acc: nat, x: nat, k: nat)
    requires acc < Pow(2, k) && x * Pow(2, k) < TWO_64
    ensures BitOr(acc, ShiftLeft(x, k)) == acc + x * Pow(2, k)
  {
    var y := x * Pow(2, k);
    Unwrapped(y);
    assert ShiftLeft(x, k) == y;
    OrDisjoint(acc, x, k);
  }

  lemma Unwrapped(y: nat)
    requires y < TWO_64
    ensures y % TWO_64 == y
  {
  }

  lemma {:induction false} PowAdd(base: nat, m: nat, n: nat)
    requires 0 < base
    ensures Pow(base, m + n) == Pow(base, m) * Pow(base, n)
  {
    if m > 0 { PowAdd(base, m - 1, n); }
  }

  lemma {:induction false} PowMonotone(base: nat, m: nat, n: nat)
    requires 0 < base && m <= n
    ensures Pow(base, m) <= Pow(base, n)
  {
    if m < n {
      PowMonotone(base, m, n - 1);
      assert Pow(base, n) == base * Pow(base, n - 1);
    }
  }

  lemma {:induction false} PowOfPow(width: nat, n: nat)
    ensures Pow(2, width * n) == Pow(Pow(2, width), n)
  {
    if n > 0 {
      PowOfPow(width, n - 1);
      PowAdd(2, width, width * (n - 1));
      assert width * n == width + width * (n - 1);
    }
  }
}

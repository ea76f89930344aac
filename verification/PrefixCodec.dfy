/**
 The length prefix of protocol::prefix_*: the shift-and-or loops that decode it, the positional
 sum they compute, and the encoders they undo.
 */
module PrefixCodec {
  import opened Bits

  // ---- positional notation, least significant digit first ----

  function Sum(digits: seq<nat>, base: nat): nat
  {
    if digits == [] then 0 else digits[0] + base * Sum(digits[1..], base)
  }

  ghost predicate Digits(digits: seq<nat>, base: nat) {
    forall i :: 0 <= i < |digits| ==> digits[i] < base
  }

  lemma {:induction false} SumAppend(a: seq<nat>, d: nat, base: nat)
    requires 0 < base
    ensures Sum(a + [d], base) == Sum(a, base) + d * Pow(base, |a|)
  {
    if a == [] {
      assert Sum([d], base) == d + base * Sum([], base);
    } else {
      assert (a + [d])[1..] == a[1..] + [d];
      SumAppend(a[1..], d, base);
      Regroup(a[0], Sum(a[1..], base), d, Pow(base, |a| - 1), base);
    }
  }

  lemma Regroup(first: nat, rest: nat, d: nat, power: nat, base: nat)
    ensures first + base * (rest + d * power) == first + base * rest + d * (base * power)
  {
  }

  lemma DigitBelow(d: nat, rest: nat, bound: nat, base: nat)
    requires d < base && rest < bound
    ensures d + base * rest < base * bound
  {
    assert base * (rest + 1) <= base * bound;
  }

  lemma {:induction false} SumBound(digits: seq<nat>, base: nat)
    requires 0 < base && Digits(digits, base)
    ensures Sum(digits, base) < Pow(base, |digits|)
  {
    if digits != [] {
      SumBound(digits[1..], base);
      DigitBelow(digits[0], Sum(digits[1..], base), Pow(base, |digits| - 1), base);
    }
  }

  lemma {:induction false} SumPadded(digits: seq<nat>, zeros: seq<nat>, base: nat)
    requires forall i :: 0 <= i < |zeros| ==> zeros[i] == 0
    ensures Sum(digits + zeros, base) == Sum(digits, base)
  {
    if digits != [] {
      assert (digits + zeros)[1..] == digits[1..] + zeros;
      SumPadded(digits[1..], zeros, base);
    } else if zeros != [] {
      assert digits + zeros == zeros;
      SumPadded([], zeros[1..], base);
      assert [] + zeros[1..] == zeros[1..];
    }
  }

  // ---- what a prefix means ----

  function Reverse<T>(s: seq<T>): (r: seq<T>)
    ensures |r| == |s|
    ensures forall i :: 0 <= i < |s| ==> r[i] == s[|s| - 1 - i]
  {
    seq(|s|, i requires 0 <= i < |s| => s[|s| - 1 - i])
  }

  /** The digits of a prefix, least significant first. A varint digit is the low 7 bits. */
  function DigitsOf(p: seq<Byte>, isVar: bool, little: bool): (d: seq<nat>)
    ensures |d| == |p|
  {
    var ordered := if little then p else Reverse(p);
    seq(|p|, i requires 0 <= i < |p| => if isVar then ordered[i] % 128 else ordered[i])
  }

  function Base(isVar: bool): nat { if isVar then 128 else 256 }

  /** The number a prefix stands for: base 128 for a varint, base 256 otherwise. */
  function Value(p: seq<Byte>, isVar: bool, little: bool): nat {
    Sum(DigitsOf(p, isVar, little), Base(isVar))
  }

  lemma {:induction false} ValueBound(p: seq<Byte>, isVar: bool, little: bool)
    ensures Value(p, isVar, little) < Pow(Base(isVar), |p|)
  {
    SumBound(DigitsOf(p, isVar, little), Base(isVar));
  }

  /** A prefix of the lengths read_prefix accepts fits into 64 bits. */
  lemma ValueFits(p: seq<Byte>, isVar: bool, little: bool)
    requires |p| <= if isVar then 9 else 8
    ensures Value(p, isVar, little) < TWO_64
  {
    ValueBound(p, isVar, little);
    PowMonotone(Base(isVar), |p|, if isVar then 9 else 8);
    LargestPower(isVar);
  }

  lemma Pow256()
    ensures Pow(256, 8) == TWO_64
  {
    assert Pow(256, 4) == 0x1_0000_0000;
    PowAdd(256, 4, 4);
  }

  lemma Pow128()
    ensures Pow(128, 9) == 0x8000_0000_0000_0000
  {
    assert Pow(128, 4) == 0x1000_0000;
    PowAdd(128, 4, 4);
    assert Pow(128, 9) == 128 * Pow(128, 8);
  }

  /**
   The decoding loops of read_prefix: one digit a turn is shifted to its place and or-ed in,
   walking the bytes upwards for little endian and downwards for big endian.
   */
  method Decode(p: seq<Byte>, isVar: bool, little: bool) returns (size: nat)
    requires |p| <= if isVar then 9 else 8
    ensures size == Value(p, isVar, little)
    ensures size < TWO_64
  {
    size := 0;
    var width := if isVar then 7 else 8;
    ghost var digits, base := DigitsOf(p, isVar, little), Base(isVar);
    for i := 0 to |p|
      invariant size == Sum(digits[..i], base)
    {
      var b := if little then p[i] else p[|p| - 1 - i];
      var digit := if isVar then b % 128 else b;
      assert digit == digits[i];
      OrNextDigit(digits, isVar, i);
      size := BitOr(size, ShiftLeft(digit, width * i));
    }
    assert digits[..|p|] == digits;
    ValueFits(p, isVar, little);
  }

  /** One turn of the loop: no bit is lost by the shift and none is shared by the or. */
  lemma OrNextDigit(digits: seq<nat>, isVar: bool, i: nat)
    requires |digits| <= (if isVar then 9 else 8) && i < |digits|
    requires Digits(digits, Base(isVar))
    ensures BitOr(Sum(digits[..i], Base(isVar)), ShiftLeft(digits[i], (if isVar then 7 else 8) * i))
         == Sum(digits[..i + 1], Base(isVar))
  {
    PlaceOfDigit(isVar, i);
    NextDigitFits(digits, isVar, i);
    SumBound(digits[..i], Base(isVar));
    OrShifted(Sum(digits[..i], Base(isVar)), digits[i], (if isVar then 7 else 8) * i);
  }

  lemma NextDigitFits(digits: seq<nat>, isVar: bool, i: nat)
    requires |digits| <= (if isVar then 9 else 8) && i < |digits|
    requires Digits(digits, Base(isVar))
    ensures Sum(digits[..i + 1], Base(isVar)) == Sum(digits[..i], Base(isVar)) + digits[i] * Pow(Base(isVar), i)
    ensures digits[i] * Pow(Base(isVar), i) < TWO_64
  {
    var base, len := Base(isVar), if isVar then 9 else 8;
    assert digits[..i + 1] == digits[..i] + [digits[i]];
    SumAppend(digits[..i], digits[i], base);
    SumBound(digits[..i + 1], base);
    PowMonotone(base, i + 1, len);
    LargestPower(isVar);
  }

  lemma LargestPower(isVar: bool)
    ensures Pow(Base(isVar), if isVar then 9 else 8) <= TWO_64
  {
    if isVar { Pow128(); } else { Pow256(); }
  }

  /** A shift by 7 * i or 8 * i bits is a multiplication by the i-th power of the base. */
  lemma PlaceOfDigit(isVar: bool, i: nat)
    ensures Pow(2, (if isVar then 7 else 8) * i) == Pow(Base(isVar), i)
  {
    assert Pow(2, 4) == 16;
    PowAdd(2, 4, 3);
    PowAdd(2, 4, 4);
    PowOfPow(if isVar then 7 else 8, i);
  }

  // ---- the scan for the end of a varint ----

  predicate Continues(b: Byte) { b >= 128 }

  /** Length of the varint at the front of s, or |s| + 1 when no byte has its top bit clear. */
  function VarLength(s: seq<Byte>): (n: nat)
    ensures 1 <= n <= |s| + 1
    ensures forall i :: 0 <= i < n - 1 ==> Continues(s[i])
    ensures n <= |s| ==> !Continues(s[n - 1])
  {
    if s == [] then 1
    else if !Continues(s[0]) then 1
    else 1 + VarLength(s[1..])
  }

  /** The first byte with a clear top bit is the only place a varint can end. */
  lemma {:induction false} VarLengthUnique(s: seq<Byte>, n: nat)
    requires 1 <= n <= |s| && !Continues(s[n - 1])
    requires forall i :: 0 <= i < n - 1 ==> Continues(s[i])
    ensures VarLength(s) == n
  {
    if n > 1 { VarLengthUnique(s[1..], n - 1); }
  }

  /** More input never moves the end of a varint, nor brings it into the part already seen. */
  lemma {:induction false} VarLengthExtend(s: seq<Byte>, t: seq<Byte>)
    ensures VarLength(s) <= |s| ==> VarLength(s + t) == VarLength(s)
    ensures VarLength(s) > |s| ==> VarLength(s + t) > |s|
  {
    if s == [] {
      assert s + t == t;
    } else {
      assert (s + t)[1..] == s[1..] + t;
      VarLengthExtend(s[1..], t);
    }
  }

  // ---- encoders and round trips ----

  /** The low len digits of value, least significant first. */
  function Low(value: nat, isVar: bool, len: nat): (d: seq<nat>)
    ensures |d| == len
    ensures Digits(d, Base(isVar))
  {
    if len == 0 then []
    else if isVar then [value % 128] + Low(value / 128, isVar, len - 1)
    else [value % 256] + Low(value / 256, isVar, len - 1)
  }

  lemma {:induction false} SumLow(value: nat, isVar: bool, len: nat)
    requires value < Pow(Base(isVar), len)
    ensures Sum(Low(value, isVar, len), Base(isVar)) == value
  {
    if len > 0 {
      var rest := if isVar then value / 128 else value / 256;
      SumLow(rest, isVar, len - 1);
      assert Low(value, isVar, len)[1..] == Low(rest, isVar, len - 1);
    }
  }

  /** A fixed-width prefix of len bytes. */
  function EncodeFixed(value: nat, len: nat, little: bool): (p: seq<Byte>)
    ensures |p| == len
  {
    var d := Low(value, false, len);
    var bytes := seq(len, i requires 0 <= i < len => d[i] as Byte);
    if little then bytes else Reverse(bytes)
  }

  lemma FixedRoundTrip(value: nat, len: nat, little: bool)
    requires value < Pow(256, len)
    ensures Value(EncodeFixed(value, len, little), false, little) == value
  {
    SumLow(value, false, len);
    assert DigitsOf(EncodeFixed(value, len, little), false, little) == Low(value, false, len);
  }

  function VarDigits(value: nat): (n: nat)
    ensures 1 <= n
    ensures value < Pow(128, n)
  {
    if value < 128 then 1 else 1 + VarDigits(value / 128)
  }

  /**
   A varint of n groups of 7 bits; every byte but the last sent has its top bit set. Little endian
   sends the least significant group first (the Protocol Buffers form), big endian the most
   significant. n may exceed what the value needs.
   */
  function EncodeVar(value: nat, n: nat, little: bool): (p: seq<Byte>)
    requires 1 <= n
    ensures |p| == n
  {
    var d := if little then Low(value, true, n) else Reverse(Low(value, true, n));
    seq(n, i requires 0 <= i < n => (if i < n - 1 then d[i] + 128 else d[i]) as Byte)
  }

  /** A value below 2^63 needs at most nine groups, the most read_prefix accepts. */
  lemma {:induction false} VarDigitsBound(value: nat, n: nat)
    requires 1 <= n && value < Pow(128, n)
    ensures VarDigits(value) <= n
  {
    if value >= 128 {
      assert Pow(128, n) == 128 * Pow(128, n - 1);
      assert Pow(128, 0) == 1;
      VarDigitsBound(value / 128, n - 1);
    }
  }

  /** Minimal or padded, a varint decodes to its value and ends exactly at its last byte. */
  lemma VarRoundTrip(value: nat, n: nat, little: bool, rest: seq<Byte>)
    requires VarDigits(value) <= n
    ensures VarLength(EncodeVar(value, n, little) + rest) == n
    ensures Value(EncodeVar(value, n, little), true, little) == value
  {
    var p := EncodeVar(value, n, little);
    VarLengthUnique(p + rest, n);
    PowMonotone(128, VarDigits(value), n);
    SumLow(value, true, n);
    VarDigitsSurvive(value, n, little);
  }

  lemma VarDigitsSurvive(value: nat, n: nat, little: bool)
    requires 1 <= n
    ensures DigitsOf(EncodeVar(value, n, little), true, little) == Low(value, true, n)
  {
    hide DigitsOf, EncodeVar, Low;
    forall i | 0 <= i < n ensures DigitsOf(EncodeVar(value, n, little), true, little)[i] == Low(value, true, n)[i] {
      VarDigitSurvives(value, n, little, i);
    }
  }

  lemma VarDigitSurvives(value: nat, n: nat, little: bool, i: nat)
    requires i < n
    ensures DigitsOf(EncodeVar(value, n, little), true, little)[i] == Low(value, true, n)[i]
  {
    hide Low;
    var p, low := EncodeVar(value, n, little), Low(value, true, n);
    var sent, j := if little then low else Reverse(low), if little then i else n - 1 - i;
    assert sent[j] == low[i] && p[j] == if j < n - 1 then sent[j] + 128 else sent[j];
    FlagDropped(low[i]);
  }

  lemma FlagDropped(x: nat)
    requires x < 128
    ensures x % 128 == x && (x + 128) % 128 == x
  {
  }

  /** Every value below 2^63 has a varint of at most nine bytes, so it can be received. */
  lemma VarReachesEveryValue(value: nat, little: bool)
    requires value < 0x8000_0000_0000_0000
    ensures VarDigits(value) <= 9
    ensures Value(EncodeVar(value, VarDigits(value), little), true, little) == value
  {
    Pow128();
    VarDigitsBound(value, 9);
    VarRoundTrip(value, VarDigits(value), little, []);
  }

  /** The Protocol Buffers recipe: low 7 bits first, top bit set while more groups follow. */
  function ProtocolBuffersVarint(value: nat): seq<Byte> {
    if value < 128 then [value] else [value % 128 + 128] + ProtocolBuffersVarint(value / 128)
  }

  lemma {:induction false} LittleEndianIsProtocolBuffers(value: nat)
    ensures EncodeVar(value, VarDigits(value), true) == ProtocolBuffersVarint(value)
  {
    hide EncodeVar;
    if value < 128 {
      OneGroup(value);
    } else {
      LittleEndianIsProtocolBuffers(value / 128);
      FirstGroup(value, VarDigits(value));
    }
  }

  lemma OneGroup(value: nat)
    requires value < 128
    ensures EncodeVar(value, 1, true) == [value]
  {
    assert Low(value, true, 1)[0] == value % 128;
  }

  lemma FirstGroup(value: nat, n: nat)
    requires n > 1
    ensures EncodeVar(value, n, true) == [value % 128 + 128] + EncodeVar(value / 128, n - 1, true)
  {
    var low, rest := Low(value, true, n), Low(value / 128, true, n - 1);
    assert low == [value % 128] + rest;
    hide Low;
    forall i | 0 < i < n ensures EncodeVar(value, n, true)[i] == EncodeVar(value / 128, n - 1, true)[i - 1] {
      assert low[i] == rest[i - 1];
    }
  }
}

/**
 The framing protocols as they look on the wire, byte by byte: which bytes make a frame, what of it is
 handed over, and what is left behind it.
 */
module Formats {
  import opened Bits
  import opened Framing
  import opened Wrappers
  import opened Messages
  import PrefixCodec
  import ReadTheorems
  import SessionRead

  /** The first frame of s hands over segment, and the next one begins with what is behind. */
  predicate Cuts(c: Config, s: seq<Byte>, segment: seq<Byte>, behind: seq<Byte>) {
    var cut := CutOf(c, s);
    cut.Frame? && s[cut.skip..cut.size] == segment && s[cut.size + cut.trailer..] == behind
  }

  /** What a session does with such a stream: its first call hands over just that. */
  lemma FirstCall(s: SessionRead.State, segment: seq<Byte>, behind: seq<Byte>)
    requires s.Valid() && ReadTheorems.Quiescent(s) && !s.failure.Cancelled?
    requires Cuts(s.start, s.received, segment, behind)
    ensures s.calls != [] && s.calls[0].segment == segment
  {
    hide SessionRead.State.Valid, CutOf;
    ReadTheorems.Faithful(s);
    var first, cut := Point([], s.start, []), CutOf(s.start, s.received);
    var next := Advance(s.handler, first, s.received, cut);
    assert next.calls <= Frames(s.handler, first, s.received).point.calls;
    assert next.calls[0] == CallFor(first, s.received, cut);
  }

  // ---- length prefixes ----

  /** The payload a prefix of n bytes announces with a number, if that counts the prefix, or does not. */
  predicate Announces(o: Options, n: nat, number: nat, payload: seq<Byte>) {
    number == |payload| + if o.inclusivePrefix then n else 0
  }

  /** A frame is the prefix and its payload; the prefix is left out if protocol bytes are ignored. */
  predicate CutsPrefixed(c: Config, header: seq<Byte>, payload: seq<Byte>, rest: seq<Byte>) {
    Cuts(c, header + payload + rest, if c.options.ignoreProtocolBytes then payload else header + payload, rest)
  }

  lemma PrefixedFrame(c: Config, header: seq<Byte>, payload: seq<Byte>, rest: seq<Byte>)
    requires IsPrefix(c.protocol) && HeaderLength(c, header + payload + rest) == |header|
    requires |header| <= if c.protocol.PrefixVar? then 9 else 8
    requires Announces(c.options, |header|,
               PrefixCodec.Value(header, c.protocol.PrefixVar?, c.options.littleEndian), payload)
    requires |header| + |payload| <= c.limit
    ensures CutsPrefixed(c, header, payload, rest)
  {
    hide PrefixCodec.Value, PrefixCodec.VarLength;
    var s, n := header + payload + rest, |header|;
    assert s[..n] == header;
    assert HeaderOf(c, s) == Complete(n, |payload|);
    assert s[n..n + |payload|] == payload && s[0..n + |payload|] == header + payload;
    assert s[n + |payload| + 0..] == rest;
  }

  lemma ValueOfDigits(p: seq<Byte>, little: bool, isVar: bool, digits: seq<nat>)
    requires |digits| == |p|
    requires forall i :: 0 <= i < |p| ==>
      digits[if little then i else |p| - 1 - i] == if isVar then p[i] % 128 else p[i]
    ensures PrefixCodec.Value(p, isVar, little) == PrefixCodec.Sum(digits, PrefixCodec.Base(isVar))
  {
    var d := PrefixCodec.DigitsOf(p, isVar, little);
    forall i | 0 <= i < |p| ensures d[i] == digits[i] {
      var j := if little then i else |p| - 1 - i;
      assert (if little then p else PrefixCodec.Reverse(p))[i] == p[j];
    }
    assert d == digits;
  }

  lemma SumOfOne(a: nat, base: nat)
    ensures PrefixCodec.Sum([a], base) == a
  {
    assert PrefixCodec.Sum([a][1..], base) == 0;
  }

  lemma SumOfTwo(a: nat, b: nat, base: nat)
    ensures PrefixCodec.Sum([a, b], base) == a + base * b
  {
    SumOfOne(b, base);
    assert [a, b][1..] == [b];
  }

  lemma SumOfFour(a: nat, b: nat, c: nat, d: nat, base: nat)
    ensures PrefixCodec.Sum([a, b, c, d], base) == a + base * (b + base * (c + base * d))
  {
    SumOfTwo(c, d, base);
    assert [b, c, d][1..] == [c, d] && [a, b, c, d][1..] == [b, c, d];
    assert PrefixCodec.Sum([b, c, d], base) == b + base * PrefixCodec.Sum([c, d], base);
  }

  /** prefix_8: one byte. */
  lemma Prefix8Frame(o: Options, limit: nat, delim: seq<Byte>, a: Byte, payload: seq<Byte>, rest: seq<Byte>)
    requires 1 + |payload| <= limit <= MAX_STORAGE && Announces(o, 1, a, payload)
    ensures CutsPrefixed(Settings(Prefix8, o, limit, delim), [a], payload, rest)
  {
    ValueOfDigits([a], o.littleEndian, false, [a]);
    SumOfOne(a, 256);
    hide PrefixCodec.Value;
    PrefixedFrame(Settings(Prefix8, o, limit, delim), [a], payload, rest);
  }

  /** prefix_16: two bytes, the most significant first unless little endian is asked for. */
  lemma Prefix16Frame(o: Options, limit: nat, delim: seq<Byte>, a: Byte, b: Byte, payload: seq<Byte>, rest: seq<Byte>)
    requires 2 + |payload| <= limit <= MAX_STORAGE
    requires Announces(o, 2, if o.littleEndian then a + 256 * b else 256 * a + b, payload)
    ensures CutsPrefixed(Settings(Prefix16, o, limit, delim), [a, b], payload, rest)
  {
    var digits: seq<nat> := if o.littleEndian then [a, b] else [b, a];
    ValueOfDigits([a, b], o.littleEndian, false, digits);
    SumOfTwo(digits[0], digits[1], 256);
    hide PrefixCodec.Value;
    PrefixedFrame(Settings(Prefix16, o, limit, delim), [a, b], payload, rest);
  }

  /** Four bytes, the least significant first. */
  function Quad(a: nat, b: nat, c: nat, d: nat): nat { a + 0x100 * b + 0x1_0000 * c + 0x100_0000 * d }

  /** prefix_32: four bytes. */
  lemma Prefix32Frame(o: Options, limit: nat, delim: seq<Byte>, p: seq<Byte>, payload: seq<Byte>, rest: seq<Byte>)
    requires |p| == 4 && 4 + |payload| <= limit <= MAX_STORAGE
    requires Announces(o, 4,
      if o.littleEndian then Quad(p[0], p[1], p[2], p[3]) else Quad(p[3], p[2], p[1], p[0]), payload)
    ensures CutsPrefixed(Settings(Prefix32, o, limit, delim), p, payload, rest)
  {
    var digits: seq<nat> := if o.littleEndian then [p[0], p[1], p[2], p[3]] else [p[3], p[2], p[1], p[0]];
    ValueOfDigits(p, o.littleEndian, false, digits);
    SumOfFour(digits[0], digits[1], digits[2], digits[3], 256);
    hide PrefixCodec.Value;
    PrefixedFrame(Settings(Prefix32, o, limit, delim), p, payload, rest);
  }

  /** prefix_64: eight bytes, each worth 256 times the next less significant one. */
  lemma Prefix64Frame(o: Options, limit: nat, delim: seq<Byte>, p: seq<Byte>, payload: seq<Byte>, rest: seq<Byte>)
    requires |p| == 8 && 8 + |payload| <= limit <= MAX_STORAGE
    requires Announces(o, 8,
      if o.littleEndian then Quad(p[0], p[1], p[2], p[3]) + 0x1_0000_0000 * Quad(p[4], p[5], p[6], p[7])
      else Quad(p[7], p[6], p[5], p[4]) + 0x1_0000_0000 * Quad(p[3], p[2], p[1], p[0]), payload)
    ensures CutsPrefixed(Settings(Prefix64, o, limit, delim), p, payload, rest)
  {
    var d: seq<nat> := if o.littleEndian then p else PrefixCodec.Reverse(p);
    ValueOfDigits(p, o.littleEndian, false, d);
    SumOfEight(d);
    hide PrefixCodec.Value;
    PrefixedFrame(Settings(Prefix64, o, limit, delim), p, payload, rest);
  }

  lemma SumOfEight(d: seq<nat>)
    requires |d| == 8
    ensures PrefixCodec.Sum(d, 256) == Quad(d[0], d[1], d[2], d[3]) + 0x1_0000_0000 * Quad(d[4], d[5], d[6], d[7])
  {
    var low, high := [d[0], d[1], d[2], d[3]], [d[4], d[5], d[6], d[7]];
    assert d[4..] == high;
    SumOfFour(d[4], d[5], d[6], d[7], 256);
    assert d[3..][1..] == d[4..];
    assert PrefixCodec.Sum(d[3..], 256) == d[3] + 256 * PrefixCodec.Sum(d[4..], 256);
    assert d[2..][1..] == d[3..];
    assert PrefixCodec.Sum(d[2..], 256) == d[2] + 256 * PrefixCodec.Sum(d[3..], 256);
    assert d[1..][1..] == d[2..];
    assert PrefixCodec.Sum(d[1..], 256) == d[1] + 256 * PrefixCodec.Sum(d[2..], 256);
  }

  /** prefix_var: a byte below 128 is a prefix by itself; */
  lemma ShortVarFrame(o: Options, limit: nat, delim: seq<Byte>, a: Byte, payload: seq<Byte>, rest: seq<Byte>)
    requires a < 128 && 1 + |payload| <= limit <= MAX_STORAGE && Announces(o, 1, a, payload)
    ensures CutsPrefixed(Settings(PrefixVar, o, limit, delim), [a], payload, rest)
  {
    ValueOfDigits([a], o.littleEndian, true, [a]);
    SumOfOne(a, 128);
    hide PrefixCodec.Value;
    PrefixCodec.VarLengthUnique([a] + payload + rest, 1);
    PrefixedFrame(Settings(PrefixVar, o, limit, delim), [a], payload, rest);
  }

  /** of two bytes, the first has its top bit set and the second has not, and both give seven bits. */
  lemma LongVarFrame(o: Options, limit: nat, delim: seq<Byte>, a: Byte, b: Byte, payload: seq<Byte>, rest: seq<Byte>)
    requires a >= 128 > b && 2 + |payload| <= limit <= MAX_STORAGE
    requires Announces(o, 2, if o.littleEndian then (a - 128) + 128 * b else 128 * (a - 128) + b, payload)
    ensures CutsPrefixed(Settings(PrefixVar, o, limit, delim), [a, b], payload, rest)
  {
    ValueOfTwo(a, b, o.littleEndian);
    hide PrefixCodec.Value, PrefixCodec.VarLength;
    PrefixCodec.VarLengthUnique([a, b] + payload + rest, 2);
    PrefixedFrame(Settings(PrefixVar, o, limit, delim), [a, b], payload, rest);
  }

  lemma ValueOfTwo(a: Byte, b: Byte, little: bool)
    requires a >= 128 > b
    ensures PrefixCodec.Value([a, b], true, little) == if little then (a - 128) + 128 * b else 128 * (a - 128) + b
  {
    var digits: seq<nat> := if little then [a - 128, b] else [b, a - 128];
    ValueOfDigits([a, b], little, true, digits);
    SumOfTwo(digits[0], digits[1], 128);
  }

  // ---- delimiters ----

  /** d is nowhere in text + d but at the end. */
  predicate EndsFirst(text: seq<Byte>, d: seq<Byte>) {
    forall i: nat :: i < |text| ==> !Occurs(text + d, d, i)
  }

  /** A frame is all up to the first delimiter; that is left out if protocol bytes are ignored. */
  predicate CutsDelimited(c: Config, text: seq<Byte>, d: seq<Byte>, rest: seq<Byte>) {
    Cuts(c, text + d + rest, if c.options.ignoreProtocolBytes then text else text + d, rest)
  }

  lemma DelimitedFrame(c: Config, text: seq<Byte>, d: seq<Byte>, rest: seq<Byte>)
    requires IsDelim(c.protocol) && DelimiterOf(c) == d != [] && |text| + |d| <= c.limit && EndsFirst(text, d)
    ensures CutsDelimited(c, text, d, rest)
  {
    hide CutDelim, Find;
    var s := text + d + rest;
    assert Occurs(text + d, d, |text|);
    FindFirst(text + d, d, |text|);
    CutOfDelimited(c, Message(text, 1), rest);
    assert Encode(c, Message(text, 1)) == text + d;
    assert s[..|text|] == s[0..|text|] == text && s[..|text| + |d|] == s[0..|text| + |d|] == text + d;
    assert s[|text| + |d|..] == rest;
  }

  lemma OneByteEnds(text: seq<Byte>, b: Byte)
    requires b !in text
    ensures EndsFirst(text, [b])
  {
    forall i: nat | i < |text| ensures !Occurs(text + [b], [b], i) {
      assert (text + [b])[i..i + 1] == [text[i]];
      assert text[i] in text;
    }
  }

  /** delim_zero, delim_cr and delim_lf: up to the first byte 0, 13 or 10. */
  lemma LineFrame(p: Protocol, o: Options, limit: nat, delim: seq<Byte>, text: seq<Byte>, b: Byte, rest: seq<Byte>)
    requires (p == DelimZero && b == 0) || (p == DelimCr && b == 13) || (p == DelimLf && b == 10)
    requires b !in text && |text| + 1 <= limit <= MAX_STORAGE
    ensures CutsDelimited(Settings(p, o, limit, delim), text, [b], rest)
  {
    OneByteEnds(text, b);
    DelimitedFrame(Settings(p, o, limit, delim), text, [b], rest);
  }

  /** delim_crlf: up to the first 13 that is followed by 10. */
  lemma CrLfFrame(o: Options, limit: nat, delim: seq<Byte>, text: seq<Byte>, rest: seq<Byte>)
    requires forall i :: 0 <= i < |text| - 1 ==> !(text[i] == 13 && text[i + 1] == 10)
    requires |text| + 2 <= limit <= MAX_STORAGE
    ensures CutsDelimited(Settings(DelimCrLf, o, limit, delim), text, [13, 10], rest)
  {
    var s := text + [13, 10];
    forall i: nat | i < |text| ensures !Occurs(s, [13, 10], i) {
      assert s[i..i + 2][0] == text[i] && s[i..i + 2][1] == if i + 1 < |text| then text[i + 1] else 13;
    }
    DelimitedFrame(Settings(DelimCrLf, o, limit, delim), text, [13, 10], rest);
  }

  /** delim: up to the first of whatever delimiter is set. */
  lemma AnyDelimFrame(o: Options, limit: nat, delim: seq<Byte>, text: seq<Byte>, rest: seq<Byte>)
    requires delim != [] && |text| + |delim| <= limit <= MAX_STORAGE && EndsFirst(text, delim)
    ensures CutsDelimited(Settings(Delim, o, limit, delim), text, delim, rest)
  {
    DelimitedFrame(Settings(Delim, o, limit, delim), text, delim, rest);
  }

  // ---- the others ----

  /** fixed: frames of the size of the read buffer. */
  lemma FixedFrame(o: Options, limit: nat, delim: seq<Byte>, first: seq<Byte>, rest: seq<Byte>)
    requires 0 < |first| == limit <= MAX_STORAGE
    ensures Cuts(Settings(Fixed, o, limit, delim), first + rest, first, rest)
    ensures forall s: seq<Byte> :: |s| < limit ==> CutOf(Settings(Fixed, o, limit, delim), s).More?
  {
    assert (first + rest)[0..limit] == first && (first + rest)[limit + 0..] == rest;
  }

  /**
   none reads nothing, any and an empty delimiter take what comes, and a value of the enum without a
   case is an error, whatever is there.
   */
  lemma Unframed(o: Options, limit: nat, delim: seq<Byte>, s: seq<Byte>)
    requires 0 < limit <= MAX_STORAGE
    ensures CutOf(Settings(Nothing, o, limit, delim), s) == Pause
    ensures CutOf(Settings(Anything, o, limit, delim), s) == CutOf(Settings(Delim, o, limit, []), s) == Cut.Unframed
    ensures CutOf(Settings(Unsupported, o, limit, delim), s) == Reject
  {
  }

  // ---- what is refused ----

  /** A complete prefix that announces more than fits, or less than itself, is refused, but for sizes that wrap. */
  lemma PrefixRefused(c: Config, header: seq<Byte>, rest: seq<Byte>)
    requires IsPrefix(c.protocol) && HeaderLength(c, header + rest) == |header|
    requires |header| <= if c.protocol.PrefixVar? then 9 else 8
    requires var number := PrefixCodec.Value(header, c.protocol.PrefixVar?, c.options.littleEndian);
      if c.options.inclusivePrefix then number < |header| || c.limit < number < TWO_64
      else c.limit < |header| + number < TWO_64
    ensures CutOf(c, header + rest).Reject?
  {
    hide PrefixCodec.Value, PrefixCodec.VarLength;
    assert (header + rest)[..|header|] == header;
    var number := PrefixCodec.Value(header, c.protocol.PrefixVar?, c.options.littleEndian);
    var sum := if c.options.inclusivePrefix then number else |header| + number;
    if sum < TWO_64 { Unwrapped(sum); }
  }

  /** A delimiter that is not within the first bytes the read buffer holds is not waited for any longer. */
  lemma DelimMissing(c: Config, s: seq<Byte>)
    requires IsDelim(c.protocol) && DelimiterOf(c) != []
    requires forall i: nat :: i + |DelimiterOf(c)| <= c.limit ==> !Occurs(s, DelimiterOf(c), i)
    ensures if |s| >= c.limit then CutOf(c, s).Reject? else CutOf(c, s).More?
  {
    var window := if |s| <= c.limit then s else s[..c.limit];
    var d := DelimiterOf(c);
    forall i: nat ensures !Occurs(window, d, i) {
      if i + |d| <= |window| {
        assert i + |DelimiterOf(c)| <= c.limit;
        assert !Occurs(s, DelimiterOf(c), i);
        assert window[i..i + |d|] == s[i..i + |d|];
      }
    }
  }
}

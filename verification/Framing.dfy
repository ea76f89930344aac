/**
 The frame function: what the byte stream of a session means under its protocol settings, as a
 function of the whole stream. Nothing here knows about sockets, buffers or pieces.
 */
module Framing {
  import opened Bits
  import opened Wrappers
  import PrefixCodec

  /** Unsupported stands for any value of the enum type without a case in session::read. */
  datatype Protocol =
    | Nothing | Anything | Fixed
    | Delim | DelimZero | DelimCr | DelimLf | DelimCrLf
    | Prefix8 | Prefix16 | Prefix32 | Prefix64 | PrefixVar
    | Unsupported

  datatype Options = Options(doNotConsume: bool, ignoreProtocolBytes: bool, littleEndian: bool, inclusivePrefix: bool)

  const NO_OPTIONS := Options(false, false, false, false)

  datatype Settings = Settings(protocol: Protocol, options: Options, limit: nat, delimiter: seq<Byte>)

  /** PTRDIFF_MAX, the largest size a std::vector<char> can have. */
  const MAX_STORAGE: nat := 0x7FFF_FFFF_FFFF_FFFF

  /** Settings with a read buffer that can hold something and can exist. */
  type Config = c: Settings | 0 < c.limit <= MAX_STORAGE witness Settings(Anything, NO_OPTIONS, 65536, [])

  /** One invocation of handler::read: the current segment and everything kept in front of it. */
  datatype Call = Call(segment: seq<Byte>, whole: seq<Byte>)

  /**
   What a handler does with a call: consume bytes from the front of the buffer, then leave the
   session with some settings for the next frame, or close it.
   */
  datatype Reaction = Continue(consumed: nat, config: Config) | Quit(consumed: nat)

  /** A deterministic handler: its reaction is a function of all the calls so far, newest last. */
  type Handler = seq<Call> -> Reaction

  // ---- searching for a delimiter ----

  predicate Occurs(s: seq<Byte>, d: seq<Byte>, i: nat) {
    i + |d| <= |s| && s[i..i + |d|] == d
  }

  predicate First(s: seq<Byte>, d: seq<Byte>, i: nat) {
    Occurs(s, d, i) && forall j: nat :: j < i ==> !Occurs(s, d, j)
  }

  function Find(s: seq<Byte>, d: seq<Byte>, from: nat): (r: Option<nat>)
    ensures r.Some? ==>
      from <= r.value && Occurs(s, d, r.value) && forall j: nat :: from <= j < r.value ==> !Occurs(s, d, j)
    ensures r.None? ==> forall j: nat :: from <= j ==> !Occurs(s, d, j)
    decreases |s| - from
  {
    if from + |d| > |s| then None
    else if Occurs(s, d, from) then Some(from)
    else Find(s, d, from + 1)
  }

  lemma FindFirst(s: seq<Byte>, d: seq<Byte>, i: nat)
    requires First(s, d, i)
    ensures Find(s, d, 0) == Some(i)
  {
    var r := Find(s, d, 0);
    assert r.Some?;
    assert r.value == i;
  }

  lemma OccursExtend(s: seq<Byte>, t: seq<Byte>, d: seq<Byte>, i: nat)
    requires i + |d| <= |s|
    ensures Occurs(s + t, d, i) == Occurs(s, d, i)
  {
    assert (s + t)[i..i + |d|] == s[i..i + |d|];
  }

  // ---- one frame ----

  /**
   What the front of a stream amounts to.
   Frame: bytes [skip, size) are the segment, and trailer bytes after it are passed over once the
   handler has returned. Overflow: the length check of read_prefix wraps around 2^64.
   */
  datatype Cut =
    | More | Reject | Overflow | Unframed | Pause
    | Frame(skip: nat, size: nat, trailer: nat)

  predicate IsDelim(p: Protocol) { p in {Delim, DelimZero, DelimCr, DelimLf, DelimCrLf} }

  predicate IsPrefix(p: Protocol) { p in {Prefix8, Prefix16, Prefix32, Prefix64, PrefixVar} }

  function DelimiterOf(c: Config): seq<Byte> {
    match c.protocol
    case DelimZero => [0]
    case DelimCr => [13]
    case DelimLf => [10]
    case DelimCrLf => [13, 10]
    case _ => c.delimiter
  }

  /** Bytes in a fixed-width prefix. */
  function Width(p: Protocol): nat {
    match p
    case Prefix8 => 1
    case Prefix16 => 2
    case Prefix32 => 4
    case _ => 8
  }

  /** A delimiter only counts if it ends within the first limit bytes. */
  function CutDelim(c: Config, s: seq<Byte>): (cut: Cut)
    requires DelimiterOf(c) != []
    ensures cut.Frame? ==> cut.skip == 0 && 0 < cut.size + cut.trailer <= |s|
  {
    var d, ignore := DelimiterOf(c), c.options.ignoreProtocolBytes;
    var window := if |s| <= c.limit then s else s[..c.limit];
    match Find(window, d, 0)
    case Some(i) => if ignore then Frame(0, i, |d|) else Frame(0, i + |d|, 0)
    case None => if |s| >= c.limit then Reject else More
  }

  datatype Header = Partial | Bad | Wraps | Complete(len: nat, payload: nat)

  function HeaderLength(c: Config, s: seq<Byte>): (len: nat)
    ensures 1 <= len
  {
    if c.protocol.PrefixVar? then PrefixCodec.VarLength(s) else Width(c.protocol)
  }

  /** The length prefix at the front of s and the number of payload bytes it announces. */
  function HeaderOf(c: Config, s: seq<Byte>): (h: Header)
    ensures h.Complete? ==> 1 <= h.len <= |s| && h.len + h.payload <= c.limit
  {
    var isVar, len := c.protocol.PrefixVar?, HeaderLength(c, s);
    if len > c.limit then Bad
    else if |s| < len then Partial
    else if len > (if isVar then 9 else 8) then Bad
    else Announced(c, len, PrefixCodec.Value(s[..len], isVar, c.options.littleEndian))
  }

  /** Which decoded values are accepted. */
  function Announced(c: Config, len: nat, value: nat): (h: Header)
    ensures h.Complete? ==> h.len == len && len + h.payload <= c.limit
  {
    if c.options.inclusivePrefix && value < len then Bad
    else
      var payload := if c.options.inclusivePrefix then value - len else value;
      if payload + len <= c.limit then Complete(len, payload)
      else if (payload + len) % TWO_64 <= c.limit then Wraps
      else Bad
  }

  function CutPrefix(c: Config, s: seq<Byte>): (cut: Cut)
    ensures cut.Frame? ==> cut.skip <= cut.size <= |s| && 0 < cut.size && cut.trailer == 0
  {
    match HeaderOf(c, s)
    case Partial => More
    case Bad => Reject
    case Wraps => Overflow
    case Complete(len, payload) =>
      if |s| < len + payload then More
      else Frame(if c.options.ignoreProtocolBytes then len else 0, len + payload, 0)
  }

  function CutOf(c: Config, s: seq<Byte>): (cut: Cut)
    ensures cut.Frame? ==> cut.skip <= cut.size && 0 < cut.size + cut.trailer <= |s|
  {
    match c.protocol
    case Nothing => Pause
    case Anything => Unframed
    case Fixed => if |s| >= c.limit then Frame(0, c.limit, 0) else More
    case Unsupported => Reject
    case _ =>
      if IsPrefix(c.protocol) then CutPrefix(c, s)
      else if DelimiterOf(c) == [] then Unframed
      else CutDelim(c, s)
  }

  /** A decision about the front of a stream is final: further input cannot change it. */
  lemma CutStable(c: Config, s: seq<Byte>, t: seq<Byte>)
    requires !CutOf(c, s).More?
    ensures CutOf(c, s + t) == CutOf(c, s)
  {
    if IsPrefix(c.protocol) {
      HeaderStable(c, s, t);
    } else if IsDelim(c.protocol) && DelimiterOf(c) != [] {
      CutDelimStable(c, s, t);
    }
  }

  lemma CutDelimStable(c: Config, s: seq<Byte>, t: seq<Byte>)
    requires DelimiterOf(c) != [] && !CutDelim(c, s).More?
    ensures CutDelim(c, s + t) == CutDelim(c, s)
  {
    var d := DelimiterOf(c);
    if |s| >= c.limit {
      assert (s + t)[..c.limit] == s[..c.limit];
      assert |s| == c.limit ==> s[..c.limit] == s;
      assert |s + t| == c.limit ==> s + t == s;
    } else {
      var i := Find(s, d, 0).value;
      var more := if |s + t| <= c.limit then s + t else (s + t)[..c.limit];
      var u := more[|s|..];
      assert more == s + u;
      forall j: nat | j <= i ensures Occurs(more, d, j) == Occurs(s, d, j) {
        OccursExtend(s, u, d, j);
      }
      FindFirst(more, d, i);
    }
  }

  lemma HeaderStable(c: Config, s: seq<Byte>, t: seq<Byte>)
    requires !HeaderOf(c, s).Partial?
    ensures HeaderOf(c, s + t) == HeaderOf(c, s)
  {
    PrefixCodec.VarLengthExtend(s, t);
    var len := HeaderLength(c, s);
    if len <= |s| {
      assert (s + t)[..len] == s[..len];
    }
  }

  // ---- the whole stream ----

  /** Where frame reading stands between two frames: the calls made and what is kept in front. */
  datatype Point = Point(calls: seq<Call>, config: Config, kept: seq<Byte>)

  /** Why it stands there. */
  datatype End = Waiting | Rejected | Overflowed | Opaque | Paused | Closed

  datatype Outcome = Outcome(point: Point, rest: seq<Byte>, end: End)

  function Drop(s: seq<Byte>, n: nat): seq<Byte> {
    if n <= |s| then s[n..] else []
  }

  function Keep(c: Config, s: seq<Byte>): seq<Byte> {
    if c.options.doNotConsume then s else []
  }

  /** The call a frame leads to. */
  function CallFor(p: Point, s: seq<Byte>, cut: Cut): Call
    requires cut.Frame? && cut.skip <= cut.size <= |s|
  {
    Call(s[cut.skip..cut.size], p.kept + s[..cut.size])
  }

  /** The point after that call and the handler's reaction to it. */
  function Advance(h: Handler, p: Point, s: seq<Byte>, cut: Cut): Point
    requires cut.Frame? && cut.skip <= cut.size && cut.size + cut.trailer <= |s|
  {
    var calls := p.calls + [CallFor(p, s, cut)];
    var reaction := h(calls);
    var left := Drop(p.kept + s[..cut.size], reaction.consumed) + s[cut.size..cut.size + cut.trailer];
    if reaction.Quit? then Point(calls, p.config, left)
    else Point(calls, reaction.config, Keep(reaction.config, left))
  }

  /** Everything a handler h is called with when s follows point p, and how that ends. */
  function Frames(h: Handler, p: Point, s: seq<Byte>): (o: Outcome)
    ensures p.calls <= o.point.calls
    decreases |s|
  {
    var cut := CutOf(p.config, s);
    match cut
    case More => Outcome(p, s, Waiting)
    case Reject => Outcome(p, s, Rejected)
    case Overflow => Outcome(p, s, Overflowed)
    case Unframed => Outcome(p, s, Opaque)
    case Pause => Outcome(p, s, Paused)
    case Frame(skip, size, trailer) =>
      var next, rest := Advance(h, p, s, cut), s[size + trailer..];
      if h(next.calls).Quit? then Outcome(next, rest, Closed) else Frames(h, next, rest)
  }

  /** Reading resumed with more input. */
  function Resume(h: Handler, o: Outcome, t: seq<Byte>): Outcome {
    if o.end.Waiting? then Frames(h, o.point, o.rest + t) else o.(rest := o.rest + t)
  }

  lemma AdvanceExtend(h: Handler, p: Point, s: seq<Byte>, t: seq<Byte>, cut: Cut)
    requires cut.Frame? && cut.skip <= cut.size && cut.size + cut.trailer <= |s|
    ensures Advance(h, p, s + t, cut) == Advance(h, p, s, cut)
    ensures (s + t)[cut.size + cut.trailer..] == s[cut.size + cut.trailer..] + t
  {
    var end := cut.size + cut.trailer;
    assert (s + t)[..cut.size] == s[..cut.size];
    assert (s + t)[cut.skip..cut.size] == s[cut.skip..cut.size];
    assert (s + t)[cut.size..end] == s[cut.size..end];
  }

  /** Reading s and then t is reading s + t, wherever the cut falls. */
  lemma {:induction false} FramesSplit(h: Handler, p: Point, s: seq<Byte>, t: seq<Byte>)
    ensures Frames(h, p, s + t) == Resume(h, Frames(h, p, s), t)
    decreases |s|
  {
    var cut := CutOf(p.config, s);
    if !cut.More? {
      CutStable(p.config, s, t);
      if cut.Frame? {
        AdvanceExtend(h, p, s, t, cut);
        if h(Advance(h, p, s, cut).calls).Continue? {
          FramesSplit(h, Advance(h, p, s, cut), s[cut.size + cut.trailer..], t);
        }
      }
    }
  }

  /** Reading on from where a stream waits adds nothing: the rest is not a frame yet. */
  lemma {:induction false} FramesRest(h: Handler, p: Point, s: seq<Byte>)
    ensures var o := Frames(h, p, s); o.end != Closed ==> Frames(h, o.point, o.rest) == o
    decreases |s|
  {
    var cut := CutOf(p.config, s);
    if cut.Frame? {
      FramesRest(h, Advance(h, p, s, cut), s[cut.size + cut.trailer..]);
    }
  }
}

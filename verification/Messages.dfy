/**
 The sending side of the framing protocols, and the round trip: whatever is encoded as messages
 comes out of the frame function as the same messages.
 */
module Messages {
  import opened Bits
  import opened Framing
  import opened Wrappers
  import PrefixCodec

  /** A payload, and for a varint prefix the number of bytes the sender spends on it. */
  datatype Message = Message(payload: seq<Byte>, groups: nat)

  function HeaderSize(c: Config, m: Message): nat {
    if c.protocol.PrefixVar? then m.groups else Width(c.protocol)
  }

  /** The number put into the prefix. */
  function Announcement(c: Config, m: Message): nat {
    |m.payload| + if c.options.inclusivePrefix then HeaderSize(c, m) else 0
  }

  /** What a sender must respect for a message to be receivable under these settings. */
  predicate Sendable(c: Config, m: Message) {
    match c.protocol
    case Fixed => |m.payload| == c.limit
    case PrefixVar =>
      1 <= m.groups <= 9 && PrefixCodec.VarDigits(Announcement(c, m)) <= m.groups
      && m.groups + |m.payload| <= c.limit
    case _ =>
      if IsPrefix(c.protocol) then
        Announcement(c, m) < Pow(256, Width(c.protocol)) && Width(c.protocol) + |m.payload| <= c.limit
      else
        IsDelim(c.protocol) && DelimiterOf(c) != [] && |m.payload| + |DelimiterOf(c)| <= c.limit
        && Find(m.payload + DelimiterOf(c), DelimiterOf(c), 0) == Some(|m.payload|)
  }

  /** The protocol bytes in front of a payload. */
  function Header(c: Config, m: Message): (p: seq<Byte>)
    requires Sendable(c, m)
    ensures IsPrefix(c.protocol) ==> |p| == HeaderSize(c, m)
  {
    if c.protocol.PrefixVar? then PrefixCodec.EncodeVar(Announcement(c, m), m.groups, c.options.littleEndian)
    else if IsPrefix(c.protocol) then
      PrefixCodec.EncodeFixed(Announcement(c, m), Width(c.protocol), c.options.littleEndian)
    else []
  }

  /** The protocol bytes behind a payload. */
  function Footer(c: Config): seq<Byte> {
    if IsDelim(c.protocol) then DelimiterOf(c) else []
  }

  function Encode(c: Config, m: Message): seq<Byte>
    requires Sendable(c, m)
  {
    Header(c, m) + m.payload + Footer(c)
  }

  /** What the receiving handler gets as its segment. */
  function Delivered(c: Config, m: Message): seq<Byte>
    requires Sendable(c, m)
  {
    if c.options.ignoreProtocolBytes then m.payload else Encode(c, m)
  }

  /** The front of an encoded message is cut exactly there. */
  lemma CutOfMessage(c: Config, m: Message, rest: seq<Byte>)
    requires Sendable(c, m)
    ensures var cut, s := CutOf(c, Encode(c, m) + rest), Encode(c, m) + rest;
      cut.Frame? && cut.size + cut.trailer == |Encode(c, m)| && s[cut.skip..cut.size] == Delivered(c, m)
  {
    if IsPrefix(c.protocol) {
      CutOfPrefixed(c, m, rest);
    } else if IsDelim(c.protocol) {
      CutOfDelimited(c, m, rest);
    } else {
      assert (Encode(c, m) + rest)[..c.limit] == Encode(c, m) == m.payload;
    }
  }

  /** The message alone: its delimiter is the first one. */
  lemma CutOfEncoded(c: Config, m: Message)
    requires Sendable(c, m) && IsDelim(c.protocol)
    ensures var d := DelimiterOf(c);
      && Encode(c, m) == m.payload + d && d != []
      && CutDelim(c, m.payload + d) == (if c.options.ignoreProtocolBytes then Frame(0, |m.payload|, |d|)
           else Frame(0, |m.payload| + |d|, 0))
  {
    var s := m.payload + DelimiterOf(c);
    assert |s| == c.limit ==> s[..c.limit] == s;
    hide Find;
  }

  lemma CutOfDelimited(c: Config, m: Message, rest: seq<Byte>)
    requires Sendable(c, m) && IsDelim(c.protocol)
    ensures var d, s := DelimiterOf(c), Encode(c, m) + rest;
      && CutOf(c, s) == (if c.options.ignoreProtocolBytes then Frame(0, |m.payload|, |d|)
           else Frame(0, |m.payload| + |d|, 0))
      && s[..|m.payload|] == m.payload && s[..|m.payload| + |d|] == Encode(c, m)
  {
    hide CutDelim, Find;
    var s := m.payload + DelimiterOf(c);
    CutOfEncoded(c, m);
    CutDelimStable(c, s, rest);
    assert (s + rest)[..|m.payload|] == m.payload && (s + rest)[..|s|] == s;
  }

  lemma CutOfPrefixed(c: Config, m: Message, rest: seq<Byte>)
    requires Sendable(c, m) && IsPrefix(c.protocol)
    ensures var s, len := Encode(c, m) + rest, HeaderSize(c, m);
      && CutOf(c, s) == Frame(if c.options.ignoreProtocolBytes then len else 0, len + |m.payload|, 0)
      && s[len..len + |m.payload|] == m.payload && s[..len + |m.payload|] == Encode(c, m)
  {
    hide PrefixCodec.Value, PrefixCodec.EncodeVar, PrefixCodec.EncodeFixed, PrefixCodec.VarDigits,
      PrefixCodec.VarLength;
    var h, after := Header(c, m), m.payload + rest;
    var s := Encode(c, m) + rest;
    assert s == h + after;
    assert s[..|h|] == h;
    HeaderOfMessage(c, m, after);
    assert HeaderOf(c, s) == Complete(|h|, |m.payload|);
  }

  lemma HeaderOfMessage(c: Config, m: Message, after: seq<Byte>)
    requires Sendable(c, m) && IsPrefix(c.protocol)
    ensures HeaderOf(c, Header(c, m) + after) == Complete(HeaderSize(c, m), |m.payload|)
  {
    hide PrefixCodec.Value, PrefixCodec.EncodeVar, PrefixCodec.EncodeFixed, PrefixCodec.VarDigits,
      PrefixCodec.VarLength;
    var h, n := Header(c, m), Announcement(c, m);
    assert (h + after)[..|h|] == h;
    if c.protocol.PrefixVar? {
      PrefixCodec.VarRoundTrip(n, m.groups, c.options.littleEndian, after);
    } else {
      PrefixCodec.FixedRoundTrip(n, Width(c.protocol), c.options.littleEndian);
    }
  }

  function Segments(calls: seq<Call>): (r: seq<seq<Byte>>)
    ensures |r| == |calls|
  {
    seq(|calls|, i requires 0 <= i < |calls| => calls[i].segment)
  }

  // ---- a conversation in which the handler may switch the settings after every message ----

  /** Where reading stands after a message sent under the settings of point p. */
  function PointAfter(h: Handler, p: Point, m: Message): Point
    requires Sendable(p.config, m)
  {
    var s := Encode(p.config, m);
    var cut := CutOf(p.config, s);
    if cut.Frame? then Advance(h, p, s, cut) else p
  }

  /** Each message respects the settings the handler has left for it, and the handler reads on. */
  ghost predicate Answerable(h: Handler, p: Point, ms: seq<Message>)
    decreases |ms|
  {
    ms == [] || (Sendable(p.config, ms[0])
      && h(PointAfter(h, p, ms[0]).calls).Continue? && Answerable(h, PointAfter(h, p, ms[0]), ms[1..]))
  }

  /** The messages on the wire, each under the settings that hold when it arrives. */
  function EncodeAll(h: Handler, p: Point, ms: seq<Message>): seq<Byte>
    requires Answerable(h, p, ms)
    decreases |ms|
  {
    if ms == [] then [] else Encode(p.config, ms[0]) + EncodeAll(h, PointAfter(h, p, ms[0]), ms[1..])
  }

  function DeliveredAll(h: Handler, p: Point, ms: seq<Message>): seq<seq<Byte>>
    requires Answerable(h, p, ms)
    decreases |ms|
  {
    if ms == [] then [] else [Delivered(p.config, ms[0])] + DeliveredAll(h, PointAfter(h, p, ms[0]), ms[1..])
  }

  function PointAfterAll(h: Handler, p: Point, ms: seq<Message>): Point
    requires Answerable(h, p, ms)
    decreases |ms|
  {
    if ms == [] then p else PointAfterAll(h, PointAfter(h, p, ms[0]), ms[1..])
  }

  lemma MessageArrives(h: Handler, p: Point, m: Message, after: seq<Byte>)
    requires Sendable(p.config, m) && h(PointAfter(h, p, m).calls).Continue?
    ensures Frames(h, p, Encode(p.config, m) + after) == Frames(h, PointAfter(h, p, m), after)
    ensures Segments(PointAfter(h, p, m).calls) == Segments(p.calls) + [Delivered(p.config, m)]
  {
    hide CutOf, Encode, Delivered, Sendable;
    var e := Encode(p.config, m);
    var s := e + after;
    assert e + [] == e;
    CutOfMessage(p.config, m, []);
    CutStable(p.config, e, after);
    var cut := CutOf(p.config, e);
    AdvanceExtend(h, p, e, after, cut);
    assert s[cut.size + cut.trailer..] == after;
    assert PointAfter(h, p, m).calls == p.calls + [CallFor(p, e, cut)];
  }

  /**
   Round trip: a stream of messages, each encoded under the settings in force when it arrives, and
   followed by anything, is handed over message by message, and reading stands at what follows. The
   handler may switch protocol, options and limit after every message, and consume what it likes.
   */
  lemma {:induction false} MessagesArrive(h: Handler, p: Point, ms: seq<Message>, rest: seq<Byte>)
    requires Answerable(h, p, ms)
    ensures Frames(h, p, EncodeAll(h, p, ms) + rest) == Frames(h, PointAfterAll(h, p, ms), rest)
    ensures Segments(PointAfterAll(h, p, ms).calls) == Segments(p.calls) + DeliveredAll(h, p, ms)
    decreases |ms|
  {
    hide Encode, Delivered, Sendable, Frames, PointAfter;
    if ms == [] {
      assert EncodeAll(h, p, ms) + rest == rest;
    } else {
      var next := PointAfter(h, p, ms[0]);
      var after := EncodeAll(h, next, ms[1..]) + rest;
      assert EncodeAll(h, p, ms) + rest == Encode(p.config, ms[0]) + after;
      MessageArrives(h, p, ms[0], after);
      MessagesArrive(h, next, ms[1..], rest);
    }
  }
}

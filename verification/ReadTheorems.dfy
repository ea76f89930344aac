/**
 What the invariant of a session's read side means to its users: the handler is called exactly as
 the frame function says, whatever pieces the stream came in, and no byte is lost.
 */
module ReadTheorems {
  import opened Bits
  import opened Buffers
  import opened Framing
  import opened Slices
  import opened Tracing
  import opened SessionRead
  import PrefixCodec

  /** Nothing is left to run before the socket delivers more. */
  predicate Quiescent(s: State) { !(s.pending.Until? && s.pending.room == 0) }

  /** The session refused the stream because of what is in it. */
  predicate Refused(s: State) {
    s.failure in {MessageSize, ValueTooLarge, BadMessage, NotSupported, NoDelimiter}
  }

  /** The socket failed. */
  predicate Broken(s: State) { s.failure.IoError? || s.failure.Cancelled? }

  /** How the session stands, in the words of the frame function. */
  ghost predicate StandsAt(s: State, end: End) {
    match end
    case Waiting => (!s.pending.Idle? && s.failure.NoFailure?) || s.failure.IoError?
    case Rejected => Refused(s) || s.failure.Aborted?
    case Overflowed => s.failure.Aborted?
    case Opaque => s.unframed
    case Paused => s.pending.Idle? && s.failure.NoFailure? && s.status.Connected?
    case Closed => s.pending.Idle? && s.failure.NoFailure? && s.status.Closing?
  }

  /**
   A session that waits has made exactly the calls the frame function makes on everything received,
   and waits, has refused, is paused or closed just when the frame function says so. Once framing
   has been given up its calls begin with those. An error that hides a frame already there leaves a
   part of them.
   */
  lemma Faithful(s: State)
    requires s.Valid() && Quiescent(s)
    ensures !s.failure.Cancelled? ==> (s.Meaning().end.Opaque? <==> s.unframed)
    ensures s.unframed ==> s.Meaning().end.Opaque? && s.Meaning().point.calls <= s.calls
    ensures !s.unframed && !s.failure.Cancelled? ==> s.calls == s.Meaning().point.calls && StandsAt(s, s.Meaning().end)
    ensures !s.unframed && s.failure.Cancelled? ==> s.calls <= s.Meaning().point.calls
    ensures s.failure.Aborted? ==> Wrapping(s.config, s.Unread())
  {
    hide Frames, CutDelim, HeaderOf, Wrapping, Traced, Reaches;
    if !s.unframed && !s.Lossy() && !(s.failure.NoFailure? && s.status.Closing?) {
      EndOfCut(s);
    }
  }

  /** A session inside a frame stands where the cut of its unread input says. */
  lemma EndOfCut(s: State)
    requires s.Valid() && Quiescent(s) && !s.unframed && !s.Lossy() && !(s.failure.NoFailure? && s.status.Closing?)
    ensures s.calls == s.Meaning().point.calls && StandsAt(s, s.Meaning().end)
    ensures !s.Meaning().end.Opaque?
  {
    hide Traced, Reaches, CutDelim, CutPrefix, HeaderOf, Announced, State.Conserved, State.Bounded;
    if s.pending.Idle? {
      if s.failure.Aborted? { WrappingCut(s.config, s.Unread()); }
    } else {
      NotYet(s);
    }
  }

  lemma WrappingCut(c: Config, s: seq<Byte>)
    requires Wrapping(c, s)
    ensures CutOf(c, s).Reject? || CutOf(c, s).Overflow?
    ensures CutOf(c, s).Reject? <==> HeaderLength(c, s) > c.limit
  {
    hide PrefixCodec.Value, PrefixCodec.VarLength;
  }

  /**
   Framing does not depend on chunking: two sessions with the same handler and first settings that
   received the same bytes, in whatever pieces, have made the same calls, stand alike and gave the
   same error, unless the frame function itself gives framing up (protocol::any or an empty delimiter).
   */
  lemma ChunkingIsIrrelevant(a: State, b: State)
    requires a.Valid() && Quiescent(a) && !Broken(a)
    requires b.Valid() && Quiescent(b) && !Broken(b)
    requires a.handler == b.handler && a.start == b.start && a.received == b.received
    requires !a.Meaning().end.Opaque?
    ensures a.calls == b.calls
    ensures (Refused(a) || a.failure.Aborted?) <==> (Refused(b) || b.failure.Aborted?)
    ensures a.pending.Idle? <==> b.pending.Idle?
    ensures a.failure == b.failure
  {
    hide State.Valid, Frames, Verdict;
    Faithful(a);
    Faithful(b);
    WaitsUnlessStopped(a);
    WaitsUnlessStopped(b);
    if Refused(a) || a.failure.Aborted? {
      ErrorOfTheStream(a);
      ErrorOfTheStream(b);
    }
  }

  /**
   The error a session refuses a stream with, or its failed assertion, is the verdict on what the
   frame function leaves unread of the bytes received: it does not depend on the pieces they came in.
   */
  lemma ErrorOfTheStream(s: State)
    requires s.Valid() && !s.unframed && (Refused(s) || s.failure.Aborted?)
    ensures s.failure == Verdict(s.Meaning().point.config, s.Meaning().rest)
    ensures s.Meaning().end.Rejected? || s.Meaning().end.Overflowed?
  {
    hide Traced, Reaches, CutDelim, CutPrefix, HeaderOf, State.Conserved, State.Bounded;
    if s.failure.NoDelimiter? {
      DelimVerdict(s.config, s.Meaning().rest);
    } else if s.failure.Aborted? {
      WrappingCut(s.config, s.Unread());
      WrappingVerdict(s.config, s.Unread());
    }
    hide Verdict, Wrapping;
  }

  lemma DelimVerdict(c: Config, u: seq<Byte>)
    requires IsDelim(c.protocol)
    ensures Verdict(c, u) == NoDelimiter
  {
  }

  lemma WrappingVerdict(c: Config, u: seq<Byte>)
    requires Wrapping(c, u)
    ensures Verdict(c, u) == Aborted
  {
  }

  lemma WaitsUnlessStopped(s: State)
    requires s.Valid()
    ensures !s.failure.NoFailure? || s.status.Closing? || s.status.Connected? ==> s.pending.Idle?
    ensures s.failure.Aborted? ==> Wrapping(s.config, s.Unread())
  {
    hide Traced, Reaches, Frames, CutDelim, HeaderOf, CutOf, State.Linked, State.Conserved, State.Bounded, Wrapping;
  }

  /** Before a read error, what was consumed and what is stored is what came from the socket. */
  lemma NothingIsLost(s: State)
    requires s.Valid() && !s.Lossy()
    ensures s.dropped + s.view.External() + s.view.Internal() + s.view.storage[s.view.Filled()..s.Limit()] == s.received
  {
    hide Traced, Reaches, Frames, CutDelim, HeaderOf, CutOf, State.Linked, State.Phase, State.Bounded;
    var b, x, f := s.view.storage, s.view.externalSize, s.view.Filled();
    JoinSlices(b, 0, x, f);
    JoinSlices(b, 0, f, s.Limit());
    assert b[0..x] == b[..x] && b[0..s.Limit()] == b[..s.Limit()];
    PiecesOf(s.dropped, b[..x], b[x..f], b[f..s.Limit()]);
  }

  lemma PiecesOf(a: seq<Byte>, b: seq<Byte>, c: seq<Byte>, d: seq<Byte>)
    ensures a + b + c + d == a + (b + c + d)
  {
  }

  /**
   Every call, under every protocol, any included, and across all switches: the frames follow on each
   other from the first byte on; the segment of a frame is all of it but the ignored protocol bytes,
   a length prefix or a delimiter; the whole buffer reaches from what was not consumed to the end of
   the segment.
   */
  lemma CallsComeFromTheStream(s: State, i: nat)
    requires s.Valid() && i < |s.calls|
    ensures |s.spans| == |s.calls|
    ensures var sp := s.spans[i];
      && sp.front <= sp.from <= sp.begin <= sp.end <= sp.next <= |s.received|
      && s.calls[i].segment == s.received[sp.begin..sp.end] && s.calls[i].whole == s.received[sp.front..sp.end]
      && sp.begin - sp.from == Ignored(sp.config, s.received[sp.from..]).0
      && s.received[sp.end..sp.next] == Ignored(sp.config, s.received[sp.from..]).1
      && (if i == 0 then sp.from == 0 && sp.front == 0 && sp.config == s.start
          else var r := s.handler(s.calls[..i]);
            && r.Continue? && sp.config == r.config && sp.from == s.spans[i - 1].next
            && var last := s.spans[i - 1];
              sp.front ==
                if !r.config.options.doNotConsume then last.next
                else if last.front + r.consumed <= last.end then last.front + r.consumed
                else last.end)
  {
    hide State.Phase, State.Linked, State.Conserved, State.Bounded, State.BrokenHere, State.ClosedHere, State.NextAt,
      Ignored, CutThere;
    assert Spans(s.received, s.spans[i], s.calls[i]);
    GapsAreProtocolBytes(s.received, s.spans[i]);
  }

  /** Nothing of a frame is kept from the handler under these settings. */
  predicate LeavesNothingOut(c: Config) {
    !c.options.ignoreProtocolBytes || !(IsPrefix(c.protocol) || (IsDelim(c.protocol) && DelimiterOf(c) != []))
  }

  lemma NothingLeftOut(stream: seq<Byte>, sp: Span)
    requires Ordered(sp, |stream|) && CutThere(stream, sp) && LeavesNothingOut(sp.config)
    ensures Gapless(sp)
  {
    hide CutThere, HeaderLength;
    GapsAreProtocolBytes(stream, sp);
  }

  /**
   Without ignored bytes the segments, in order, are the stream up to the last frame, and the whole
   buffer is what of them has not been consumed, for every handler and every protocol.
   */
  lemma SegmentsAreTheStream(s: State, i: nat)
    requires s.Valid() && i < |s.calls| == |s.spans| && forall k :: 0 <= k <= i ==> LeavesNothingOut(s.spans[k].config)
    ensures var sp := s.spans[i];
      && sp.front <= sp.end == sp.next <= |s.received| && Concat(s.calls[..i + 1]) == s.received[..sp.end]
      && s.calls[i].whole == Concat(s.calls[..i + 1])[sp.front..]
  {
    hide State.Phase, State.Linked, State.Conserved, State.Bounded, State.BrokenHere, State.ClosedHere, State.NextAt,
      CutThere, LeavesNothingOut, Reaches;
    var spans := s.spans;
    forall k | 0 <= k <= i ensures Gapless(spans[k]) {
      assert Spans(s.received, spans[k], s.calls[k]);
      NothingLeftOut(s.received, spans[k]);
    }
    SegmentsJoin(s.handler, s.start, s.received, s.calls, spans, 0, i);
    CallsComeFromTheStream(s, 0);
    assert Spans(s.received, spans[i], s.calls[i]);
    SuffixOfPrefix(s.received, spans[i].front, spans[i].end);
    assert s.calls[0..i + 1] == s.calls[..i + 1] && s.received[0..spans[i].end] == s.received[..spans[i].end];
  }

  /** A handler that asks to keep the buffer and consumes nothing itself sees all segments so far in it. */
  lemma {:induction false} WholeIsAllSegments(s: State, i: nat)
    requires s.Valid() && i < |s.calls| == |s.spans| && forall k :: 0 <= k <= i ==> LeavesNothingOut(s.spans[k].config)
    requires forall k :: 0 < k <= i ==> s.spans[k].config.options.doNotConsume && s.handler(s.calls[..k]).consumed == 0
    ensures s.calls[i].whole == Concat(s.calls[..i + 1])
  {
    hide State.Valid, LeavesNothingOut, Concat;
    SegmentsAreTheStream(s, i);
    NeverConsumed(s, i);
  }

  lemma {:induction false} NeverConsumed(s: State, i: nat)
    requires s.Valid() && i < |s.calls| == |s.spans|
    requires forall k :: 0 < k <= i ==> s.spans[k].config.options.doNotConsume && s.handler(s.calls[..k]).consumed == 0
    ensures s.spans[i].front == 0
  {
    hide State.Valid, Ignored;
    CallsComeFromTheStream(s, i);
    if i > 0 {
      CallsComeFromTheStream(s, i - 1);
      NeverConsumed(s, i - 1);
    }
  }

  /** With one configuration and consumption the storage never outgrows the read buffer size. */
  lemma StorageIsBounded(s: State)
    requires s.Valid() && s.Steady()
    ensures |s.view.storage| <= s.start.limit
  {
    hide Traced, Reaches, Frames, CutDelim, HeaderOf, CutOf, State.Linked, State.Phase, State.Conserved;
  }

  /** A varint is collected one byte at a time, so never a byte past its end is asked for. */
  lemma VarintAsksForOneByte(s: State)
    requires s.Valid() && s.pending.Exactly? && s.pending.next.ThenPrefix? && s.pending.next.isVar
    ensures s.pending.need == 1 && s.pending.got == 0
    ensures forall i :: 0 <= i < s.view.internalSize ==> PrefixCodec.Continues(s.view.Internal()[i])
  {
    hide Traced, Reaches, Frames, CutDelim, HeaderOf, CutOf, State.Linked, State.Bounded, State.Conserved;
  }

  /** An async_read never asks for a byte beyond the frame, nor for less than all of it. */
  lemma AsksForTheRest(s: State)
    requires s.Valid() && s.pending.Exactly? && s.pending.next.ThenFrame?
    ensures var missing := s.pending.need - s.pending.got;
      && missing > 0
      && (s.config.protocol.Fixed? || IsPrefix(s.config.protocol))
      && (s.config.protocol.Fixed? ==> |s.Unread()| + missing == s.config.limit)
      && (IsPrefix(s.config.protocol) ==>
            var h := HeaderOf(s.config, s.Unread());
            h.Complete? && |s.Unread()| + missing == h.len + h.payload)
  {
    hide Traced, Reaches, Frames, CutDelim, HeaderOf, CutOf, State.Linked, State.Bounded, State.Conserved;
  }

  /** A session that refused the stream, or whose socket failed, is closing. */
  lemma ErrorsClose(s: State)
    requires s.Valid() && (Refused(s) || Broken(s))
    ensures s.status.Closing? && s.pending.Idle?
  {
    hide Traced, Reaches, Frames, CutDelim, HeaderOf, CutOf, State.Linked, State.Bounded, State.Conserved;
  }

  // ---- the length check of read_prefix ----

  /** The check meant: the whole frame fits the read buffer. */
  predicate Fits(c: Config, len: nat, value: nat) {
    if c.options.inclusivePrefix then len <= value <= c.limit else len + value <= c.limit
  }

  /** The 64-bit check accepts what does not fit in one case only: a plain eight-byte prefix near 2^64. */
  lemma CheckWrapsExactly(c: Config, s: seq<Byte>)
    requires IsPrefix(c.protocol) && HeaderLength(c, s) <= |s|
    requires HeaderLength(c, s) <= if c.protocol.PrefixVar? then 9 else 8
    ensures var len := HeaderLength(c, s);
      var value := PrefixCodec.Value(s[..len], c.protocol.PrefixVar?, c.options.littleEndian);
      && (Announced(c, len, value).Complete? <==> Fits(c, len, value))
      && (Announced(c, len, value).Wraps? <==>
            c.protocol.Prefix64? && !c.options.inclusivePrefix && TWO_64 <= value + 8 && value + 8 - TWO_64 <= c.limit)
  {
    var len := HeaderLength(c, s);
    var isVar := c.protocol.PrefixVar?;
    var value := PrefixCodec.Value(s[..len], isVar, c.options.littleEndian);
    ValueRange(s[..len], isVar, c.options.littleEndian);
    AnnouncedCases(c, len, value);
  }

  lemma ValueRange(p: seq<Byte>, isVar: bool, little: bool)
    requires if isVar then |p| <= 9 else |p| in {1, 2, 4, 8}
    ensures PrefixCodec.Value(p, isVar, little) <
      if isVar then 0x8000_0000_0000_0000 else if |p| == 8 then TWO_64 else 0x1_0000_0000
  {
    PrefixCodec.ValueBound(p, isVar, little);
    if isVar {
      PowMonotone(128, |p|, 9);
      PrefixCodec.Pow128();
    } else if |p| == 8 {
      PrefixCodec.Pow256();
    } else {
      PowMonotone(256, |p|, 4);
      assert Pow(256, 4) == 0x1_0000_0000;
    }
  }

  lemma AnnouncedCases(c: Config, len: nat, value: nat)
    requires len <= 9 && value < TWO_64 && (c.protocol.Prefix64? ==> len == 8)
    requires c.protocol.Prefix64? || value < 0x8000_0000_0000_0000
    ensures Announced(c, len, value).Complete? <==> Fits(c, len, value)
    ensures Announced(c, len, value).Wraps? <==>
      c.protocol.Prefix64? && !c.options.inclusivePrefix && TWO_64 <= value + 8 && value + 8 - TWO_64 <= c.limit
  {
    var payload := if c.options.inclusivePrefix then value - len else value;
    if payload >= 0 { LengthCheck(c, len, payload); }
  }

  // ---- a whole stream ----

  lemma PositionInStream(s: State)
    requires s.Valid() && !s.Lossy()
    ensures |s.dropped| + s.frameStart <= |s.received|
  {
    hide Traced, Reaches, Frames, CutDelim, HeaderOf, CutOf, State.Linked, State.Phase, State.Bounded;
  }

  lemma NotLossyWhileReading(s: State)
    requires s.Valid() && !s.pending.Idle?
    ensures !s.Lossy()
  {
    hide Traced, Reaches, Frames, CutDelim, HeaderOf, CutOf, State.Linked, State.Bounded, State.Conserved;
  }

  /**
   A stream is fed to a session in pieces whose sizes are asked for in cuts, as far as the session
   takes it. Whatever the cuts, the calls are those of the frame function.
   */
  method Feed(s: Session, stream: seq<Byte>, cuts: seq<nat>) returns (taken: nat)
    requires s.Valid()
    modifies s, s.buf
    ensures s.Valid() && Quiescent(s.Now())
    ensures taken <= |stream| && s.received == old(s.received) + stream[..taken]
    ensures taken < |stream| ==> s.Room() == 0
    ensures s.SocketFailed() <==> old(s.SocketFailed())
    ensures !s.unframed && !s.failure.Cancelled? ==>
      s.calls == Frames(s.handler, Point([], s.start, []), s.received).point.calls
  {
    hide State.Valid, Frames;
    taken := 0;
    var turn := 0;
    while (taken < |stream| && s.Room() > 0) || s.Due()
      invariant s.Valid() && taken <= |stream| && s.received == old(s.received) + stream[..taken]
      invariant s.SocketFailed() <==> old(s.SocketFailed())
      decreases |stream| - taken, if s.pending.Idle? then 0 else 1, |s.received| - s.FramePosition()
    {
      NotLossyWhileReading(s.Now());
      PositionInStream(s.Now());
      if s.Due() {
        s.Posted();
        if !s.pending.Idle? {
          NotLossyWhileReading(s.Now());
          PositionInStream(s.Now());
        }
      } else {
        var wanted := if turn < |cuts| && cuts[turn] > 0 then cuts[turn] else 1;
        var n := Min(wanted, Min(s.Room(), |stream| - taken));
        s.Deliver(stream[taken..taken + n]);
        assert stream[..taken] + stream[taken..taken + n] == stream[..taken + n];
        taken, turn := taken + n, turn + 1;
      }
    }
    Faithful(s.Now());
  }
}

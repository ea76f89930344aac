/**
 Which error a refused stream is given. It is a function of the bytes received; but a session that has
 to ask for a prefix may refuse before it has received all of it.
 */
module Refusals {
  import opened Bits
  import opened Buffers
  import opened Framing
  import opened SessionRead
  import opened ReadTheorems
  import PrefixCodec

  // ---- the exact condition ----

  /** A complete prefix that is wrong whatever the read buffer: too long, too small, or of a size that wraps. */
  predicate Flawed(c: Config, u: seq<Byte>)
    requires HeaderLength(c, u) <= |u|
  {
    var isVar, len := c.protocol.PrefixVar?, HeaderLength(c, u);
    if len > (if isVar then 9 else 8) then true
    else
      var value := PrefixCodec.Value(u[..len], isVar, c.options.littleEndian);
      if c.options.inclusivePrefix then value < len
      else c.protocol.Prefix64? && TWO_64 <= value + 8 && value + 8 - TWO_64 <= c.limit
  }

  lemma FlawedVerdict(c: Config, u: seq<Byte>)
    requires IsPrefix(c.protocol) && HeaderLength(c, u) <= |u| && Verdict(c, u) != NoFailure
    ensures Flawed(c, u) <==> Verdict(c, u) != MessageSize
  {
    hide PrefixCodec.Value, PrefixCodec.VarLength, Announced;
    if HeaderLength(c, u) <= if c.protocol.PrefixVar? then 9 else 8 { CheckWrapsExactly(c, u); }
  }

  /** The number a complete prefix of a length that can be decoded stands for. */
  function Number(c: Config, u: seq<Byte>): nat
    requires HeaderLength(c, u) <= |u|
  {
    PrefixCodec.Value(u[..HeaderLength(c, u)], c.protocol.PrefixVar?, c.options.littleEndian)
  }

  /**
   Which error is given when, one by one. A varint of ten bytes or more is too long for a number; an
   inclusive prefix must count at least itself; and the whole frame must fit the read buffer, its size
   being added up in 64 bits.
   */
  lemma ErrorsOneByOne(c: Config, u: seq<Byte>)
    requires IsPrefix(c.protocol) && HeaderLength(c, u) <= |u|
    ensures Verdict(c, u).ValueTooLarge? <==> c.protocol.PrefixVar? && HeaderLength(c, u) >= 10
    ensures var len := HeaderLength(c, u); !Verdict(c, u).ValueTooLarge? ==>
      var number := Number(c, u);
      && (Verdict(c, u).BadMessage? <==> c.options.inclusivePrefix && number < len)
      && (Verdict(c, u).NoFailure? <==>
            if c.options.inclusivePrefix then len <= number <= c.limit else len + number <= c.limit)
      && (Verdict(c, u).Aborted? <==>
            !c.options.inclusivePrefix && c.protocol.Prefix64? && TWO_64 <= 8 + number <= TWO_64 + c.limit)
      && Verdict(c, u) in {NoFailure, BadMessage, Aborted, MessageSize}
  {
    hide PrefixCodec.Value, PrefixCodec.VarLength, Announced;
    if !c.protocol.PrefixVar? { WidthIsShort(c, u); }
    if HeaderLength(c, u) <= if c.protocol.PrefixVar? then 9 else 8 { CheckWrapsExactly(c, u); }
  }

  lemma WidthIsShort(c: Config, u: seq<Byte>)
    requires IsPrefix(c.protocol) && !c.protocol.PrefixVar?
    ensures HeaderLength(c, u) <= 8
  {
  }

  /** A varint whose first nine bytes all have their top bit set is such a one, once its end is there. */
  lemma TenBytesAreTooLong(o: Options, limit: nat, delim: seq<Byte>, u: seq<Byte>, end: nat)
    requires 9 <= end < |u| && u[end] < 128 && (forall i :: 0 <= i < end ==> u[i] >= 128) && 0 < limit <= MAX_STORAGE
    ensures Verdict(Settings(PrefixVar, o, limit, delim), u) == ValueTooLarge
  {
    PrefixCodec.VarLengthUnique(u, end + 1);
  }

  /** The errors of the other protocols: of a delimiter out of reach, and of an enum value without a case. */
  lemma OtherErrors(c: Config, u: seq<Byte>)
    requires !IsPrefix(c.protocol)
    ensures Verdict(c, u) == match c.protocol
      case Unsupported => NotSupported
      case Nothing => NoFailure
      case Anything => NoFailure
      case Fixed => NoFailure
      case _ => NoDelimiter
  {
  }

  /** A prefix that is not complete is waited for, or refused if it is longer than the read buffer. */
  lemma IncompleteIsTooBig(c: Config, u: seq<Byte>)
    requires IsPrefix(c.protocol) && |u| < HeaderLength(c, u)
    ensures Verdict(c, u) == if c.limit < HeaderLength(c, u) then MessageSize else NoFailure
    ensures HeaderLength(c, u) == match c.protocol
      case Prefix8 => 1
      case Prefix16 => 2
      case Prefix32 => 4
      case Prefix64 => 8
      case _ => |u| + 1
  {
    hide PrefixCodec.Value;
    HeaderLengthGrows(c, u, []);
  }

  /** The length of a prefix, seen with less input. */
  lemma HeaderLengthGrows(c: Config, s: seq<Byte>, t: seq<Byte>)
    ensures HeaderLength(c, s) <= |s| ==> HeaderLength(c, s + t) == HeaderLength(c, s)
    ensures HeaderLength(c, s) <= HeaderLength(c, s + t)
    ensures c.protocol.PrefixVar? && |s| < HeaderLength(c, s) ==> HeaderLength(c, s) == |s| + 1
  {
    PrefixCodec.VarLengthExtend(s, t);
  }

  /** Two refusals of a frame, one with more input than the other. */
  lemma VerdictsAgree(c: Config, s: seq<Byte>, t: seq<Byte>)
    requires Verdict(c, s) != NoFailure
    ensures var u := s + t; var len := HeaderLength(c, u);
      && (Verdict(c, s) != Verdict(c, u) <==> IsPrefix(c.protocol) && |s| < len <= |u| && Flawed(c, u))
      && (IsPrefix(c.protocol) && |s| < len ==> Verdict(c, s) == MessageSize && c.limit < len)
  {
    hide PrefixCodec.Value, PrefixCodec.VarLength, Announced, Flawed;
    var u := s + t;
    var len := HeaderLength(c, u);
    HeaderLengthGrows(c, s, t);
    if IsPrefix(c.protocol) {
      if len <= |s| {
        assert HeaderLength(c, s) == len && u[..len] == s[..len];
      } else if len <= |u| {
        TooLongIsRefused(c, u);
        FlawedVerdict(c, u);
      }
    }
  }

  lemma TooLongIsRefused(c: Config, u: seq<Byte>)
    requires IsPrefix(c.protocol) && c.limit < HeaderLength(c, u)
    ensures Verdict(c, u) != NoFailure
  {
    hide PrefixCodec.Value, PrefixCodec.VarLength;
  }

  /** What the frame function has refused it refuses with more input. */
  lemma RefusedMore(h: Handler, start: Config, s: seq<Byte>, t: seq<Byte>)
    requires var end := Frames(h, Point([], start, []), s).end; end.Rejected? || end.Overflowed?
    ensures var o := Frames(h, Point([], start, []), s);
      Frames(h, Point([], start, []), s + t) == o.(rest := o.rest + t)
  {
    FramesSplit(h, Point([], start, []), s, t);
  }

  /**
   When two sessions with the same handler refuse the same stream, of which b has received at least as
   much as a, they give different errors exactly if a had to ask for the prefix, which cannot fit the
   read buffer, while b has all of it and it is wrong in itself. Then a says message_size.
   */
  lemma ErrorsDifferExactly(a: State, b: State)
    requires a.Valid() && !a.unframed && (Refused(a) || a.failure.Aborted?)
    requires b.Valid() && !b.unframed && (Refused(b) || b.failure.Aborted?)
    requires a.handler == b.handler && a.start == b.start && a.received <= b.received
    ensures a.Meaning().point == b.Meaning().point && a.Meaning().rest <= b.Meaning().rest
    ensures var c, s, u := b.Meaning().point.config, a.Meaning().rest, b.Meaning().rest; var len := HeaderLength(c, u);
      && (a.failure != b.failure <==> IsPrefix(c.protocol) && |s| < len <= |u| && Flawed(c, u))
      && (a.failure != b.failure ==> a.failure.MessageSize? && c.limit < len)
  {
    hide State.Valid, State.Meaning, Verdict, Flawed, HeaderLength;
    ErrorOfTheStream(a);
    ErrorOfTheStream(b);
    RefusedImplies(a);
    MeaningMore(a, b);
    VerdictsAgree(a.Meaning().point.config, a.Meaning().rest, b.received[|a.received|..]);
  }

  lemma MeaningMore(a: State, b: State)
    requires a.handler == b.handler && a.start == b.start && a.received <= b.received
    requires a.Meaning().end.Rejected? || a.Meaning().end.Overflowed?
    ensures b.Meaning() == a.Meaning().(rest := a.Meaning().rest + b.received[|a.received|..])
  {
    hide Frames;
    assert b.received == a.received + b.received[|a.received|..];
    RefusedMore(a.handler, a.start, a.received, b.received[|a.received|..]);
  }

  lemma RefusedImplies(s: State)
    requires Refused(s) || s.failure.Aborted?
    ensures s.failure != NoFailure
  {
  }

  // ---- prefixes that are asked for ----

  lemma EnteringViewIsValid(s: State)
    requires s.AtRead()
    ensures s.view.Valid()
  {
    hide Tracing.Traced, Tracing.Reaches, Frames, CutOf;
  }

  /** The prefix at the front of all is being collected, and j bytes of it are there. */
  ghost predicate Midway(s: State, c: Config, all: seq<Byte>, j: nat) {
    && s.view.Valid() && s.frameStart <= s.view.externalSize && s.config == c && j <= |all| && s.Unread() == all[..j]
    && var len := HeaderLength(c, all[..j]);
      && j < len <= c.limit && s.pending.Exactly? && s.pending.got < s.pending.need
      && s.pending.next == ThenPrefix(len, c.protocol.PrefixVar?) && s.pending.need - s.pending.got == len - j
  }

  /** What a session ends with that has the first of the bytes of a prefix when it begins. */
  ghost function Ending(c: Config, all: seq<Byte>, first: nat): Failure {
    if first < HeaderLength(c, all) && c.limit < HeaderLength(c, all) then MessageSize else Verdict(c, all)
  }

  /** A look at the first j bytes. */
  lemma LookedAt(n: State, c: Config, all: seq<Byte>, first: nat, j: nat, calls: seq<Call>)
    requires IsPrefix(c.protocol) && HeaderLength(c, all) <= |all| && Verdict(c, all) != NoFailure
    requires j <= |all| && (j < HeaderLength(c, all) || j == |all|) && (first < HeaderLength(c, all) || first == j)
    requires PrefixOutcome(c, all[..j], calls, n)
    requires first < HeaderLength(c, all) && j == |all| ==> HeaderLength(c, all) <= c.limit
    requires j < HeaderLength(c, all) ==> first <= j
    ensures n.calls == calls
    ensures if n.pending.Idle? then n.failure == Ending(c, all, first)
      else j < HeaderLength(c, all) && Midway(n, c, all, j)
  {
    hide Verdict, HeaderLength;
    assert all == all[..j] + all[j..];
    HeaderLengthGrows(c, all[..j], all[j..]);
    if j == |all| {
      assert all[..j] == all;
    } else {
      CannotFit(c, all[..j]);
    }
  }

  /** One more piece of it. */
  lemma OnePieceMore(s: State, n: State, c: Config, all: seq<Byte>, first: nat, j: nat, size: nat)
    requires IsPrefix(c.protocol) && HeaderLength(c, all) == |all| && Verdict(c, all) != NoFailure
    requires first <= j && 0 < size && j + size <= |all| && first < |all|
    requires Midway(s, c, all, j) && Awaiting(s) && size <= s.pending.need - s.pending.got
      && PieceOutcome(s, all[j..j + size], n)
    ensures n.calls == s.calls
    ensures if n.pending.Idle? then n.failure == Ending(c, all, first)
      else j + size < |all| && Midway(n, c, all, j + size)
  {
    hide Verdict, HeaderLength, PrefixOutcome, Ending, Midway;
    PieceFits(s, c, all, j, size);
    if s.pending.got + size == s.pending.need {
      LookedAt(n, c, all, first, j + size, s.calls);
    } else {
      StillMidway(s, c, all, j, size);
    }
  }

  /** Where a piece goes, and that the last one completes a prefix that fits the read buffer. */
  lemma PieceFits(s: State, c: Config, all: seq<Byte>, j: nat, size: nat)
    requires Midway(s, c, all, j) && j + size <= |all| && size <= s.pending.need - s.pending.got
    ensures s.config == c && s.view.Valid() && s.frameStart <= s.view.externalSize
    ensures s.pending.next.ThenPrefix? && s.Unread() + all[j..j + size] == all[..j + size]
    ensures s.pending.got + size == s.pending.need ==> j + size <= c.limit
  {
    hide HeaderLength;
    assert all[..j] + all[j..j + size] == all[..j + size];
  }

  /** Not yet the last one. */
  lemma StillMidway(s: State, c: Config, all: seq<Byte>, j: nat, size: nat)
    requires Midway(s, c, all, j) && Awaiting(s) && j + size <= |all|
    requires 0 < size < s.pending.need - s.pending.got
    ensures var n := s.Filling(all[j..j + size]);
      n.calls == s.calls && !n.pending.Idle? && Midway(n, c, all, j + size) && j + size < HeaderLength(c, all)
  {
    hide PrefixCodec.VarLength;
    var piece := all[j..j + size];
    assert all[..j] + piece == all[..j + size];
    HeaderLengthGrows(c, all[..j], piece);
    FillingReads(s, piece);
  }

  /** What it wants next. */
  lemma MidwayRoom(s: Session, c: Config, all: seq<Byte>, j: nat)
    requires Midway(s.Now(), c, all, j)
    ensures 0 < s.Room() == s.pending.need - s.pending.got && s.pending.Exactly?
  {
    hide HeaderLength;
  }

  /**
   What becomes of a prefix that is not accepted, buffered in part or whole when the frame begins and
   completed in any pieces. If it has to be asked for and is longer than the read buffer, it is refused
   with message_size before it is complete. In every other case the verdict on all of it stands.
   */
  method RefusalDependsOnBuffering(s: Session, rest: seq<Byte>, cuts: seq<nat>)
    requires s.Now().AtRead() && !s.status.Closing? && IsPrefix(s.config.protocol)
    requires var u, len := s.Now().view.Internal(), HeaderLength(s.config, s.Now().view.Internal() + rest);
      && len <= |u + rest| && Verdict(s.config, u + rest) != NoFailure
      && if |u| < len then |u + rest| == len else rest == []
    modifies s, s.buf
    ensures s.Valid() && s.pending.Idle? && s.calls == old(s.calls)
    ensures s.failure == old(Ending(s.config, s.Now().view.Internal() + rest, |s.Now().view.Internal()|))
  {
    hide Tracing.Traced, Tracing.Reaches, Frames, CutOf, State.Valid, State.AtRead, Verdict, PrefixOutcome,
      PieceOutcome, Awaiting, HeaderLength, Ending, Midway;
    EnteringViewIsValid(s.Now());
    ghost var c, u := s.config, s.Now().view.Internal();
    ghost var all := u + rest;
    s.Read();
    assert all[..|u|] == u;
    LookedAt(s.Now(), c, all, |u|, |u|, old(s.calls));
    var k, turn := 0, 0;
    while k < |rest| && !s.pending.Idle?
      invariant s.Valid() && s.calls == old(s.calls) && k <= |rest|
      invariant if s.pending.Idle? then s.failure == Ending(c, all, |u|)
        else |u| + k < HeaderLength(c, all) && Midway(s.Now(), c, all, |u| + k)
    {
      MidwayRoom(s, c, all, |u| + k);
      var wanted := if turn < |cuts| && cuts[turn] > 0 then cuts[turn] else 1;
      var n := Min(wanted, Min(s.Room(), |rest| - k));
      ghost var before := s.Now();
      assert rest[k..k + n] == all[|u| + k..|u| + k + n];
      s.Deliver(rest[k..k + n]);
      OnePieceMore(before, s.Now(), c, all, |u|, |u| + k, n);
      k, turn := k + n, turn + 1;
    }
  }

  // ---- two sessions that show it ----

  /** A line, then frames with a prefix of eight bytes in a buffer of four. */
  const LINES: Config := Settings(DelimLf, NO_OPTIONS, 16, [])
  const WIDE: Config := Settings(Prefix64, Options(false, false, true, true), 4, [])

  function Switch(calls: seq<Call>): Reaction { Continue(0, WIDE) }

  /** An empty line, then a prefix that counts itself and yet announces three bytes in all. */
  const TOO_SMALL: seq<Byte> := [10, 3, 0, 0, 0, 0, 0, 0, 0]

  lemma LineIsCut(u: seq<Byte>)
    requires 0 < |u| <= 16 && u[0] == 10
    ensures CutOf(LINES, u) == Frame(0, 1, 0)
  {
    assert Occurs(u, [10], 0);
    FindFirst(u, [10], 0);
  }

  lemma WideIsRefused(u: seq<Byte>)
    ensures CutOf(WIDE, u).Reject?
  {
  }

  lemma AfterTheLine(u: seq<Byte>)
    requires 0 < |u| <= 16 && u[0] == 10
    ensures var o := Frames(Switch, Point([], LINES, []), u);
      o.point.config == WIDE && o.rest == u[1..] && o.end.Rejected?
  {
    var first, cut := Point([], LINES, []), Frame(0, 1, 0);
    LineIsCut(u);
    WideIsRefused(u[1..]);
    hide CutOf;
    FramesStep(Switch, first, u);
  }

  lemma ThreeIsTooSmall()
    ensures Verdict(WIDE, TOO_SMALL[1..]) == BadMessage && Verdict(WIDE, []) == MessageSize
  {
    var p, zeros := TOO_SMALL[1..], [0, 0, 0, 0, 0, 0, 0];
    PrefixCodec.SumPadded([3], zeros, 256);
    assert PrefixCodec.DigitsOf(p, false, true) == [3] + zeros;
    assert PrefixCodec.Sum([3], 256) == 3 + 256 * PrefixCodec.Sum([], 256);
    assert p[..8] == p;
  }

  /** A session that has received a line feed and up to 15 more bytes has refused those. */
  lemma RefusedAfterTheLine(s: State)
    requires s.Valid() && Quiescent(s) && !Broken(s) && s.handler == Switch && s.start == LINES
    requires 0 < |s.received| <= 16 && s.received[0] == 10
    ensures s.failure == Verdict(WIDE, s.received[1..])
  {
    hide State.Valid, Frames, Verdict;
    AfterTheLine(s.received);
    Faithful(s);
    ErrorOfTheStream(s);
  }

  /**
   Two new sessions with the same handler and settings, waiting in async_read_until. One is sent all of
   the stream in one piece, for which its search has made room; the other only the line feed at first.
   Both refuse it, with different errors.
   */
  method TwoErrors(a: Session, b: Session)
    requires a.Valid() && a.handler == Switch && a.start == LINES && a.received == [] && a.Room() >= |TOO_SMALL|
    requires b.Valid() && b.handler == Switch && b.start == LINES && b.received == [] && b.Room() >= 1
    requires a != b && a.buf != b.buf
    modifies a, a.buf, b, b.buf
    ensures a.Valid() && a.received == TOO_SMALL && a.failure == BadMessage
    ensures b.Valid() && b.received == TOO_SMALL[..1] && b.failure == MessageSize && b.pending.Idle?
  {
    hide State.Valid, Verdict;
    a.Deliver(TOO_SMALL);
    var none := Feed(a, [], []);
    RefusedAfterTheLine(a.Now());
    b.Deliver(TOO_SMALL[..1]);
    none := Feed(b, [], []);
    RefusedAfterTheLine(b.Now());
    WaitsUnlessStopped(b.Now());
    ThreeIsTooSmall();
  }
}

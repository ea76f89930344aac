/**
 The read side of a session: session::read and its helpers, with the composed reads of asio they
 start. One method call of the environment delivers one piece of input; everything the session does
 until it waits again happens inside that call. Module Framing's frame function is what the
 invariant measures it against.
 */
module SessionRead {
  import opened Bits
  import opened Buffers
  import opened Framing
  import opened Slices
  import opened Tracing
  import opened Wrappers
  import PrefixCodec

  datatype Status = Connected | Reading | Closing

  /** Cancelled: an error of an async_read_until that needed nothing more. Aborted: the assertion in read_fixed. */
  datatype Failure =
    | NoFailure | MessageSize | ValueTooLarge | BadMessage | NotSupported | NoDelimiter | IoError | Cancelled | Aborted

  /** What an async_read does with its bytes: end a frame, or look at a longer prefix. */
  datatype Then = ThenFrame | ThenPrefix(len: nat, isVar: bool)

  /**
   The asynchronous operation in progress. For Until: no delimiter starts before search; room bytes
   at the end of the storage are not valid yet; with no room the operation has ended and its
   callback is due, found being the end of the first delimiter.
   */
  datatype Pending =
    | Idle
    | SomeBytes(room: nat)
    | Exactly(need: nat, got: nat, next: Then)
    | Until(delim: seq<Byte>, ignore: bool, search: nat, room: nat, found: Option<nat>)

  /** The length check of read_prefix accepts this announced size only because its sum wraps. */
  ghost predicate Wrapping(c: Config, s: seq<Byte>) {
    IsPrefix(c.protocol)
    && var isVar, len := c.protocol.PrefixVar?, HeaderLength(c, s);
      len <= |s| && len <= (if isVar then 9 else 8)
      && Announced(c, len, PrefixCodec.Value(s[..len], isVar, c.options.littleEndian)).Wraps?
  }

  /**
   The error a session ends with that refuses input u of a frame; for a wrapping size, the failed
   assertion. It depends on u alone, and for a prefix on whether u has all of it.
   */
  ghost function Verdict(c: Config, u: seq<Byte>): Failure {
    var isVar, len := c.protocol.PrefixVar?, HeaderLength(c, u);
    if c.protocol.Unsupported? then NotSupported
    else if IsDelim(c.protocol) then NoDelimiter
    else if !IsPrefix(c.protocol) then NoFailure
    else if |u| < len then if len > c.limit then MessageSize else NoFailure
    else if len > (if isVar then 9 else 8) then ValueTooLarge
    else AnnouncedVerdict(c, len, PrefixCodec.Value(u[..len], isVar, c.options.littleEndian))
  }

  /** The same for a complete prefix of acceptable length. */
  ghost function AnnouncedVerdict(c: Config, len: nat, value: nat): Failure {
    if Announced(c, len, value).Complete? then NoFailure
    else if Announced(c, len, value).Wraps? then Aborted
    else if c.options.inclusivePrefix && value < len then BadMessage
    else MessageSize
  }

  /** What is in s at position i differs from d, whatever follows s. */
  ghost predicate CannotStart(s: seq<Byte>, d: seq<Byte>, i: nat) {
    exists x: nat :: x < |d| && i + x < |s| && s[i + x] != d[x]
  }

  lemma CannotStartExtend(s: seq<Byte>, t: seq<Byte>, d: seq<Byte>, i: nat)
    requires CannotStart(s, d, i)
    ensures CannotStart(s + t, d, i) && !Occurs(s, d, i)
  {
    var x: nat :| x < |d| && i + x < |s| && s[i + x] != d[x];
    assert (s + t)[i + x] != d[x];
    assert i + |d| <= |s| ==> s[i..i + |d|][x] != d[x];
  }

  /** The fields of a session and of its buffer at one moment. */
  datatype State = State(
    handler: Handler,
    start: Config,          // the settings it began with
    view: View,
    status: Status,
    config: Config,
    pending: Pending,
    failure: Failure,
    calls: seq<Call>,
    received: seq<Byte>,    // everything that came from the socket
    dropped: seq<Byte>,     // consumed from the front of the buffer
    frameStart: nat,        // external bytes in front of the frame being read
    unframed: bool,         // some frame was cut by arrival, not by content
    spans: seq<Span>)       // where in the stream the calls come from
  {
    /** Reading a frame. */
    ghost predicate Active() {
      && status.Reading? && failure.NoFailure? && frameStart <= view.externalSize
      && (!config.options.doNotConsume ==> frameStart == 0)
    }

    /** Bytes the running operation has put into the output region. */
    ghost function Arrived(): nat
      requires view.Valid()
    {
      match pending
      case Exactly(need, got, _) => Min(got, view.OutputSize())
      case Until(_, _, _, room, _) => view.OutputSize() - Min(room, view.OutputSize())
      case _ => 0
    }

    /** The end of the bytes in the storage that came from the socket. */
    ghost function Limit(): (n: nat)
      requires view.Valid()
      ensures n <= |view.storage|
    {
      view.Filled() + Arrived()
    }

    /** All input since the frame began. */
    ghost function Unread(): (s: seq<Byte>)
      requires view.Valid() && frameStart <= view.externalSize
    {
      view.storage[frameStart..Limit()]
    }

    ghost function Here(): Point
      requires view.Valid() && frameStart <= view.externalSize
    {
      Point(calls, config, view.storage[..frameStart])
    }

    /** What the frame function makes of everything received so far. */
    ghost function Meaning(): Outcome { Frames(handler, Point([], start, []), received) }

    /** Framing was given up somewhere, and up to there the session did what the frame function says. */
    ghost predicate GaveUp() { Meaning().end.Opaque? && Meaning().point.calls <= calls }

    /** The session stands where reading unread from point p would. */
    ghost predicate Linked(p: Point, unread: seq<Byte>) {
      if unframed then GaveUp() else Meaning() == Frames(handler, p, unread)
    }

    /** The handler never changes the settings and lets the session consume what it has seen. */
    ghost predicate Steady() {
      !start.options.doNotConsume && forall cs :: handler(cs).Continue? ==> handler(cs).config == start
    }

    ghost predicate Bounded() {
      Steady() ==> config == start && |view.storage| <= config.limit
    }

    ghost predicate Conserved()
      requires view.Valid()
    {
      dropped + view.storage[..Limit()] == received
    }

    /** The calls are traced to the stream. */
    ghost predicate Traces() { Traced(handler, start, received, calls, spans) }

    /** The frame that begins at pos, with the buffer beginning at front, is the next one. */
    ghost predicate NextAt(front: nat, pos: nat) { Reaches(handler, start, calls, spans, config, front, pos) }

    /** A fixed number of bytes, size after what is external already, ends the frame. */
    ghost predicate FrameAhead(size: nat)
      requires view.Valid() && frameStart <= view.externalSize
    {
      var len := view.externalSize - frameStart;
      && frameStart <= view.segment.size <= view.externalSize
      && 0 < len + size <= config.limit
      && (config.protocol.Fixed? || IsPrefix(config.protocol))
      && (config.protocol.Fixed? ==> len == 0 && size == config.limit)
      && (IsPrefix(config.protocol) ==>
            && len > 0 && HeaderOf(config, Unread()) == Complete(len, size)
            && view.segment.size == frameStart + if config.options.ignoreProtocolBytes then len else 0)
    }

    /** A prefix of len bytes is being collected and the bytes so far do not complete it. */
    ghost predicate PrefixAhead(len: nat, isVar: bool)
      requires view.Valid()
    {
      && IsPrefix(config.protocol) && isVar == config.protocol.PrefixVar?
      && frameStart == view.externalSize == view.segment.size
      && if isVar then len == view.internalSize + 1 && PrefixCodec.VarLength(view.Internal()) == len
         else len == Width(config.protocol)
    }

    ghost predicate DelimAhead(delim: seq<Byte>, ignore: bool) {
      && IsDelim(config.protocol) && delim == DelimiterOf(config) != []
      && ignore == config.options.ignoreProtocolBytes
      && frameStart == view.externalSize == view.segment.size
    }

    /** Looking for the delimiter, which can still begin at search but not before. */
    ghost predicate Searching(delim: seq<Byte>, ignore: bool, search: nat)
      requires view.Valid()
    {
      && DelimAhead(delim, ignore)
      && search <= |Unread()| && search <= config.limit
      && forall j: nat :: j < search ==> CannotStart(Unread(), delim, j)
    }

    /** The search of async_read_until has ended. */
    ghost predicate Found(delim: seq<Byte>, ignore: bool, found: Option<nat>)
      requires view.Valid()
    {
      && DelimAhead(delim, ignore)
      && match found
         case None => CutDelim(config, Unread()).Reject?
         case Some(end) =>
           && |delim| <= end <= |Unread()|
           && CutDelim(config, Unread()) == if ignore then Frame(0, end - |delim|, |delim|) else Frame(0, end, 0)
    }

    /** An async_read has all it needs to know about the frame, whether or not it has all its bytes. */
    ghost predicate Collecting()
      requires view.Valid()
    {
      && pending.Exactly? && Active() && pending.got <= pending.need == view.OutputSize()
      && match pending.next
         case ThenFrame => FrameAhead(view.internalSize + pending.need)
         case ThenPrefix(len, isVar) =>
           len == view.internalSize + pending.need <= config.limit && PrefixAhead(len, isVar)
    }

    /** What the operation in progress promises about the frame it works on. */
    ghost predicate Phase()
      requires view.Valid() && frameStart <= view.externalSize
    {
      match pending
      case Idle => Stopped()
      case SomeBytes(room) =>
        && Active() && unframed && CutOf(config, Unread()).Unframed? && room == view.OutputSize() == config.limit
        && frameStart == view.externalSize == view.segment.size && view.internalSize == 0
      case Exactly(need, got, _) => Collecting() && got < need
      case Until(delim, ignore, search, room, found) =>
        && Active() && room <= view.OutputSize()
        && if room > 0 then
             && found.None? && Searching(delim, ignore, search)
             && |Unread()| + room <= config.limit && CutDelim(config, Unread()).More?
           else Found(delim, ignore, found)
    }

    /** Why no operation is in progress. */
    ghost predicate Stopped()
      requires view.Valid() && frameStart <= view.externalSize
    {
      match failure
      case NoFailure => status.Closing? || (status.Connected? && config.protocol.Nothing?)
      case IoError => status.Closing?
      case Cancelled => status.Closing? && IsDelim(config.protocol)
      case NoDelimiter => status.Closing? && IsDelim(config.protocol)
      case Aborted => Wrapping(config, Unread())
      case _ => status.Closing? && CutOf(config, Unread()).Reject? && failure == Verdict(config, Unread())
    }

    /** The handler closed the session; the frame function stops there too. */
    ghost predicate ClosedHere()
      requires view.Valid()
    {
      if unframed then GaveUp()
        else Meaning() == Outcome(Point(calls, config, view.External()), view.Internal(), Closed)
    }

    /** The failures whose callback leaves without committing what its operation had received. */
    ghost predicate Lossy() { failure.IoError? || failure.Cancelled? || failure.NoDelimiter? }

    /**
     Such a failure: the calls are all there were to make, but for an error that hid a frame already
     there, and only a missing delimiter is a rejection.
     */
    ghost predicate BrokenHere() {
      if unframed then GaveUp()
      else if failure.Cancelled? then calls <= Meaning().point.calls
      else Meaning().point.calls == calls && if failure.IoError? then Meaning().end.Waiting?
        else Meaning().end.Rejected? && Meaning().point.config == config
    }

    ghost predicate Valid() {
      && view.Valid() && frameStart <= view.externalSize && Bounded() && Phase()
      && (Lossy() || Conserved()) && Traces()
      && if Lossy() then BrokenHere() && NextAt(|dropped|, |dropped| + frameStart)
         else if failure.NoFailure? && status.Closing? then ClosedHere()
         else Linked(Here(), Unread()) && NextAt(|dropped|, |dropped| + frameStart)
    }

    /** What holds of a session wherever it is inside a frame. */
    ghost predicate InFrame() {
      && view.Valid() && Active() && Conserved() && Bounded() && Linked(Here(), Unread())
      && Traces() && NextAt(|dropped|, |dropped| + frameStart)
    }

    /** In the middle of the session's own code: no operation is in progress yet. */
    ghost predicate Mid() {
      pending.Idle? && InFrame()
    }

    /** At the top of the search loop of async_read_until. */
    ghost predicate Scanning() {
      && InFrame() && pending.Until? && pending.room == 0
      && Searching(pending.delim, pending.ignore, pending.search)
    }

    /** About to call session::read: where the next frame starts depends on what is consumed first. */
    ghost predicate AtRead() {
      && pending.Idle? && failure.NoFailure? && view.Valid() && Conserved() && Bounded() && Traces()
      && if status.Closing? then ClosedHere()
         else
           && Linked(Point(calls, config, Keep(config, view.External())), view.Internal())
           && NextAt(|dropped| + (if config.options.doNotConsume then 0 else view.externalSize),
                |dropped| + view.externalSize)
    }

    // ---- the steps of the code, as functions ----

    function Entered(): State
      requires view.Valid()
    {
      var keep := config.options.doNotConsume;
      var v := (if keep then view else view.ConsumedExternal(view.externalSize)).Marked();
      this.(status := Reading, view := v, frameStart := v.externalSize,
        dropped := if keep then dropped else dropped + view.External())
    }

    /** Where the call about to be made comes from. */
    function SpanHere(trailer: nat): Span {
      var d := |dropped|;
      Span(config, d, d + frameStart, d + view.segment.size, d + view.externalSize, d + view.externalSize + trailer)
    }

    /** The handler is called with the segment added since the mark. */
    function Called(trailer: nat): State
      requires view.Valid()
    {
      var region := view.MovedOn().segment;
      var call := Call(view.storage[region.begin..region.begin + region.size], view.External());
      this.(calls := calls + [call], spans := spans + [SpanHere(trailer)], view := view.MovedOn())
    }

    /** Its reaction takes effect. */
    function Reacted(reaction: Reaction): State
      requires view.Valid()
    {
      this.(dropped := dropped + view.storage[..Min(reaction.consumed, view.externalSize)],
        view := view.Consumed(reaction.consumed),
        status := if reaction.Quit? then Closing else status,
        config := if reaction.Quit? then config else reaction.config)
    }

    /** Then trailer bytes are passed over. */
    function HandedOver(trailer: nat): State
      requires view.Valid()
    {
      var c := Called(trailer);
      var n := c.Reacted(handler(c.calls));
      n.(view := n.view.Exposed(trailer))
    }

    ghost predicate CanHandOver(trailer: nat) {
      && Mid() && trailer <= view.internalSize && frameStart < view.externalSize + trailer
      && frameStart <= view.segment.size <= view.externalSize
      && var cut := CutOf(config, Unread());
        if cut.Unframed? then unframed && trailer == 0 && view.segment.size == frameStart else cut == CutHere(trailer)
    }

    ghost function CutHere(trailer: nat): Cut
      requires frameStart <= view.segment.size && frameStart <= view.externalSize
    {
      Frame(view.segment.size - frameStart, view.externalSize - frameStart, trailer)
    }

    /** The socket fills part of the region prepared for an async_read. */
    function Filling(piece: seq<Byte>): State
      requires view.Valid() && pending.Exactly? && pending.got + |piece| <= view.OutputSize()
    {
      this.(view := view.Put(pending.got, piece), received := received + piece,
        pending := pending.(got := pending.got + |piece|))
    }

    function Completed(): State
      requires view.Valid() && pending.Exactly?
    {
      this.(view := view.ReceivedInternal(pending.need), pending := Idle)
    }

    /** A read_until receives into the room it made and gives back what was not used. */
    function Extended(piece: seq<Byte>): State
      requires view.Valid() && pending.Until? && |piece| <= pending.room <= view.OutputSize()
    {
      this.(view := view.Put(view.OutputSize() - pending.room, piece).Shrunk(pending.room - |piece|),
        received := received + piece, pending := pending.(room := 0))
    }

    /** An async_read_some has delivered one piece, all of which goes to the handler. */
    function Snatched(piece: seq<Byte>): State
      requires view.Valid() && |piece| <= view.OutputSize()
    {
      this.(view := view.Put(0, piece).ReceivedInternal(|piece|).ExposedWhole(),
        received := received + piece, pending := Idle)
    }
  }

  // ---- each step keeps the session linked to the frame function ----

  /** A session that has not read anything yet. */
  lemma Fresh(s: State)
    requires s.view == View([], 0, 0, Region(0, 0)) && s.config == s.start && s.status.Connected? && s.pending.Idle?
    requires s.failure.NoFailure? && s.calls == [] && s.received == [] && s.dropped == [] && !s.unframed
      && s.spans == []
    ensures s.AtRead()
  {
    hide Frames, CutOf;
    assert s.view.Internal() == [] && s.view.External() == [];
  }

  lemma EnteredReads(s: State)
    requires s.pending.Idle? && s.view.Valid() && s.Conserved()
    ensures var e := s.Entered();
      && e.view.Valid() && e.frameStart == e.view.externalSize && e.Conserved() && |e.view.storage| <= |s.view.storage|
      && e.Unread() == s.view.Internal() && e.Here() == Point(s.calls, s.config, Keep(s.config, s.view.External()))
      && |e.dropped| == |s.dropped| + (if s.config.options.doNotConsume then 0 else s.view.externalSize)
  {
    hide Traced, Reaches, Frames, CutOf;
    var b, x := s.view.storage, s.view.externalSize;
    assert b[..s.view.Filled()] == b[..x] + b[x..][..s.view.internalSize];
    assert s.dropped + (b[..x] + b[x..][..s.view.internalSize]) == s.dropped + b[..x] + b[x..][..s.view.internalSize];
  }

  lemma EnteringRead(s: State)
    requires s.AtRead() && !s.status.Closing?
    ensures s.Entered().Mid()
    ensures s.Entered().Unread() == s.view.Internal()
  {
    hide Traced, Reaches, Frames, CutOf, State.Linked;
    var e := s.Entered();
    EnteredReads(s);
    LinkDepends(s, e, e.Here(), e.Unread());
  }

  lemma ReadWhenClosing(s: State)
    requires s.AtRead() && s.status.Closing?
    ensures s.(frameStart := s.view.externalSize).Valid()
  {
    hide Traced, Reaches;
  }

  lemma HandingOver(s: State, trailer: nat)
    requires s.CanHandOver(trailer)
    ensures s.HandedOver(trailer).AtRead()
    ensures s.HandedOver(trailer).view.internalSize < |s.Unread()|
    ensures s.calls <= s.HandedOver(trailer).calls
  {
    hide Frames, CutOf, State.Linked, State.Conserved, State.Bounded, State.Traces, State.NextAt, State.ClosedHere;
    HandOverConserves(s, trailer);
    HandOverTraces(s, trailer);
    if s.unframed { HandOverGaveUp(s, trailer); } else { HandOverLinks(s, trailer); }
  }

  /** Once framing was given up, the calls made before stay a prefix. */
  lemma HandOverGaveUp(s: State, trailer: nat)
    requires s.CanHandOver(trailer) && s.unframed
    ensures var n := s.HandedOver(trailer); if n.status.Closing? then n.ClosedHere()
      else n.Linked(Point(n.calls, n.config, Keep(n.config, n.view.External())), n.view.Internal())
  {
    hide Traced, Reaches, Frames, CutOf, State.Conserved, State.Bounded;
  }

  /** The call comes from where the frame is. */
  lemma HandOverTraces(s: State, trailer: nat)
    requires s.CanHandOver(trailer)
    ensures var n := s.HandedOver(trailer);
      && n.Traces()
      && (!n.status.Closing? ==>
            n.NextAt(|n.dropped| + (if n.config.options.doNotConsume then 0 else n.view.externalSize),
              |n.dropped| + n.view.externalSize))
  {
    hide Frames, CutOf, State.Linked, State.Bounded, Traced;
    var n := s.HandedOver(trailer);
    SpanFits(s, trailer);
    TracedExtends(s.handler, s.start, s.received, s.calls, s.spans, s.SpanHere(trailer), n.calls[|s.calls|]);
  }

  /** A piece of the storage is a piece of what was received. */
  lemma ReadFrom(s: State, i: nat, j: nat)
    requires s.view.Valid() && s.Conserved() && s.pending.Idle? && i <= j <= s.view.Filled()
    ensures |s.received| == |s.dropped| + s.view.Filled()
    ensures s.received[|s.dropped| + i..|s.dropped| + j] == s.view.storage[i..j]
  {
    var b := s.view.storage[..s.view.Filled()];
    assert s.received == s.dropped + b;
    SliceBehind(s.dropped, b, i, j);
    SliceOfPrefix(s.view.storage, |b|, i, j);
  }

  /** The frame is cut there. */
  lemma SpanCut(s: State, trailer: nat)
    requires s.CanHandOver(trailer)
    ensures Ordered(s.SpanHere(trailer), |s.received|) && CutThere(s.received, s.SpanHere(trailer))
  {
    hide Frames, CutOf, State.Linked, State.Bounded, State.Traces, State.NextAt;
    ReadFrom(s, s.frameStart, s.view.Filled());
    var sp := s.SpanHere(trailer);
    assert s.received[sp.from..|s.received|] == s.received[sp.from..];
    hide State.Conserved;
  }

  lemma CallMade(s: State, trailer: nat)
    requires s.view.Valid() && s.view.segment.size <= s.view.externalSize
    ensures |s.HandedOver(trailer).calls| == |s.calls| + 1
    ensures s.HandedOver(trailer).calls[|s.calls|] ==
      Call(s.view.storage[s.view.segment.size..s.view.externalSize], s.view.External())
  {
  }

  lemma SpanFits(s: State, trailer: nat)
    requires s.CanHandOver(trailer)
    ensures Spans(s.received, s.SpanHere(trailer), s.HandedOver(trailer).calls[|s.calls|])
  {
    hide Frames, CutOf, CutThere, State.Linked, State.Bounded, State.Conserved, State.Traces, State.NextAt,
      State.HandedOver;
    SpanCut(s, trailer);
    CallMade(s, trailer);
    ReadFrom(s, s.view.segment.size, s.view.externalSize);
    ReadFrom(s, 0, s.view.externalSize);
    assert s.view.storage[0..s.view.externalSize] == s.view.External();
  }

  lemma HandOverDropped(s: State, trailer: nat)
    requires s.view.Valid() && s.pending.Idle? && s.Bounded()
    ensures var n := s.HandedOver(trailer);
      && n.dropped == s.dropped + s.view.storage[..Min(s.handler(n.calls).consumed, s.view.externalSize)]
      && n.received == s.received && n.pending == s.pending && |n.view.storage| <= |s.view.storage| && n.Bounded()
  {
  }

  /** What leaves the front of the storage is what was dropped. */
  lemma ConsumedConserves(v: View, dropped: seq<Byte>, n: nat, t: nat)
    requires v.Valid() && t <= v.internalSize
    ensures var w, k := v.MovedOn().Consumed(n).Exposed(t), Min(n, v.externalSize);
      w.Valid() && dropped + v.storage[..k] + w.storage[..w.Filled()] == dropped + v.storage[..v.Filled()]
  {
    var k, f, b := Min(n, v.externalSize), v.Filled(), v.storage;
    assert b[..f] == b[..k] + b[k..][..f - k];
    assert dropped + b[..k] + b[k..][..f - k] == dropped + (b[..k] + b[k..][..f - k]);
  }

  lemma HandOverConserves(s: State, trailer: nat)
    requires s.view.Valid() && s.Conserved() && s.pending.Idle? && s.Bounded()
    requires trailer <= s.view.internalSize
    ensures s.HandedOver(trailer).Conserved() && s.HandedOver(trailer).Bounded()
  {
    var n, b := s.HandedOver(trailer), s.view.storage;
    HandOverView(s, trailer);
    ConsumedConserves(s.view, s.dropped, s.handler(n.calls).consumed, trailer);
    HandOverDropped(s, trailer);
    hide State.HandedOver, View.MovedOn, View.Consumed, View.Exposed;
  }

  lemma FramesStep(h: Handler, p: Point, s: seq<Byte>)
    requires CutOf(p.config, s).Frame?
    ensures var cut := CutOf(p.config, s);
      var next, rest := Advance(h, p, s, cut), s[cut.size + cut.trailer..];
      Frames(h, p, s) == if h(next.calls).Quit? then Outcome(next, rest, Closed) else Frames(h, next, rest)
  {
    hide CutOf, Advance;
  }

  /** What handing over leaves as it is, and where it leads. */
  lemma HandOverSame(s: State, trailer: nat)
    requires s.view.Valid() && s.pending.Idle? && s.status.Reading?
    ensures var n := s.HandedOver(trailer);
      && n.handler == s.handler && n.start == s.start && n.received == s.received && n.unframed == s.unframed
      && n.view.Valid()
      && n.pending == s.pending && |n.calls| > 0 && (n.status.Closing? <==> s.handler(n.calls).Quit?)
      && n.config == (if s.handler(n.calls).Quit? then s.config else s.handler(n.calls).config)
  {
  }

  lemma HandOverLinks(s: State, trailer: nat)
    requires s.CanHandOver(trailer) && !s.unframed
    ensures var n := s.HandedOver(trailer); if n.status.Closing? then n.ClosedHere()
      else n.Linked(Point(n.calls, n.config, Keep(n.config, n.view.External())), n.view.Internal())
  {
    hide Traced, Reaches, CutOf, Frames, Advance, State.HandedOver, State.Conserved, State.Bounded;
    var n := s.HandedOver(trailer);
    HandOverSame(s, trailer);
    HandOverFrames(s, trailer);
    FramesStep(s.handler, s.Here(), s.Unread());
    assert n.Meaning() == s.Meaning() == Frames(s.handler, s.Here(), s.Unread());
  }

  lemma HandOverFrames(s: State, trailer: nat)
    requires s.view.Valid() && s.pending.Idle? && trailer <= s.view.internalSize
    requires s.frameStart <= s.view.segment.size <= s.view.externalSize
    ensures var cut, n := s.CutHere(trailer), s.HandedOver(trailer);
      && cut.size + trailer <= |s.Unread()| && cut.skip <= cut.size
      && n.view.Internal() == s.Unread()[cut.size + trailer..]
      && Advance(s.handler, s.Here(), s.Unread(), cut) == Point(n.calls, n.config,
           if s.handler(n.calls).Quit? then n.view.External() else Keep(n.config, n.view.External()))
  {
    hide Advance, Drop, CallFor, State.HandedOver, State.Unread, View.External, View.Internal, View.MovedOn,
      View.Consumed, View.Exposed, State.Limit, State.Arrived, Traced, Reaches;
    HandOverCall(s, trailer);
    HandOverView(s, trailer);
    HandOverLeaves(s, trailer);
    AdvanceBy(s.handler, s.Here(), s.Unread(), s.CutHere(trailer), s.HandedOver(trailer).calls,
      s.HandedOver(trailer).view.External());
  }

  /** What is kept and what is unread afterwards, as pieces of what was unread before. */
  lemma HandOverLeaves(s: State, trailer: nat)
    requires s.view.Valid() && s.pending.Idle? && trailer <= s.view.internalSize
    requires s.frameStart <= s.view.segment.size <= s.view.externalSize
    ensures var n, u, size := s.HandedOver(trailer), s.Unread(), s.view.externalSize - s.frameStart;
      && size + trailer <= |u| && n.view.Valid() && n.view.Internal() == u[size + trailer..]
      && n.view.External() == Drop(s.Here().kept + u[..size], s.handler(n.calls).consumed) + u[size..size + trailer]
  {
    hide View.MovedOn, View.Consumed, View.Exposed, View.Internal, Drop, State.HandedOver, Traced, Reaches,
      State.Unread;
    var b, e := s.view.storage, s.view.externalSize;
    HandOverView(s, trailer);
    UnreadIs(s);
    FrameSlices(b, s.frameStart, s.view.segment.size, e, trailer, s.view.Filled());
    LeftOver(s.view, s.handler(s.HandedOver(trailer).calls).consumed, trailer);
  }

  lemma UnreadIs(s: State)
    requires s.view.Valid() && s.pending.Idle? && s.frameStart <= s.view.externalSize
    ensures s.Unread() == s.view.storage[s.frameStart..s.view.Filled()]
  {
  }

  lemma HandOverView(s: State, trailer: nat)
    requires s.view.Valid()
    ensures var n := s.HandedOver(trailer);
      && n.view.Valid() && n.view == s.view.MovedOn().Consumed(s.handler(n.calls).consumed).Exposed(trailer)
      && n.config == if s.handler(n.calls).Quit? then s.config else s.handler(n.calls).config
  {
  }

  lemma AdvanceBy(h: Handler, p: Point, s: seq<Byte>, cut: Cut, calls: seq<Call>, left: seq<Byte>)
    requires cut.Frame? && cut.skip <= cut.size && cut.size + cut.trailer <= |s|
    requires calls == p.calls + [CallFor(p, s, cut)]
    requires left == Drop(p.kept + s[..cut.size], h(calls).consumed) + s[cut.size..cut.size + cut.trailer]
    ensures Advance(h, p, s, cut) ==
      if h(calls).Quit? then Point(calls, p.config, left)
        else Point(calls, h(calls).config, Keep(h(calls).config, left))
  {
  }

  /** The call made is the one the frame leads to. */
  lemma HandOverCall(s: State, trailer: nat)
    requires s.view.Valid() && s.pending.Idle? && trailer <= s.view.internalSize
    requires s.frameStart <= s.view.segment.size <= s.view.externalSize
    ensures var cut := s.CutHere(trailer);
      && cut.size + trailer <= |s.Unread()| && cut.skip <= cut.size
      && s.HandedOver(trailer).calls == s.calls + [CallFor(s.Here(), s.Unread(), cut)]
  {
    var b, k := s.view.storage, s.view.segment.size;
    FrameSlices(b, s.frameStart, k, s.view.externalSize, trailer, s.view.Filled());
    assert CallFor(s.Here(), s.Unread(), s.CutHere(trailer)) == Call(b[k..s.view.externalSize], s.view.External());
  }

  lemma FrameSlices(b: seq<Byte>, start: nat, mark: nat, e: nat, t: nat, end: nat)
    requires start <= mark <= e && e + t <= end <= |b|
    ensures var u, size := b[start..end], e - start;
      && b[..start] + u[..size] == b[..e] && u[mark - start..size] == b[mark..e]
      && u[size..size + t] == b[e..e + t] && u[size + t..] == b[e + t..end]
  {
    SliceOfSlice(b, start, end, 0, e - start);
    SliceOfSlice(b, start, end, mark - start, e - start);
    SliceOfSlice(b, start, end, e - start, e - start + t);
    SliceOfSlice(b, start, end, e - start + t, end - start);
    assert b[..start] + b[start..e] == b[..e];
  }

  /** What is left of the external input after a handler took n bytes and t bytes were passed over. */
  lemma LeftOver(v: View, n: nat, t: nat)
    requires v.Valid() && t <= v.internalSize
    ensures var w := v.MovedOn().Consumed(n).Exposed(t);
      && w.External() == Drop(v.External(), n) + v.storage[v.externalSize..v.externalSize + t]
      && w.Internal() == v.storage[v.externalSize + t..v.Filled()]
  {
    hide View.MovedOn, View.Consumed, View.Exposed, Drop, Min;
    LeftSizes(v, n, t);
    LeftPieces(v.storage, v.externalSize, n, t, v.Filled());
  }

  lemma LeftPieces(b: seq<Byte>, e: nat, n: nat, t: nat, f: nat)
    requires e + t <= f <= |b|
    ensures var k := Min(n, e);
      k <= e && b[k..][..e - k + t] == Drop(b[..e], n) + b[e..e + t] && b[k..][e - k + t..f - k] == b[e + t..f]
  {
    var k := Min(n, e);
    hide Drop;
    SliceOfTail(b, k, 0, e - k + t);
    SliceOfTail(b, k, e - k + t, f - k);
    assert b[k..][0..e - k + t] == b[k..][..e - k + t];
    DropOfTake(b, e, n);
    JoinSlices(b, k, e, e + t);
  }

  lemma LeftSizes(v: View, n: nat, t: nat)
    requires v.Valid() && t <= v.internalSize
    ensures var w, k := v.MovedOn().Consumed(n).Exposed(t), Min(n, v.externalSize);
      w.Valid() && w.storage == v.storage[k..] && w.externalSize == v.externalSize - k + t
        && w.Filled() == v.Filled() - k
  {
  }

  lemma DropOfTake(b: seq<Byte>, e: nat, n: nat)
    requires e <= |b|
    ensures Drop(b[..e], n) == b[Min(n, e)..e]
  {
    if n <= e { SuffixOfPrefix(b, n, e); }
  }

  // ---- starting an operation ----

  /** Input that goes to the handler as it came: the first of it that is there, up to size. */
  ghost predicate HandsOn(before: State, calls: seq<Call>, piece: seq<Byte>)
    requires before.view.Valid()
  {
    |before.calls| < |calls| && calls[|before.calls|] == Call(piece, before.view.External() + piece)
  }

  lemma ExposedIsCalled(s: State, n: nat, calls: seq<Call>)
    requires s.view.Valid() && s.view.segment.size == s.view.externalSize
    requires s.(view := s.view.Exposed(n)).HandedOver(0).calls <= calls
    ensures HandsOn(s, calls, s.view.Internal()[..Min(n, s.view.internalSize)])
  {
    var t, x, k := s.(view := s.view.Exposed(n)), s.view.externalSize, Min(n, s.view.internalSize);
    CallMade(t, 0);
    var more := t.HandedOver(0).calls;
    hide State.HandedOver;
    SliceOfSlice(s.view.storage, x, s.view.Filled(), 0, k);
    assert s.view.storage[..x] + s.view.storage[x..x + k] == s.view.storage[..x + k];
    assert calls[|s.calls|] == more[|s.calls|];
  }

  lemma SnatchedIsCalled(s: State, piece: seq<Byte>, calls: seq<Call>)
    requires s.view.Valid() && s.view.segment.size == s.view.externalSize && s.view.internalSize == 0
    requires s.pending.SomeBytes? && |piece| <= s.view.OutputSize() && s.Snatched(piece).HandedOver(0).calls <= calls
    ensures HandsOn(s, calls, piece)
  {
    var t, x := s.Snatched(piece), s.view.externalSize;
    PutSlice(s.view, 0, piece, x);
    PutSlice(s.view, 0, piece, 0);
    assert t.view.storage[x..x + |piece|] == piece;
    assert t.view.storage[0..x + |piece|] == t.view.storage[..x + |piece|];
    assert s.view.storage[0..x] == s.view.storage[..x];
    CallMade(t, 0);
    var more := t.HandedOver(0).calls;
    hide State.HandedOver, View.Put;
    assert calls[|s.calls|] == more[|s.calls|];
  }

  lemma SomeIsEmpty(s: State)
    requires s.Valid() && s.pending.SomeBytes?
    ensures s.view.segment.size == s.view.externalSize && s.view.internalSize == 0
  {
    hide Traced, Reaches, Frames, CutOf, State.Linked, State.Conserved, State.Bounded;
  }

  lemma LinkGivesUp(s: State)
    requires s.view.Valid() && s.frameStart <= s.view.externalSize && s.Linked(s.Here(), s.Unread())
      && CutOf(s.config, s.Unread()).Unframed?
    ensures s.(unframed := true).Linked(s.Here(), s.Unread())
  {
    hide CutOf;
  }

  /** protocol::any and the empty delimiter give up framing. */
  lemma GivingUp(s: State)
    requires s.Mid() && CutOf(s.config, s.Unread()).Unframed?
    ensures s.(unframed := true).Mid()
  {
    hide Traced, Reaches, CutOf, Frames, State.Linked;
    LinkGivesUp(s);
  }

  /** Room behind what is there changes nothing of it. */
  lemma PreparedReads(s: State, n: nat, p: Pending)
    requires s.Mid() && (p.SomeBytes? || (p.Exactly? && p.got == 0))
    ensures var t := s.(view := s.view.Prepared(n), pending := p);
      && t.view.Valid() && t.view.OutputSize() == n && t.Unread() == s.Unread() && t.Here() == s.Here() && t.Conserved()
      && t.view.Internal() == s.view.Internal()
  {
    hide Traced, Reaches, Frames, CutOf, State.Linked, State.Bounded, State.Traces, State.NextAt;
    var b, f, c := s.view.storage, s.view.Filled(), s.view.Prepared(n).storage;
    ResizeKeeps(b, f, f + n);
    SliceOfPrefix(c, f, s.frameStart, f);
    SliceOfPrefix(b, f, s.frameStart, f);
    SliceOfPrefix(c, f, 0, s.frameStart);
    SliceOfPrefix(b, f, 0, s.frameStart);
    SliceOfPrefix(c, f, s.view.externalSize, f);
    SliceOfPrefix(b, f, s.view.externalSize, f);
    hide Resize;
  }

  lemma ResizeKeeps(b: seq<Byte>, f: nat, n: nat)
    requires f <= |b| && f <= n
    ensures Resize(b, n)[..f] == b[..f]
  {
  }

  lemma SomeStarts(s: State)
    requires s.Mid() && s.unframed && s.frameStart == s.view.externalSize == s.view.segment.size
      && s.view.internalSize == 0
    requires CutOf(s.config, s.Unread()).Unframed?
    ensures s.(view := s.view.Prepared(s.config.limit), pending := SomeBytes(s.config.limit)).Valid()
  {
    hide Traced, Reaches, Frames, CutOf, State.Linked;
    var t := s.(view := s.view.Prepared(s.config.limit), pending := SomeBytes(s.config.limit));
    PreparedReads(s, s.config.limit, SomeBytes(s.config.limit));
    LinkDepends(s, t, s.Here(), s.Unread());
  }

  lemma ExposedReads(s: State, n: nat)
    requires s.view.Valid() && s.frameStart <= s.view.externalSize && s.pending.Idle?
    ensures var t := s.(view := s.view.Exposed(n));
      && t.view.Valid() && s.frameStart <= t.view.externalSize && t.view.storage == s.view.storage
      && t.Unread() == s.Unread() && t.Here() == s.Here() && t.Conserved() == s.Conserved()
  {
    hide Traced, Reaches;
  }

  /** Moving bytes from the internal to the external input leaves the frame's input as it was. */
  lemma ExposeKeeps(s: State, n: nat)
    requires s.Mid()
    ensures s.(view := s.view.Exposed(n)).Unread() == s.Unread()
    ensures s.(view := s.view.Exposed(n)).Mid()
  {
    hide Traced, Reaches, Frames, CutOf, State.Linked, State.Conserved;
    var t := s.(view := s.view.Exposed(n));
    ExposedReads(s, n);
    LinkDepends(s, t, s.Here(), s.Unread());
  }

  lemma FixedReady(s: State, size: nat)
    requires s.Mid() && s.FrameAhead(size) && size <= s.view.internalSize
    ensures s.(view := s.view.Exposed(size)).CanHandOver(0)
  {
    hide Traced, Reaches, Frames, HeaderOf, CutDelim, State.Linked, State.Bounded, State.Conserved;
    ExposeKeeps(s, size);
  }

  lemma FixedWaits(s: State, size: nat)
    requires s.Mid() && s.FrameAhead(size) && size > s.view.internalSize
    ensures var n := size - s.view.internalSize;
      s.(view := s.view.Prepared(n), pending := Exactly(n, 0, ThenFrame)).Valid()
  {
    hide Traced, Reaches, Frames, CutOf, State.Linked, HeaderOf;
    var n := size - s.view.internalSize;
    var t := s.(view := s.view.Prepared(n), pending := Exactly(n, 0, ThenFrame));
    PreparedReads(s, n, Exactly(n, 0, ThenFrame));
    LinkDepends(s, t, s.Here(), s.Unread());
  }

  // ---- a piece arrives ----

  lemma LinkArrives(s: State, p: Point, unread: seq<Byte>, piece: seq<Byte>)
    requires s.Linked(p, unread) && (s.unframed || CutOf(p.config, unread).More?)
    ensures s.(received := s.received + piece).Linked(p, unread + piece)
  {
    FramesSplit(s.handler, Point([], s.start, []), s.received, piece);
  }

  /** While an operation runs the session is inside a frame that is not complete yet. */
  lemma NotYet(s: State)
    requires s.Valid() && (s.pending.Exactly? || (s.pending.Until? && s.pending.room > 0))
    ensures s.InFrame() && CutOf(s.config, s.Unread()).More?
    ensures s.pending.Exactly? ==> s.Collecting()
  {
    hide Traced, Reaches, Frames, PrefixCodec.Value, PrefixCodec.VarLength, Announced, State.Linked, State.Bounded,
      State.Conserved;
  }

  /** A piece put into the output region leaves what is in front of it, at every position. */
  lemma PutKeeps(v: View, offset: nat, piece: seq<Byte>)
    requires v.Valid() && offset + |piece| <= v.OutputSize()
    ensures var at, b := v.Filled() + offset, v.Put(offset, piece).storage;
      && |b| == |v.storage| && b[..at + |piece|] == v.storage[..at] + piece
      && forall i: nat :: i <= at ==> b[..i] == v.storage[..i] && b[i..at + |piece|] == v.storage[i..at] + piece
  {
  }

  /** The same for one position. */
  lemma PutSlice(v: View, offset: nat, piece: seq<Byte>, i: nat)
    requires v.Valid() && offset + |piece| <= v.OutputSize() && i <= v.Filled() + offset
    ensures var at, b := v.Filled() + offset, v.Put(offset, piece).storage;
      |b| == |v.storage| && b[..i] == v.storage[..i] && b[i..at + |piece|] == v.storage[i..at] + piece
  {
  }

  /** The sizes a running operation relies on. */
  lemma RoomIsThere(s: State)
    requires s.Valid()
    ensures s.view.Valid()
    ensures s.pending.SomeBytes? ==> s.pending.room == s.view.OutputSize()
    ensures s.pending.Exactly? ==> s.pending.got < s.pending.need == s.view.OutputSize()
    ensures s.pending.Until? ==> s.pending.room <= s.view.OutputSize() && (s.pending.room > 0 ==> s.pending.found.None?)
    ensures s.pending.Until? && s.pending.found.Some? ==> |s.pending.delim| <= s.pending.found.value
  {
    hide Traced, Reaches, Frames, CutOf, CutDelim, State.Linked, State.Conserved, State.Bounded;
  }

  lemma ExactlyFills(s: State, piece: seq<Byte>)
    requires s.Valid() && s.pending.Exactly? && s.pending.got + |piece| <= s.pending.need
    ensures s.Filling(piece).InFrame() && s.Filling(piece).Collecting()
  {
    hide Traced, Reaches, Frames, CutOf, HeaderOf, PrefixCodec.Value, PrefixCodec.VarLength, State.Linked,
      State.Conserved, State.Bounded;
    NotYet(s);
    ExactlyExtends(s, piece);
    ExactlyCollects(s, piece);
  }

  lemma ExactlyExtends(s: State, piece: seq<Byte>)
    requires s.InFrame() && s.pending.Exactly? && s.pending.got + |piece| <= s.pending.need == s.view.OutputSize()
    requires CutOf(s.config, s.Unread()).More?
    ensures s.Filling(piece).InFrame()
  {
    hide Traced, Reaches, Frames, CutOf, State.Linked, State.Conserved, State.Bounded;
    FillingReads(s, piece);
    FillingConserves(s, piece);
    LinkArrives(s, s.Here(), s.Unread(), piece);
    TracedGrows(s.handler, s.start, s.received, s.calls, s.spans, piece);
    LinkDepends(s.(received := s.received + piece), s.Filling(piece), s.Here(), s.Unread() + piece);
  }

  /** The piece comes behind what was unread. */
  lemma FillingReads(s: State, piece: seq<Byte>)
    requires s.view.Valid() && s.frameStart <= s.view.externalSize
    requires s.pending.Exactly? && s.pending.got + |piece| <= s.view.OutputSize()
    ensures s.Filling(piece).view.Valid()
    ensures s.Filling(piece).Unread() == s.Unread() + piece
    ensures s.Filling(piece).Here() == s.Here()
  {
    PutSlice(s.view, s.pending.got, piece, s.frameStart);
    FillingLimit(s, piece);
    hide Traced, Reaches, View.Put;
  }

  lemma FillingLimit(s: State, piece: seq<Byte>)
    requires s.view.Valid() && s.pending.Exactly? && s.pending.got + |piece| <= s.view.OutputSize()
    ensures s.Filling(piece).view.Valid()
    ensures s.Filling(piece).Limit() == s.Limit() + |piece| && s.Limit() == s.view.Filled() + s.pending.got
  {
  }

  lemma FillingConserves(s: State, piece: seq<Byte>)
    requires s.view.Valid() && s.Conserved() && s.Bounded()
    requires s.pending.Exactly? && s.pending.got + |piece| <= s.view.OutputSize()
    ensures s.Filling(piece).Conserved() && s.Filling(piece).Bounded()
  {
    PutSlice(s.view, s.pending.got, piece, 0);
    FillingLimit(s, piece);
    var b, at := s.view.storage, s.Limit();
    hide Traced, Reaches, View.Put;
    assert b[0..at] == b[..at];
    assert s.dropped + (b[..at] + piece) == s.dropped + b[..at] + piece;
    hide Traced, Reaches, State.Steady;
  }

  /** Linked looks at the stream, the handler, the start and the calls, and at nothing else. */
  lemma LinkDepends(s: State, t: State, p: Point, unread: seq<Byte>)
    requires s.Linked(p, unread) && s.handler == t.handler && s.start == t.start
    requires s.received == t.received && s.unframed == t.unframed && s.calls == t.calls
    ensures t.Linked(p, unread)
  {
    hide Traced, Reaches, Frames;
  }

  lemma ExactlyCollects(s: State, piece: seq<Byte>)
    requires s.view.Valid() && s.Collecting() && s.pending.got + |piece| <= s.pending.need
    ensures s.Filling(piece).Collecting()
  {
    hide Traced, Reaches, Frames, PrefixCodec.Value, PrefixCodec.VarLength, HeaderOf, View.Put, State.Unread,
      View.Internal;
    FillingReads(s, piece);
    FillingSizes(s, piece);
    if s.pending.next.ThenFrame? && IsPrefix(s.config.protocol) { HeaderStable(s.config, s.Unread(), piece); }
  }

  /** The piece touches neither the sizes of the regions nor the internal input. */
  lemma FillingSizes(s: State, piece: seq<Byte>)
    requires s.view.Valid() && s.pending.Exactly? && s.pending.got + |piece| <= s.view.OutputSize()
    ensures var n := s.Filling(piece);
      && n.view.Valid() && n.view.Internal() == s.view.Internal() && n.view.OutputSize() == s.view.OutputSize()
      && n.view.externalSize == s.view.externalSize && n.view.internalSize == s.view.internalSize
      && n.view.segment == s.view.segment
  {
    PutSlice(s.view, s.pending.got, piece, s.view.Filled());
    hide View.Put;
    SliceOfPrefix(s.Filling(piece).view.storage, s.view.Filled(), s.view.externalSize, s.view.Filled());
    SliceOfPrefix(s.view.storage, s.view.Filled(), s.view.externalSize, s.view.Filled());
  }

  lemma ExactlyGoesOn(s: State)
    requires s.InFrame() && s.Collecting() && s.pending.got < s.pending.need
    ensures s.Valid()
  {
    hide Traced, Reaches;
  }

  lemma ExactlyCompletes(s: State)
    requires s.InFrame() && s.Collecting() && s.pending.got == s.pending.need
    ensures s.Completed().Mid() && s.Completed().Unread() == s.Unread()
  {
    hide Traced, Reaches, Frames, CutOf, State.Linked, State.FrameAhead, State.PrefixAhead;
    assert s.Completed().Unread() == s.Unread();
    LinkDepends(s, s.Completed(), s.Here(), s.Unread());
  }

  /** When the bytes of a longer prefix are there, read_prefix can look at it again. */
  lemma PrefixCompletes(s: State)
    requires s.InFrame() && s.Collecting() && s.pending.got == s.pending.need && s.pending.next.ThenPrefix?
    ensures var c, len := s.Completed(), s.pending.next.len;
      && c.Mid() && len > 0 && IsPrefix(c.config.protocol) && s.pending.next.isVar == c.config.protocol.PrefixVar?
      && c.frameStart == c.view.externalSize == c.view.segment.size
      && if c.config.protocol.PrefixVar? then
           len == c.view.internalSize && forall i :: 0 <= i < len - 1 ==> PrefixCodec.Continues(c.view.Internal()[i])
         else len == Width(c.config.protocol)
  {
    hide Traced, Reaches, Frames, CutOf, HeaderOf, State.Linked;
    ExactlyCompletes(s);
    var c := s.Completed();
    assert c.view.Internal()[..s.view.internalSize] == s.view.Internal();
  }

  /** When the awaited bytes are there, the whole internal input is the rest of the frame. */
  lemma FrameCompletes(s: State)
    requires s.InFrame() && s.Collecting() && s.pending.got == s.pending.need && s.pending.next.ThenFrame?
    ensures s.Completed().(view := s.Completed().view.ExposedWhole()).CanHandOver(0)
  {
    hide Traced, Reaches, Frames, HeaderOf, State.Linked, State.Conserved, State.Bounded, CutOf;
    ExactlyCompletes(s);
    FixedReady(s.Completed(), s.Completed().view.internalSize);
  }

  lemma SnatchedReads(s: State, piece: seq<Byte>)
    requires s.view.Valid() && s.frameStart <= s.view.externalSize && s.pending.SomeBytes?
      && |piece| <= s.view.OutputSize()
    requires s.Conserved()
    ensures var n := s.Snatched(piece);
      n.view.Valid() && n.Unread() == s.Unread() + piece && n.Here() == s.Here() && n.Conserved()
  {
    hide Traced, Reaches;
    var b, f := s.view.storage, s.view.Filled();
    PutSlice(s.view, 0, piece, s.frameStart);
    PutSlice(s.view, 0, piece, 0);
    hide View.Put;
    assert b[0..f] == b[..f];
    assert s.dropped + (b[..f] + piece) == s.dropped + b[..f] + piece;
  }

  lemma SnatchedReady(s: State, piece: seq<Byte>)
    requires s.Valid() && s.pending.SomeBytes? && 0 < |piece| <= s.pending.room
    ensures s.Snatched(piece).CanHandOver(0)
  {
    hide Traced, Reaches, Frames, CutOf, State.Linked;
    SnatchedReads(s, piece);
    LinkArrives(s, s.Here(), s.Unread(), piece);
    LinkDepends(s.(received := s.received + piece), s.Snatched(piece), s.Here(), s.Unread() + piece);
    TracedGrows(s.handler, s.start, s.received, s.calls, s.spans, piece);
    CutStable(s.config, s.Unread(), piece);
  }

  lemma Pauses(s: State)
    requires s.Mid() && s.config.protocol.Nothing?
    ensures s.(status := Connected).Valid()
  {
    hide Traced, Reaches, Frames, CutOf;
  }

  lemma ConservedSame(s: State, t: State)
    requires s.view.Valid() && s.Conserved() && t.view == s.view && t.dropped == s.dropped && t.received == s.received
    requires t.pending == s.pending
    ensures t.Conserved() && (s.frameStart == t.frameStart <= s.view.externalSize ==> t.Unread() == s.Unread())
  {
  }

  lemma Aborts(s: State)
    requires s.Mid() && Wrapping(s.config, s.Unread())
    ensures s.(failure := Aborted).Valid()
  {
    hide Traced, Reaches, Frames, CutOf, State.Linked, State.Conserved, Wrapping;
    var t := s.(failure := Aborted);
    LinkDepends(s, t, s.Here(), s.Unread());
    assert t.Unread() == s.Unread();
    ConservedSame(s, t);
  }

  lemma UnreadCases(c: Config, s: seq<Byte>)
    ensures c.protocol.Anything? ==> CutOf(c, s).Unframed?
    ensures c.protocol.Unsupported? ==> CutOf(c, s).Reject? && Verdict(c, s) == NotSupported
    ensures IsDelim(c.protocol) && DelimiterOf(c) == [] ==> CutOf(c, s).Unframed?
  {
  }

  lemma Failing(s: State, error: Failure)
    requires s.Mid() && error in {MessageSize, ValueTooLarge, BadMessage, NotSupported}
    requires CutOf(s.config, s.Unread()).Reject? && error == Verdict(s.config, s.Unread())
    ensures s.(failure := error, status := Closing).Valid()
  {
    hide Traced, Reaches, Frames, CutOf, Verdict;
    assert s.(failure := error, status := Closing).Unread() == s.Unread();
  }

  // ---- prefixes ----

  /** The header of a frame, once read_prefix knows its length and its value. */
  lemma HeaderKnown(c: Config, s: seq<Byte>, value: nat)
    requires HeaderLength(c, s) <= |s| && HeaderLength(c, s) <= (if c.protocol.PrefixVar? then 9 else 8)
    requires value == PrefixCodec.Value(s[..HeaderLength(c, s)], c.protocol.PrefixVar?, c.options.littleEndian)
    ensures HeaderOf(c, s) == if HeaderLength(c, s) > c.limit then Bad else Announced(c, HeaderLength(c, s), value)
  {
    hide Traced, Reaches, PrefixCodec.Value;
  }

  /** The 64-bit sum in the length check exceeds the limit exactly when the value is not accepted. */
  lemma LengthCheck(c: Config, len: nat, payload: nat)
    requires len <= 9 && payload < TWO_64
    ensures (payload + len) % TWO_64 > c.limit <==>
      payload + len > c.limit && (payload + len < TWO_64 || payload + len - TWO_64 > c.limit)
    ensures payload + len > c.limit && (payload + len) % TWO_64 <= c.limit ==> payload > c.limit
  {
    if payload + len < TWO_64 { Unwrapped(payload + len); } else {
      assert (payload + len) % TWO_64 == payload + len - TWO_64;
    }
  }

  /** The cut that what a complete prefix announces leads to. */
  lemma AnnouncedCut(c: Config, s: seq<Byte>, len: nat, value: nat)
    requires IsPrefix(c.protocol) && len == HeaderLength(c, s) <= |s| && len <= (if c.protocol.PrefixVar? then 9 else 8)
    requires value == PrefixCodec.Value(s[..len], c.protocol.PrefixVar?, c.options.littleEndian)
    ensures Announced(c, len, value).Bad? ==> CutOf(c, s).Reject?
    ensures Announced(c, len, value).Complete? ==>
      HeaderOf(c, s) == Announced(c, len, value) && HeaderOf(c, s).payload <= c.limit
    ensures Wrapping(c, s) <==> Announced(c, len, value).Wraps?
    ensures Verdict(c, s) == AnnouncedVerdict(c, len, value)
  {
    hide PrefixCodec.Value;
    HeaderKnown(c, s, value);
  }

  lemma AtHeader(s: State)
    requires s.Mid() && s.frameStart == s.view.externalSize
    ensures s.view.Valid() && |s.Unread()| == s.view.internalSize
  {
    hide Traced, Reaches, Frames, CutOf, State.Linked, State.Conserved, State.Bounded;
  }

  lemma TooLong(c: Config, s: seq<Byte>)
    requires IsPrefix(c.protocol) && HeaderLength(c, s) > c.limit
    ensures CutOf(c, s).Reject?
  {
  }

  /** A prefix that is not complete is refused only if it cannot fit. */
  lemma CannotFit(c: Config, u: seq<Byte>)
    requires IsPrefix(c.protocol) && |u| < HeaderLength(c, u)
    ensures Verdict(c, u) == if HeaderLength(c, u) > c.limit then MessageSize else NoFailure
  {
  }

  lemma PrefixWaits(s: State, len: nat, isVar: bool)
    requires s.Mid() && s.view.internalSize < len <= s.config.limit && s.PrefixAhead(len, isVar)
    ensures var n := len - s.view.internalSize;
      s.(view := s.view.Prepared(n), pending := Exactly(n, 0, ThenPrefix(len, isVar))).Valid()
  {
    hide Traced, Reaches, Frames, CutOf, State.Linked, HeaderOf, PrefixCodec.VarLength;
    var n := len - s.view.internalSize;
    var t := s.(view := s.view.Prepared(n), pending := Exactly(n, 0, ThenPrefix(len, isVar)));
    PreparedReads(s, n, Exactly(n, 0, ThenPrefix(len, isVar)));
    LinkDepends(s, t, s.Here(), s.Unread());
  }

  function HeaderPassed(c: Config, v: View, len: nat): View {
    if c.options.ignoreProtocolBytes then v.Exposed(len).Marked() else v.Exposed(len)
  }

  lemma PrefixAccepted(s: State, len: nat, payload: nat)
    requires s.Mid() && s.frameStart == s.view.externalSize == s.view.segment.size && IsPrefix(s.config.protocol)
    requires HeaderOf(s.config, s.Unread()) == Complete(len, payload)
    ensures var t := s.(view := HeaderPassed(s.config, s.view, len));
      t.Mid() && t.FrameAhead(payload) && t.Unread() == s.Unread()
  {
    hide Traced, Reaches, Frames, CutOf, State.Linked, HeaderOf;
    var t := s.(view := HeaderPassed(s.config, s.view, len));
    assert t.Unread() == s.Unread();
    assert len + payload <= s.config.limit && 1 <= len <= |s.Unread()| by { HeaderBounds(s.config, s.Unread()); }
    LinkDepends(s, t, s.Here(), s.Unread());
  }

  lemma PrefixWraps(s: State, len: nat, value: nat)
    requires s.Mid() && s.frameStart == s.view.externalSize == s.view.segment.size && IsPrefix(s.config.protocol)
    requires len == HeaderLength(s.config, s.Unread()) <= |s.Unread()|
    requires len <= if s.config.protocol.PrefixVar? then 9 else 8
    requires value == PrefixCodec.Value(s.Unread()[..len], s.config.protocol.PrefixVar?, s.config.options.littleEndian)
    requires Announced(s.config, len, value).Wraps?
    ensures var t := s.(view := HeaderPassed(s.config, s.view, len));
      t.Mid() && Wrapping(s.config, t.Unread()) && t.Unread() == s.Unread()
  {
    hide Traced, Reaches, Frames, CutOf, State.Linked, HeaderLength, PrefixCodec.Value, Announced;
    var t := s.(view := HeaderPassed(s.config, s.view, len));
    assert t.Unread() == s.Unread();
    LinkDepends(s, t, s.Here(), s.Unread());
  }

  lemma HeaderBounds(c: Config, s: seq<Byte>)
    requires HeaderOf(c, s).Complete?
    ensures var h := HeaderOf(c, s); 1 <= h.len <= |s| && h.len + h.payload <= c.limit
  {
  }

  /** protocol::any hands on what is there, as much as the read buffer holds, or waits for one piece of any size. */
  ghost predicate AnyOutcome(entered: State, calls: seq<Call>, pending: Pending)
    requires entered.view.Valid()
  {
    var there, limit := entered.view.Internal(), entered.config.limit;
    if there == [] then pending == SomeBytes(limit) && calls == entered.calls
    else HandsOn(entered, calls, if |there| <= limit then there else there[..limit])
  }

  lemma AnyIsDone(entered: State, calls: seq<Call>, pending: Pending)
    requires entered.view.Valid()
    requires var size, there := entered.config.limit, entered.view.internalSize;
      if there == 0 then pending == SomeBytes(size) && calls == entered.calls
      else HandsOn(entered, calls, entered.view.Internal()[..Min(size, there)])
    ensures AnyOutcome(entered, calls, pending)
  {
    hide HandsOn;
    var there := entered.view.Internal();
    assert there[..|there|] == there;
  }

  /**
   What read_prefix makes of the input u of a frame: a complete prefix that is not accepted ends
   reading as Verdict says, one that has to be asked for is refused or awaited.
   */
  ghost predicate PrefixOutcome(c: Config, u: seq<Byte>, calls: seq<Call>, n: State) {
    var len := HeaderLength(c, u);
    && (Verdict(c, u) != NoFailure ==> n.failure == Verdict(c, u) && n.pending.Idle? && n.calls == calls)
    && (|u| < len <= c.limit ==> Awaits(c, u, len, calls, n))
  }

  ghost predicate Awaits(c: Config, u: seq<Byte>, len: nat, calls: seq<Call>, n: State) {
    && |u| < len && n.pending == Exactly(len - |u|, 0, ThenPrefix(len, c.protocol.PrefixVar?))
    && n.view.Valid() && n.frameStart <= n.view.externalSize
    && n.config == c && n.Unread() == u && n.calls == calls
  }

  ghost predicate Awaiting(s: State) {
    s.view.Valid() && s.frameStart <= s.view.externalSize && s.pending.Exactly?
      && s.pending.got < s.pending.need == s.view.OutputSize()
  }

  lemma AwaitingHere(s: State)
    requires s.Valid() && s.pending.Exactly?
    ensures Awaiting(s)
  {
    hide Traced, Reaches, Frames, CutOf, State.Linked, State.Conserved, State.Bounded;
  }

  /** What a piece for an async_read leads to: more of it is awaited, or the prefix is looked at again. */
  ghost predicate PieceOutcome(s: State, piece: seq<Byte>, n: State)
    requires s.view.Valid() && s.frameStart <= s.view.externalSize
    requires s.pending.Exactly? && s.pending.got + |piece| <= s.pending.need == s.view.OutputSize()
  {
    if s.pending.got + |piece| < s.pending.need then n == s.Filling(piece)
    else s.pending.next.ThenPrefix? ==> PrefixOutcome(s.config, s.Unread() + piece, s.calls, n)
  }

  // ---- delimiters ----

  lemma DelimStarts(s: State, delim: seq<Byte>, ignore: bool)
    requires s.Mid() && s.DelimAhead(delim, ignore)
    ensures s.(view := s.view.Shrunk(s.view.OutputSize()), pending := Until(delim, ignore, 0, 0, None)).Scanning()
  {
    hide Traced, Reaches, Frames, CutOf, State.Linked;
    var t := s.(view := s.view.Shrunk(s.view.OutputSize()), pending := Until(delim, ignore, 0, 0, None));
    assert t.Unread() == s.Unread();
    assert t.Here() == s.Here();
    LinkDepends(s, t, s.Here(), s.Unread());
  }

  function Window(c: Config, s: seq<Byte>): seq<Byte> {
    if |s| <= c.limit then s else s[..c.limit]
  }

  /** What the adaptor shows of the storage is the front of the unread input. */
  lemma WindowIs(s: State)
    requires s.Scanning()
    ensures var b, e := s.view.storage, s.view.externalSize;
      e <= |b| && Window(s.config, s.Unread()) == b[e..e + Min(|b| - e, s.config.limit)]
  {
    hide Traced, Reaches, Frames, CutOf, CutDelim, State.Linked, State.Conserved, State.Bounded, CannotStart;
    var b, e := s.view.storage, s.view.externalSize;
    assert s.Unread() == b[e..|b|];
    SliceOfSlice(b, e, |b|, 0, Min(|b| - e, s.config.limit));
    assert b[e..|b|][0..|b| - e] == b[e..|b|];
  }

  lemma NoneBefore(u: seq<Byte>, w: seq<Byte>, d: seq<Byte>, search: nat, pos: nat)
    requires w <= u && (forall j: nat :: j < search ==> CannotStart(u, d, j)) && search <= pos
    requires forall j: nat :: search <= j < pos ==> CannotStart(w, d, j)
    ensures forall j: nat :: j < pos ==> !Occurs(w, d, j)
  {
    hide CannotStart, Occurs;
    forall j: nat | j < pos ensures !Occurs(w, d, j) {
      if j < search { StartsOutside(u, w, d, j); } else { CannotStartExtend(w, [], d, j); }
    }
  }

  lemma ScanFinds(s: State, pos: nat)
    requires s.Scanning()
    requires var w, d := Window(s.config, s.Unread()), s.pending.delim;
      && s.pending.search <= pos && Occurs(w, d, pos)
      && forall j: nat :: s.pending.search <= j < pos ==> CannotStart(w, d, j)
    ensures s.(pending := s.pending.(found := Some(pos + |s.pending.delim|))).Valid()
  {
    hide Traced, Reaches, Frames, CutOf, CutDelim, State.Linked, CannotStart, Occurs, State.Unread, State.Conserved,
      State.Bounded;
    var t := s.(pending := s.pending.(found := Some(pos + |s.pending.delim|)));
    FoundAt(s, pos);
    SameInput(s, t);
    LinkDepends(s, t, s.Here(), s.Unread());
  }

  /** Another state of the search over the same input. */
  lemma SameInput(s: State, t: State)
    requires s.view.Valid() && s.frameStart <= s.view.externalSize && s.pending.Until? && s.pending.room == 0
    requires t == s.(pending := t.pending) && t.pending.Until? && t.pending.room == 0
    ensures t.Unread() == s.Unread() && t.Here() == s.Here() && t.Conserved() == s.Conserved()
      && t.Bounded() == s.Bounded()
  {
    hide Traced, Reaches;
  }

  lemma FoundAt(s: State, pos: nat)
    requires s.Scanning()
    requires var w, d := Window(s.config, s.Unread()), s.pending.delim;
      && s.pending.search <= pos && Occurs(w, d, pos)
      && forall j: nat :: s.pending.search <= j < pos ==> CannotStart(w, d, j)
    ensures s.Found(s.pending.delim, s.pending.ignore, Some(pos + |s.pending.delim|))
  {
    hide Traced, Reaches, Frames, CutOf, State.Linked, State.Conserved, State.Bounded, CannotStart, State.Unread;
    var u, w, d := s.Unread(), Window(s.config, s.Unread()), s.pending.delim;
    NoneBefore(u, w, d, s.pending.search, pos);
    FindFirst(w, d, pos);
  }

  /** A position ruled out in the whole input is ruled out in its first part. */
  lemma StartsOutside(u: seq<Byte>, w: seq<Byte>, d: seq<Byte>, j: nat)
    requires CannotStart(u, d, j) && w <= u
    ensures !Occurs(w, d, j)
  {
    assert u == w + u[|w|..];
    CannotStartExtend(u, [], d, j);
    if j + |d| <= |w| { OccursExtend(w, u[|w|..], d, j); }
  }

  ghost predicate NotFound(s: State) {
    && s.Scanning()
    && var w := Window(s.config, s.Unread());
      forall j: nat :: s.pending.search <= j ==> !Occurs(w, s.pending.delim, j)
  }

  lemma NowhereInWindow(s: State)
    requires NotFound(s)
    ensures CutDelim(s.config, s.Unread()) == if |s.Unread()| >= s.config.limit then Reject else More
  {
    hide Traced, Reaches, Frames, CutOf, State.Linked;
    var u, w, d := s.Unread(), Window(s.config, s.Unread()), s.pending.delim;
    forall j: nat ensures !Occurs(w, d, j) {
      if j < s.pending.search { StartsOutside(u, w, d, j); }
    }
  }

  lemma ScanFails(s: State)
    requires NotFound(s) && |s.Unread()| >= s.config.limit && s.pending.found.None?
    ensures s.Valid()
  {
    hide Traced, Reaches, Frames, CutOf, State.Linked;
    NowhereInWindow(s);
  }

  lemma ScanWaits(s: State, pos: nat, room: nat)
    requires NotFound(s) && 0 < room <= s.config.limit - |s.Unread()| && pos <= |s.Unread()| && s.pending.found.None?
    requires forall j: nat :: s.pending.search <= j < pos ==> CannotStart(s.Unread(), s.pending.delim, j)
    ensures s.(view := s.view.Grown(room), pending := s.pending.(search := pos, room := room)).Valid()
  {
    hide Traced, Reaches, Frames, CutOf, CutDelim, State.Linked, Occurs, CannotStart;
    NowhereInWindow(s);
    var t := s.(view := s.view.Grown(room), pending := s.pending.(search := pos, room := room));
    var n := |s.view.storage|;
    assert t.view.storage[..n] == s.view.storage;
    assert t.Limit() == s.Limit() == n;
    assert t.Unread() == t.view.storage[..n][t.frameStart..n] == s.Unread();
    assert t.Here() == s.Here();
    assert t.Conserved();
    LinkDepends(s, t, s.Here(), s.Unread());
  }

  lemma ExtendedStorage(s: State, piece: seq<Byte>)
    requires s.view.Valid() && s.pending.Until? && |piece| <= s.pending.room <= s.view.OutputSize()
    requires s.frameStart <= s.view.externalSize
    ensures var t := s.Extended(piece);
      && t.view.storage == s.view.storage[..s.Limit()] + piece && t.view.Valid() && t.Limit() == |t.view.storage|
      && t.Unread() == s.Unread() + piece && t.Here() == s.Here()
  {
    PutKeeps(s.view, s.view.OutputSize() - s.pending.room, piece);
  }

  lemma ExtendedConserves(s: State, piece: seq<Byte>)
    requires s.view.Valid() && s.pending.Until? && |piece| <= s.pending.room <= s.view.OutputSize()
    requires s.frameStart <= s.view.externalSize && s.Conserved() && s.Bounded()
    ensures s.Extended(piece).Conserved() && s.Extended(piece).Bounded()
  {
    hide Traced, Reaches;
    ExtendedStorage(s, piece);
    var b := s.view.storage[..s.Limit()];
    assert s.dropped + (b + piece) == s.dropped + b + piece;
    assert (b + piece)[..|b + piece|] == b + piece;
  }

  lemma DelimArrives(s: State, piece: seq<Byte>)
    requires s.Valid() && s.pending.Until? && 0 < |piece| <= s.pending.room
    ensures s.Extended(piece).Scanning()
  {
    hide Traced, Reaches, Frames, CutOf, CutDelim, State.Linked, Occurs, CannotStart, State.Conserved, State.Bounded;
    NotYet(s);
    var t := s.Extended(piece);
    ExtendedStorage(s, piece);
    ExtendedConserves(s, piece);
    TracedGrows(s.handler, s.start, s.received, s.calls, s.spans, piece);
    LinkArrives(s, s.Here(), s.Unread(), piece);
    LinkDepends(s.(received := s.received + piece), t, s.Here(), s.Unread() + piece);
    StillSearching(s.Unread(), piece, s.pending.delim, s.pending.search);
  }

  lemma StillSearching(u: seq<Byte>, piece: seq<Byte>, d: seq<Byte>, search: nat)
    requires forall j: nat :: j < search ==> CannotStart(u, d, j)
    ensures forall j: nat :: j < search ==> CannotStart(u + piece, d, j)
  {
    forall j: nat | j < search ensures CannotStart(u + piece, d, j) {
      CannotStartExtend(u, piece, d, j);
    }
  }

  /** The callback of async_read_until, up to the handler. */
  lemma DelimReady(s: State)
    requires s.Valid() && s.pending.Until? && s.pending.room == 0 && s.pending.found.Some?
    ensures var t := if s.pending.ignore then |s.pending.delim| else 0;
      s.(view := s.view.ReceivedInternal(s.view.OutputSize()).Exposed(s.pending.found.value - t),
        pending := Idle).CanHandOver(t)
  {
    hide Traced, Reaches, Frames, CutOf, CutDelim, State.Linked, State.Conserved, State.Bounded;
    var t := if s.pending.ignore then |s.pending.delim| else 0;
    var k := s.pending.found.value - t;
    var n := s.(view := s.view.ReceivedInternal(s.view.OutputSize()).Exposed(k), pending := Idle);
    FoundReads(s, k);
    FoundSizes(s, k);
    LinkDepends(s, n, s.Here(), s.Unread());
    DelimCut(s.config, s.Unread());
    hide State.Unread, State.Here, State.Limit, View.ReceivedInternal, View.Exposed;
  }

  lemma FoundSizes(s: State, k: nat)
    requires s.view.Valid() && s.frameStart == s.view.externalSize && s.pending.Until? && s.pending.room == 0
      && k <= |s.Unread()|
    ensures var v := s.view.ReceivedInternal(s.view.OutputSize()).Exposed(k);
      && v.externalSize == s.frameStart + k && v.internalSize == |s.Unread()| - k && v.segment == s.view.segment
  {
  }

  /** Committing moves boundaries only. */
  lemma FoundReads(s: State, k: nat)
    requires s.view.Valid() && s.frameStart <= s.view.externalSize && s.pending.Until? && s.pending.room == 0
    ensures var n := s.(view := s.view.ReceivedInternal(s.view.OutputSize()).Exposed(k), pending := Idle);
      && n.view.Valid() && n.frameStart <= n.view.externalSize && n.Unread() == s.Unread() && n.Here() == s.Here()
      && n.Conserved() == s.Conserved() && n.Bounded() == s.Bounded() && n.view.storage == s.view.storage
  {
  }

  /** check() in that callback: without a delimiter in reach the session starts closing. */
  lemma DelimFails(s: State)
    requires s.Valid() && s.pending.Until? && s.pending.room == 0 && s.pending.found.None?
    ensures s.(pending := Idle, failure := NoDelimiter, status := Closing).Valid()
  {
    hide Traced, Reaches, Frames, CutOf, CutDelim, State.Linked;
    DelimCut(s.config, s.Unread());
    RejectedHere(s);
  }

  lemma DelimCut(c: Config, s: seq<Byte>)
    requires IsDelim(c.protocol) && DelimiterOf(c) != []
    ensures CutOf(c, s) == CutDelim(c, s)
  {
  }

  /** Where the unread input is rejected, the frame function stops. */
  lemma RejectedHere(s: State)
    requires s.view.Valid() && s.frameStart <= s.view.externalSize && s.Linked(s.Here(), s.Unread())
      && CutOf(s.config, s.Unread()).Reject?
    ensures s.unframed ==> s.GaveUp()
    ensures !s.unframed ==> s.Meaning().point == s.Here() && s.Meaning().end == Rejected
  {
    hide CutOf;
  }

  lemma WaitsHere(s: State)
    requires s.view.Valid() && s.frameStart <= s.view.externalSize && s.Linked(s.Here(), s.Unread())
      && CutOf(s.config, s.Unread()).More?
    ensures s.unframed ==> s.GaveUp()
    ensures !s.unframed ==> s.Meaning().point.calls == s.calls && s.Meaning().end == Waiting
  {
    hide CutOf;
  }

  lemma OpaqueHere(s: State)
    requires s.view.Valid() && s.frameStart <= s.view.externalSize && s.Linked(s.Here(), s.Unread()) && s.unframed
    ensures s.GaveUp()
  {
    hide CutOf, Frames;
  }

  /** A failed operation: what had arrived for it is not committed, and no further call is made. */
  lemma Breaks(s: State)
    requires s.Valid() && (s.pending.Exactly? || s.pending.SomeBytes? || (s.pending.Until? && s.pending.room > 0))
    ensures s.(pending := Idle, failure := IoError, status := Closing).Valid()
  {
    hide Traced, Reaches, Frames, CutOf, State.Linked, PrefixCodec.Value, HeaderOf;
    if s.pending.SomeBytes? {
      OpaqueHere(s);
    } else {
      NotYet(s);
      WaitsHere(s);
    }
    hide State.Conserved, State.Bounded;
  }

  /** An error of a search that has ended: what was found is not handed over. */
  lemma BreaksLate(s: State)
    requires s.Valid() && s.pending.Until? && s.pending.room == 0
    ensures s.(pending := Idle, failure := Cancelled, status := Closing).Valid()
  {
    hide Traced, Reaches, CutOf, CutDelim;
  }

  // ---- the code ----

  /**
   The search asio makes for a delimiter: from a position on, the first place where the delimiter
   is, or where the data ends before it is known not to be.
   */
  method PartialSearch(data: seq<Byte>, delim: seq<Byte>, from: nat) returns (pos: nat, full: bool)
    requires from <= |data| && delim != []
    ensures from <= pos <= |data|
    ensures forall j: nat :: from <= j < pos ==> CannotStart(data, delim, j)
    ensures full ==> Occurs(data, delim, pos)
    ensures !full ==> forall j: nat :: from <= j ==> !Occurs(data, delim, j)
  {
    pos := from;
    while pos < |data|
      invariant from <= pos <= |data|
      invariant forall j: nat :: from <= j < pos ==> CannotStart(data, delim, j)
    {
      var k := 0;
      while k < |delim| && pos + k < |data| && data[pos + k] == delim[k]
        invariant k <= |delim| && pos + k <= |data|
        invariant forall x :: 0 <= x < k ==> data[pos + x] == delim[x]
      {
        k := k + 1;
      }
      if k == |delim| {
        assert data[pos..pos + |delim|] == delim;
        return pos, true;
      }
      if pos + k == |data| {
        break;
      }
      pos := pos + 1;
    }
    full := false;
    forall j: nat | from <= j < pos ensures !Occurs(data, delim, j) {
      CannotStartExtend(data, [], delim, j);
    }
  }

  /**
   How long a prefix is: a requested length, or for a varint the scan up to the first byte with a
   clear top bit (request 0) or the look at the byte just received.
   */
  method PrefixLength(p: seq<Byte>, request: nat, isVar: bool) returns (len: nat, short: bool)
    requires !isVar ==> 0 < request
    requires isVar && request > 0 ==> request == |p| && forall i :: 0 <= i < request - 1 ==> PrefixCodec.Continues(p[i])
    ensures len == if isVar then PrefixCodec.VarLength(p) else request
    ensures short <==> |p| < len
  {
    len := request;
    if len == 0 {
      while len < |p| && PrefixCodec.Continues(p[len])
        invariant len <= |p|
        invariant forall i :: 0 <= i < len ==> PrefixCodec.Continues(p[i])
      {
        len := len + 1;
      }
      len := len + 1;
    }
    short := |p| < len;
    if !short && isVar && PrefixCodec.Continues(p[len - 1]) {
      len := len + 1;
      short := true;
    }
    if isVar && !short { PrefixCodec.VarLengthUnique(p, len); }
  }

  /** The checks on an announced size, in 64-bit arithmetic. */
  method CheckSize(c: Config, len: nat, value: nat) returns (payload: nat, error: Failure)
    requires 0 < len <= 9 && value < TWO_64
    ensures match Announced(c, len, value)
      case Complete(l, size) => error == NoFailure && l == len && payload == size
      case Wraps => error == NoFailure && payload > c.limit
      case Bad => error == BadMessage || error == MessageSize
      case Partial => false
    ensures error == BadMessage <==> c.options.inclusivePrefix && value < len
    ensures error == NoFailure ==> payload + (if c.options.inclusivePrefix then len else 0) == value
  {
    payload, error := value, NoFailure;
    if c.options.inclusivePrefix && payload < len {
      error := BadMessage;
      return;
    }
    if c.options.inclusivePrefix { payload := payload - len; }
    LengthCheck(c, len, payload);
    if (payload + len) % TWO_64 > c.limit { error := MessageSize; }
  }

  class Session {
    const handler: Handler
    const buf: TripleBuffer
    var status: Status
    var config: Config
    var pending: Pending
    var failure: Failure
    var calls: seq<Call>
    ghost const start: Config
    ghost var received: seq<Byte>
    ghost var dropped: seq<Byte>
    ghost var frameStart: nat
    ghost var unframed: bool
    ghost var spans: seq<Span>

    ghost function Now(): State
      reads this, buf
    {
      State(handler, start, buf.Look(), status, config, pending, failure, calls, received, dropped, frameStart,
        unframed, spans)
    }

    /** Where in the stream the frame being read begins. */
    ghost function FramePosition(): nat
      reads this
    {
      |dropped| + frameStart
    }

    ghost predicate Valid()
      reads this, buf
    {
      Now().Valid()
    }

    predicate SocketFailed()
      reads this
    {
      failure.IoError? || failure.Cancelled?
    }

    /** Connected; what connect() does next is read(). */
    constructor (handler: Handler, config: Config)
      ensures Now().AtRead() && fresh(buf) && !status.Closing?
      ensures this.handler == handler && start == config && received == []
    {
      this.handler, this.config, this.start := handler, config, config;
      this.buf := new TripleBuffer();
      status, pending, failure, calls := Connected, Idle, NoFailure, [];
      received, dropped, frameStart, unframed, spans := [], [], 0, false, [];
      new;
      hide State.AtRead;
      Fresh(Now());
    }

    method Read()
      requires Now().AtRead()
      modifies this, buf
      ensures Valid() && received == old(received) && old(calls) <= calls
      ensures FramePosition() >= old(|dropped| + buf.externalSize)
      ensures !SocketFailed()
      ensures old(!status.Closing? && IsPrefix(config.protocol)) ==>
        PrefixOutcome(old(config), old(Now().view.Internal()), old(calls), Now())
      ensures old(!status.Closing? && config.protocol.Anything?) ==>
        AnyOutcome(old(Now().Entered()), calls, pending)
      decreases Now().view.internalSize, 4
    {
      hide Traced, Reaches, Frames, CutOf, CutDelim, State.Linked, State.Conserved, State.Bounded, State.Mid,
        State.Valid, HandsOn, AnyOutcome, PrefixOutcome;
      if status.Closing? {
        ReadWhenClosing(Now());
        frameStart := buf.externalSize;
        return;
      }
      ghost var before := Now();
      BeginFrame();
      EnteringRead(before);
      ghost var entered := Now();
      UnreadCases(config, entered.Unread());
      if config.protocol.Nothing? { Pauses(entered); }
      match config.protocol {
        case Nothing => status := Connected;
        case Anything =>
          ReadSome(config.limit);
          AnyIsDone(entered, calls, pending);
        case Fixed => ReadFixed(config.limit);
        case Delim => ReadDelim(config.delimiter);
        case DelimZero => ReadDelim([0]);
        case DelimCr => ReadDelim([13]);
        case DelimLf => ReadDelim([10]);
        case DelimCrLf => ReadDelim([13, 10]);
        case Prefix8 => ReadPrefix(1, false);
        case Prefix16 => ReadPrefix(2, false);
        case Prefix32 => ReadPrefix(4, false);
        case Prefix64 => ReadPrefix(8, false);
        case PrefixVar => ReadPrefix(0, true);
        case Unsupported => Check(NotSupported);
      }
    }

    /** The head of session::read: consume what the handler has seen, mark where the frame begins. */
    method BeginFrame()
      requires buf.Valid()
      modifies this, buf
      ensures Now() == old(Now()).Entered()
      ensures buf.Valid() && frameStart == buf.externalSize == buf.segment.size && received == old(received)
        && calls == old(calls)
      ensures FramePosition() == old(|dropped| + buf.externalSize)
    {
      status := Reading;
      if !config.options.doNotConsume {
        dropped := dropped + buf.storage[..buf.externalSize];
        buf.ConsumeWholeExternal();
      }
      buf.MarkExternal();
      frameStart := buf.externalSize;
    }

    /** session::check with an error: report it and start closing. */
    method Check(error: Failure)
      requires Now().Mid() && error in {MessageSize, ValueTooLarge, BadMessage, NotSupported}
      requires CutOf(config, Now().Unread()).Reject? && error == Verdict(config, Now().Unread())
      modifies this
      ensures Valid() && received == old(received) && calls == old(calls)
      ensures FramePosition() >= old(FramePosition())
      ensures !SocketFailed()
      ensures failure == error && pending.Idle? && status.Closing?
    {
      hide Traced, Reaches, Frames, CutOf, State.Linked, State.Conserved, State.Bounded;
      ghost var before := Now();
      Failing(before, error);
      failure, status := error, Closing;
    }

    /**
     The tail all reads share: point the segment at what became external since the mark, run the
     handler, pass over trailer bytes, read on.
     */
    method HandOver(trailer: nat)
      requires Now().CanHandOver(trailer)
      modifies this, buf
      ensures Valid() && received == old(received) && old(calls) <= calls
      ensures old(Now().HandedOver(trailer).calls) <= calls
      ensures FramePosition() > old(FramePosition())
      ensures !SocketFailed()
      decreases |Now().Unread()|, 0
    {
      hide Traced, Reaches, Frames, CutOf, State.Linked, State.Conserved, State.Bounded, State.Valid, State.AtRead;
      ghost var before := Now();
      RunHandler(trailer);
      HandingOver(before, trailer);
      Read();
    }

    /** The handler gets the segment and the whole external input, and may leave new settings. */
    method RunHandler(trailer: nat)
      requires buf.Valid()
      modifies this, buf
      ensures Now() == old(Now()).HandedOver(trailer)
    {
      MakeCall(trailer);
      TakeReaction(handler(calls));
      buf.CommitToExternal(trailer);
    }

    method MakeCall(ghost trailer: nat)
      requires buf.Valid()
      modifies this, buf
      ensures buf.Valid() && Now() == old(Now()).Called(trailer)
    {
      spans := spans + [Now().SpanHere(trailer)];
      buf.MoveToNewSegment();
      var region := buf.segment;
      calls := calls + [Call(buf.storage[region.begin..region.begin + region.size], buf.storage[..buf.externalSize])];
    }

    method TakeReaction(reaction: Reaction)
      requires buf.Valid()
      modifies this, buf
      ensures buf.Valid() && Now() == old(Now()).Reacted(reaction)
    {
      dropped := dropped + buf.storage[..Min(reaction.consumed, buf.externalSize)];
      buf.Consume(reaction.consumed);
      if reaction.Quit? { status := Closing; } else { config := reaction.config; }
    }

    method ReadSome(size: nat)
      requires Now().Mid() && size == config.limit && frameStart == buf.externalSize == buf.segment.size
      requires CutOf(config, Now().Unread()).Unframed?
      modifies this, buf
      ensures Valid() && received == old(received) && old(calls) <= calls
      ensures if old(buf.internalSize) == 0 then pending == SomeBytes(size) && calls == old(calls)
        else HandsOn(old(Now()), calls, old(Now().view.Internal()[..Min(size, buf.internalSize)]))
      ensures FramePosition() >= old(FramePosition())
      ensures !SocketFailed()
      decreases |Now().Unread()|, 1
    {
      hide Traced, Reaches, Frames, CutOf, State.Linked, State.Conserved, State.Bounded, State.Valid;
      GivingUp(Now());
      unframed := true;
      ghost var before := Now();
      if buf.internalSize > 0 {
        ExposeKeeps(before, size);
        buf.CommitToExternal(size);
        HandOver(0);
        ExposedIsCalled(before, size, calls);
      } else {
        SomeStarts(before);
        buf.PrepareOutput(size);
        pending := SomeBytes(size);
      }
    }

    method ReadFixed(size: nat)
      requires Now().Mid()
      requires Now().FrameAhead(size) || (size > config.limit && Wrapping(config, Now().Unread()))
      modifies this, buf
      ensures Valid() && received == old(received) && old(calls) <= calls
      ensures FramePosition() >= old(FramePosition())
      ensures !SocketFailed()
      ensures size > old(config.limit) ==> failure.Aborted? && pending.Idle? && calls == old(calls)
      decreases |Now().Unread()|, 1, 0
    {
      hide Traced, Reaches, Frames, CutOf, State.Linked, State.Conserved, State.Bounded, State.Valid, Wrapping,
        HeaderOf, State.CanHandOver;
      ghost var before := Now();
      if size > config.limit {
        Aborts(before);
        failure := Aborted;
        return;
      }
      var remaining := buf.internalSize;
      if remaining >= size {
        FixedReady(before, size);
        ExposeKeeps(before, size);
        buf.CommitToExternal(size);
        HandOver(0);
      } else {
        FixedWaits(before, size);
        buf.PrepareOutput(size - remaining);
        pending := Exactly(size - remaining, 0, ThenFrame);
      }
    }

    method ReadDelim(delim: seq<Byte>)
      requires Now().Mid() && IsDelim(config.protocol) && delim == DelimiterOf(config)
      requires frameStart == buf.externalSize == buf.segment.size
      modifies this, buf
      ensures Valid() && received == old(received) && old(calls) <= calls
      ensures FramePosition() >= old(FramePosition())
      ensures !SocketFailed()
      decreases |Now().Unread()|, 3
    {
      hide Traced, Reaches, Frames, State.Linked, State.Conserved, State.Bounded, State.Valid, State.Scanning;
      if delim == [] {
        ReadSome(config.limit);
        return;
      }
      DelimStarts(Now(), delim, config.options.ignoreProtocolBytes);
      buf.ShrinkOutput(|buf.storage| - buf.externalSize - buf.internalSize);
      pending := Until(delim, config.options.ignoreProtocolBytes, 0, 0, None);
      Scan();
    }

    /** One turn of async_read_until: search what is there, else make room for more. */
    method Scan()
      requires Now().Scanning() && pending.found.None?
      modifies this, buf
      ensures Valid() && received == old(received) && calls == old(calls)
      ensures FramePosition() >= old(FramePosition())
      ensures !SocketFailed()
    {
      hide Traced, Reaches, Frames, CutOf, CutDelim, State.Linked, State.Conserved, State.Bounded, State.Valid,
        CannotStart;
      ghost var before := Now();
      var size := Min(|buf.storage| - buf.externalSize, config.limit);
      var data := buf.storage[buf.externalSize..buf.externalSize + size];
      WindowIs(before);
      assert data == Window(config, before.Unread());
      var pos, full := PartialSearch(data, pending.delim, pending.search);
      if full {
        ScanFinds(before, pos);
        pending := pending.(found := Some(pos + |pending.delim|));
      } else if size == config.limit {
        ScanFails(before);
      } else {
        var room :| 0 < room <= config.limit - size;  // depends on the capacity of the vector
        ScanWaits(before, pos, room);
        buf.GrowOutput(room);
        pending := pending.(search := pos, room := room);
      }
    }

    method ReadPrefix(request: nat, isVar: bool)
      requires Now().Mid() && IsPrefix(config.protocol) && isVar == config.protocol.PrefixVar?
      requires frameStart == buf.externalSize == buf.segment.size
      requires !isVar ==> request == Width(config.protocol)
      requires isVar && request > 0 ==> request == buf.internalSize
      requires isVar ==> forall i :: 0 <= i < request - 1 ==> PrefixCodec.Continues(Now().view.Internal()[i])
      modifies this, buf
      ensures Valid() && received == old(received) && old(calls) <= calls
      ensures FramePosition() >= old(FramePosition())
      ensures !SocketFailed()
      ensures PrefixOutcome(old(config), old(Now().Unread()), old(calls), Now())
      decreases |Now().Unread()|, 3
    {
      hide Traced, Reaches, Frames, State.Linked, State.Conserved, State.Bounded, State.Valid, PrefixCodec.Value,
        Announced;
      ghost var before := Now();
      var remaining := buf.internalSize;
      var p := buf.storage[buf.externalSize..buf.externalSize + remaining];
      assert p == before.Unread() == before.view.Internal();
      var len, short := PrefixLength(p, request, isVar);
      assert len == HeaderLength(config, p);
      if short {
        AskForPrefix(len, isVar);
      } else if len > (if isVar then 9 else 8) {
        Check(ValueTooLarge);
      } else {
        var dataSize := PrefixCodec.Decode(p[..len], isVar, config.options.littleEndian);
        Announce(len, dataSize);
      }
    }

    /** The prefix is not complete: more of it is read, if it can ever fit. */
    method AskForPrefix(len: nat, isVar: bool)
      requires Now().Mid() && Now().PrefixAhead(len, isVar)
        && buf.internalSize < len == HeaderLength(config, Now().Unread())
      modifies this, buf
      ensures Valid() && received == old(received) && calls == old(calls)
      ensures FramePosition() >= old(FramePosition())
      ensures !SocketFailed()
      ensures PrefixOutcome(old(config), old(Now().Unread()), old(calls), Now())
    {
      hide Traced, Reaches, Frames, State.Linked, State.Conserved, State.Bounded, State.Valid, PrefixCodec.Value,
        Announced, HeaderLength, Verdict, CutOf, Wrapping;
      ghost var before := Now();
      CannotFit(config, before.Unread());
      var remaining := buf.internalSize;
      if len > config.limit {
        TooLong(config, before.Unread());
        Check(MessageSize);
      } else {
        PrefixWaits(before, len, isVar);
        PreparedReads(before, len - remaining, Exactly(len - remaining, 0, ThenPrefix(len, isVar)));
        buf.PrepareOutput(len - remaining);
        pending := Exactly(len - remaining, 0, ThenPrefix(len, isVar));
      }
    }

    /** The end of read_prefix: check what the prefix announces, then read it. */
    method Announce(len: nat, value: nat)
      requires Now().Mid() && IsPrefix(config.protocol)
      requires frameStart == buf.externalSize == buf.segment.size
      requires len == HeaderLength(config, Now().Unread()) <= buf.internalSize
      requires len <= (if config.protocol.PrefixVar? then 9 else 8) && value < TWO_64
      requires value ==
        PrefixCodec.Value(Now().Unread()[..len], config.protocol.PrefixVar?, config.options.littleEndian)
      modifies this, buf
      ensures Valid() && received == old(received) && old(calls) <= calls
      ensures FramePosition() >= old(FramePosition())
      ensures !SocketFailed()
      ensures old(Verdict(config, Now().Unread())) != NoFailure ==>
        failure == old(Verdict(config, Now().Unread())) && pending.Idle? && calls == old(calls)
      decreases |Now().Unread()|, 2
    {
      ghost var before := Now();
      AtHeader(before);
      hide State.Unread, Traced, Reaches, Frames, CutOf, State.Linked, State.Conserved, State.Bounded, State.Valid,
        State.InFrame, State.Mid, PrefixCodec.Value, HeaderLength, HeaderOf, Announced, State.FrameAhead, Wrapping,
        Width;
      var payload, error := CheckSize(config, len, value);
      AnnouncedCut(config, before.Unread(), len, value);
      if error != NoFailure {
        Check(error);
        return;
      }
      ReadPayload(len, value, payload);
    }

    /** The size is accepted, rightly or because its sum has wrapped. */
    method ReadPayload(len: nat, ghost value: nat, payload: nat)
      requires Now().Mid() && IsPrefix(config.protocol)
      requires frameStart == buf.externalSize == buf.segment.size
      requires len == HeaderLength(config, Now().Unread()) <= |Now().Unread()|
      requires len <= if config.protocol.PrefixVar? then 9 else 8
      requires value ==
        PrefixCodec.Value(Now().Unread()[..len], config.protocol.PrefixVar?, config.options.littleEndian)
      requires if payload <= config.limit then HeaderOf(config, Now().Unread()) == Complete(len, payload)
        else Announced(config, len, value).Wraps?
      modifies this, buf
      ensures Valid() && received == old(received) && old(calls) <= calls
      ensures FramePosition() >= old(FramePosition())
      ensures !SocketFailed()
      ensures payload > old(config.limit) ==> failure.Aborted? && pending.Idle? && calls == old(calls)
      decreases |Now().Unread()|, 1, 1
    {
      hide State.Unread, Traced, Reaches, Frames, CutOf, State.Linked, State.Conserved, State.Bounded, State.Valid,
        PrefixCodec.Value, HeaderLength, HeaderOf, Announced, State.FrameAhead, Wrapping, Width;
      ghost var before := Now();
      if payload <= config.limit { PrefixAccepted(before, len, payload); } else { PrefixWraps(before, len, value); }
      PassHeader(len);
      ReadFixed(payload);
    }

    /** The prefix becomes external; it is part of the segment unless protocol bytes are ignored. */
    method PassHeader(len: nat)
      requires buf.Valid()
      modifies this, buf
      ensures buf.Valid() && Now() == old(Now()).(view := HeaderPassed(config, old(buf.Look()), len))
    {
      buf.CommitToExternal(len);
      if config.options.ignoreProtocolBytes { buf.MarkExternal(); }
    }

    // ---- what the environment does ----

    /** How many bytes the running operation can take in its next socket read. */
    function Room(): nat
      reads this
    {
      match pending
      case Idle => 0
      case SomeBytes(room) => room
      case Exactly(need, got, _) => if got <= need then need - got else 0
      case Until(_, _, _, room, _) => room
    }

    /** A finished operation waits for its callback to run. */
    predicate Due()
      reads this
    {
      pending.Until? && pending.room == 0
    }

    /** The socket delivers a piece and the session runs until it waits again. */
    method Deliver(piece: seq<Byte>)
      requires Valid() && 0 < |piece| <= Room()
      modifies this, buf
      ensures Valid() && received == old(received) + piece && old(calls) <= calls
      ensures FramePosition() >= old(FramePosition())
      ensures !SocketFailed()
      ensures old(pending.Exactly?) ==> Awaiting(old(Now())) && PieceOutcome(old(Now()), piece, Now())
      ensures old(pending.SomeBytes?) ==> old(buf.Valid()) && HandsOn(old(Now()), calls, piece)
    {
      hide Traced, Reaches, Frames, CutOf, CutDelim, State.Linked, State.Conserved, State.Bounded, State.Valid,
        State.CanHandOver, State.Scanning, PieceOutcome;
      match pending {
        case SomeBytes(_) => OnSome(piece);
        case Exactly(_, _, _) => OnExactly(piece);
        case Until(_, _, _, _, _) => OnUntil(piece);
      }
    }

    /** A socket read of async_read_until: keep what came, give back the rest of the room, search again. */
    method OnUntil(piece: seq<Byte>)
      requires Valid() && pending.Until? && 0 < |piece| <= pending.room
      modifies this, buf
      ensures Valid() && received == old(received) + piece && old(calls) <= calls
      ensures FramePosition() >= old(FramePosition())
      ensures !SocketFailed()
    {
      hide Traced, Reaches, Frames, CutOf, CutDelim, State.Linked, State.Conserved, State.Bounded, State.Valid,
        State.CanHandOver, State.Scanning;
      ghost var before := Now();
      RoomIsThere(before);
      DelimArrives(before, piece);
      var unused := pending.room - |piece|;
      buf.Fill(|buf.storage| - buf.externalSize - buf.internalSize - pending.room, piece);
      buf.ShrinkOutput(unused);
      received := received + piece;
      pending := pending.(room := 0);
      Scan();
    }

    method OnSome(piece: seq<Byte>)
      requires Valid() && pending.SomeBytes? && 0 < |piece| <= pending.room
      modifies this, buf
      ensures Valid() && received == old(received) + piece && old(calls) <= calls
      ensures old(buf.Valid()) && HandsOn(old(Now()), calls, piece)
      ensures FramePosition() >= old(FramePosition())
      ensures !SocketFailed()
    {
      hide Traced, Reaches, Frames, CutOf, CutDelim, State.Linked, State.Conserved, State.Bounded, State.Valid,
        State.CanHandOver, State.Scanning;
      ghost var before := Now();
      RoomIsThere(before);
      SnatchedReady(before, piece);
      buf.Fill(0, piece);
      buf.CommitToInternal(|piece|);
      buf.CommitWholeInternal();
      received := received + piece;
      pending := Idle;
      HandOver(0);
      SomeIsEmpty(before);
      SnatchedIsCalled(before, piece, calls);
    }

    method OnExactly(piece: seq<Byte>)
      requires Valid() && pending.Exactly? && 0 < |piece| <= pending.need - pending.got
      modifies this, buf
      ensures Valid() && received == old(received) + piece && old(calls) <= calls
      ensures FramePosition() >= old(FramePosition())
      ensures !SocketFailed()
      ensures Awaiting(old(Now())) && PieceOutcome(old(Now()), piece, Now())
    {
      hide Traced, Reaches, Frames, CutOf, CutDelim, State.Linked, State.Conserved, State.Bounded, State.Valid,
        State.CanHandOver, State.Scanning, State.Collecting, PrefixOutcome;
      ghost var before := Now();
      RoomIsThere(before);
      AwaitingHere(before);
      ExactlyFills(before, piece);
      FillingReads(before, piece);
      ghost var filled := before.Filling(piece);
      buf.Fill(pending.got, piece);
      received := received + piece;
      pending := pending.(got := pending.got + |piece|);
      if pending.got < pending.need { ExactlyGoesOn(filled); } else { Finish(); }
    }

    /** The callback of an async_read that has its bytes. */
    method Finish()
      requires Now().InFrame() && Now().Collecting() && pending.got == pending.need
      modifies this, buf
      ensures Valid() && received == old(received) && old(calls) <= calls
      ensures FramePosition() >= old(FramePosition())
      ensures !SocketFailed()
      ensures old(pending.next.ThenPrefix?) ==> PrefixOutcome(old(config), old(Now().Unread()), old(calls), Now())
    {
      hide Traced, Reaches, Frames, CutOf, CutDelim, State.Linked, State.Conserved, State.Bounded, State.Valid,
        State.CanHandOver, State.Scanning, PrefixOutcome;
      ghost var filled := Now();
      ExactlyCompletes(filled);
      var next := pending.next;
      buf.CommitToInternal(pending.need);
      pending := Idle;
      match next {
        case ThenFrame =>
          FrameCompletes(filled);
          buf.CommitWholeInternal();
          HandOver(0);
        case ThenPrefix(len, isVar) =>
          PrefixCompletes(filled);
          ReadPrefix(len, isVar);
      }
    }

    /** async_read_until has ended without waiting for the socket; its callback runs. */
    method Posted()
      requires Valid() && Due()
      modifies this, buf
      ensures Valid() && received == old(received) && old(calls) <= calls
      ensures FramePosition() > old(FramePosition()) || pending.Idle?
      ensures !SocketFailed()
    {
      hide Traced, Reaches, Frames, CutOf, CutDelim, State.Linked, State.Conserved, State.Bounded, State.Valid,
        State.CanHandOver, State.Scanning;
      ghost var before := Now();
      RoomIsThere(before);
      match pending.found {
        case None =>
          DelimFails(before);
          pending, failure, status := Idle, NoDelimiter, Closing;
        case Some(end) =>
          DelimReady(before);
          var trailer := if pending.ignore then |pending.delim| else 0;
          buf.CommitToInternal(|buf.storage| - buf.externalSize - buf.internalSize);
          buf.CommitToExternal(end - trailer);
          pending := Idle;
          HandOver(trailer);
      }
    }

    /**
     The running operation ends with an error instead, be it only the empty read that asio posts when
     the delimiter is in the buffer already.
     */
    method Fail()
      requires Valid() && !pending.Idle?
      modifies this
      ensures Valid() && received == old(received) && calls == old(calls) && spans == old(spans) && status.Closing?
      ensures failure == if old(Due()) then Cancelled else IoError
    {
      hide Frames, CutOf, CutDelim, State.Linked, State.Conserved, State.Bounded, State.Valid, Traced, Reaches;
      ghost var before := Now();
      RoomIsThere(before);
      if pending.Until? && pending.room == 0 {
        BreaksLate(before);
        pending, failure, status := Idle, Cancelled, Closing;
      } else {
        Breaks(before);
        pending, failure, status := Idle, IoError, Closing;
      }
    }
  }
}

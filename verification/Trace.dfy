/**
 Where in the received stream the calls of a handler come from. Unlike the frame function this also
 covers frames that are cut by arrival (protocol::any, an empty delimiter): only their length is free.
 */
module Tracing {
  import opened Bits
  import opened Framing
  import opened Slices

  /**
   One call, as positions in the stream: the frame is [from, next), the segment [begin, end), and the
   buffer handed over is [front, end). config is what the frame was read under.
   */
  datatype Span = Span(config: Config, front: nat, from: nat, begin: nat, end: nat, next: nat)

  predicate Ordered(sp: Span, length: nat) {
    sp.front <= sp.from <= sp.begin <= sp.end <= sp.next <= length
  }

  /** The frame is the one at the front of the rest of the stream, or any piece where there is no framing. */
  predicate CutThere(stream: seq<Byte>, sp: Span)
    requires Ordered(sp, |stream|)
  {
    var cut := CutOf(sp.config, stream[sp.from..]);
    if cut.Unframed? then sp.begin == sp.from < sp.end == sp.next
    else cut == Frame(sp.begin - sp.from, sp.end - sp.from, sp.next - sp.end)
  }

  predicate Spans(stream: seq<Byte>, sp: Span, call: Call) {
    Ordered(sp, |stream|) && CutThere(stream, sp) && call == Call(stream[sp.begin..sp.end], stream[sp.front..sp.end])
  }

  /** Where the buffer begins for the next frame, after a reaction to this one. */
  function FrontAfter(sp: Span, r: Reaction): nat
    requires r.Continue?
  {
    if !r.config.options.doNotConsume then sp.next
    else if sp.front + r.consumed <= sp.end then sp.front + r.consumed else sp.end
  }

  /** A frame read under config from pos on, with the buffer beginning at front, is next in line. */
  ghost predicate Reaches(h: Handler, start: Config, calls: seq<Call>, spans: seq<Span>,
        config: Config, front: nat, pos: nat)
  {
    if spans == [] then config == start && front == 0 && pos == 0
    else
      var last, r := spans[|spans| - 1], h(calls);
      r.Continue? && config == r.config && front == FrontAfter(last, r) && pos == last.next
  }

  /** Each call comes from its span, and each span begins where the one before and the reaction to it lead. */
  ghost predicate Traced(h: Handler, start: Config, stream: seq<Byte>, calls: seq<Call>, spans: seq<Span>) {
    && |spans| == |calls|
    && (forall i :: 0 <= i < |calls| ==> Spans(stream, spans[i], calls[i]))
    && (forall i :: 0 <= i < |calls| ==>
         Reaches(h, start, calls[..i], spans[..i], spans[i].config, spans[i].front, spans[i].from))
  }

  /** What was received later changes nothing of it. */
  lemma TracedGrows(h: Handler, start: Config, stream: seq<Byte>, calls: seq<Call>, spans: seq<Span>, piece: seq<Byte>)
    requires Traced(h, start, stream, calls, spans)
    ensures Traced(h, start, stream + piece, calls, spans)
  {
    hide Reaches, Spans;
    forall i | 0 <= i < |calls| ensures Spans(stream + piece, spans[i], calls[i]) {
      SpansGrows(stream, spans[i], calls[i], piece);
    }
  }

  lemma SpansGrows(stream: seq<Byte>, sp: Span, call: Call, piece: seq<Byte>)
    requires Spans(stream, sp, call)
    ensures Spans(stream + piece, sp, call)
  {
    hide CutOf;
    var more := stream + piece;
    CutStable(sp.config, stream[sp.from..], piece);
    assert more[sp.from..] == stream[sp.from..] + piece;
    assert more[sp.begin..sp.end] == stream[sp.begin..sp.end];
    assert more[sp.front..sp.end] == stream[sp.front..sp.end];
  }

  /** One more call. */
  lemma TracedExtends(h: Handler, start: Config, stream: seq<Byte>, calls: seq<Call>, spans: seq<Span>, sp: Span,
        call: Call)
    requires Traced(h, start, stream, calls, spans) && Spans(stream, sp, call)
    requires Reaches(h, start, calls, spans, sp.config, sp.front, sp.from)
    ensures Traced(h, start, stream, calls + [call], spans + [sp])
  {
    hide Reaches, Spans;
    var cs, ss := calls + [call], spans + [sp];
    forall i | 0 <= i < |cs| ensures Reaches(h, start, cs[..i], ss[..i], ss[i].config, ss[i].front, ss[i].from) {
      assert cs[..i] == calls[..i] && ss[..i] == spans[..i];
      if i == |calls| { assert calls[..i] == calls && spans[..i] == spans; }
    }
  }

  // ---- what a trace says ----

  /** Bytes of a frame that the segment leaves out: in front of it and behind it. */
  function Ignored(c: Config, rest: seq<Byte>): (nat, seq<Byte>) {
    if !c.options.ignoreProtocolBytes then (0, [])
    else if IsPrefix(c.protocol) then (HeaderLength(c, rest), [])
    else if IsDelim(c.protocol) then (0, DelimiterOf(c))
    else (0, [])
  }

  /** The gaps between segments are the ignored protocol bytes: a length prefix or a delimiter. */
  lemma GapsAreProtocolBytes(stream: seq<Byte>, sp: Span)
    requires Ordered(sp, |stream|) && CutThere(stream, sp)
    ensures sp.begin - sp.from == Ignored(sp.config, stream[sp.from..]).0
    ensures stream[sp.end..sp.next] == Ignored(sp.config, stream[sp.from..]).1
  {
    hide CutOf, Ignored;
    var rest := stream[sp.from..];
    if CutOf(sp.config, rest).Unframed? {
      UnframedGaps(sp.config, rest);
      assert stream[sp.end..sp.next] == [];
    } else {
      FrameGaps(sp.config, rest);
      SliceOfTail(stream, sp.from, sp.end - sp.from, sp.next - sp.from);
    }
  }

  lemma UnframedGaps(c: Config, s: seq<Byte>)
    requires CutOf(c, s).Unframed?
    ensures Ignored(c, s) == (0, [])
  {
  }

  lemma FrameGaps(c: Config, s: seq<Byte>)
    requires CutOf(c, s).Frame?
    ensures var cut := CutOf(c, s);
      cut.skip == Ignored(c, s).0 && s[cut.size..cut.size + cut.trailer] == Ignored(c, s).1
  {
    hide HeaderOf, CutDelim;
    var cut := CutOf(c, s);
    if IsPrefix(c.protocol) {
      HeaderGap(c, s);
    } else if IsDelim(c.protocol) {
      DelimiterBehind(c, s);
    }
    if cut.trailer == 0 { assert s[cut.size..cut.size + 0] == []; }
  }

  lemma HeaderGap(c: Config, s: seq<Byte>)
    requires HeaderOf(c, s).Complete?
    ensures HeaderOf(c, s).len == HeaderLength(c, s)
  {
  }

  lemma DelimiterBehind(c: Config, s: seq<Byte>)
    requires DelimiterOf(c) != [] && CutDelim(c, s).Frame?
    ensures var cut := CutDelim(c, s);
      && cut.skip == 0
      && s[cut.size..cut.size + cut.trailer] == if c.options.ignoreProtocolBytes then DelimiterOf(c) else []
  {
    var d := DelimiterOf(c);
    var window := if |s| <= c.limit then s else s[..c.limit];
    var i := Find(window, d, 0).value;
    forall k | 0 <= k < |d| ensures s[i..i + |d|][k] == d[k] {
      assert window[i..i + |d|][k] == window[i + k];
    }
    assert s[i..i + |d|] == d;
    assert s[i + |d|..i + |d| + 0] == [];
  }

  function Concat(calls: seq<Call>): seq<Byte> {
    if calls == [] then [] else Concat(calls[..|calls| - 1]) + calls[|calls| - 1].segment
  }

  predicate Gapless(sp: Span) { sp.from == sp.begin && sp.end == sp.next }

  /** Where frames j and later follow on each other without gaps, their segments are the stream itself. */
  lemma {:induction false} SegmentsJoin(h: Handler, start: Config, stream: seq<Byte>, calls: seq<Call>,
        spans: seq<Span>, j: nat, i: nat)
    requires Traced(h, start, stream, calls, spans) && j <= i < |calls|
    requires forall k :: j <= k <= i ==> Gapless(spans[k])
    ensures spans[j].from <= spans[i].end <= |stream|
    ensures Concat(calls[j..i + 1]) == stream[spans[j].from..spans[i].end]
    decreases i
  {
    hide Reaches, CutThere, Traced, Concat, Spans;
    SpanAt(h, start, stream, calls, spans, i);
    SpanAt(h, start, stream, calls, spans, j);
    OneSegment(calls, j, i);
    if i > j {
      SegmentsJoin(h, start, stream, calls, spans, j, i - 1);
      Consecutive(h, start, stream, calls, spans, i);
      SpanAt(h, start, stream, calls, spans, i - 1);
      JoinSlices(stream, spans[j].from, spans[i].begin, spans[i].end);
    }
  }

  lemma SpanAt(h: Handler, start: Config, stream: seq<Byte>, calls: seq<Call>, spans: seq<Span>, i: nat)
    requires Traced(h, start, stream, calls, spans) && i < |calls|
    ensures |spans| == |calls| && Ordered(spans[i], |stream|)
      && calls[i].segment == stream[spans[i].begin..spans[i].end]
  {
    hide Reaches, CutThere;
    assert Spans(stream, spans[i], calls[i]);
  }

  lemma OneSegment(calls: seq<Call>, j: nat, i: nat)
    requires j <= i < |calls|
    ensures Concat(calls[j..i + 1]) == if i == j then calls[i].segment else Concat(calls[j..i]) + calls[i].segment
  {
    assert calls[j..i + 1][..i - j] == calls[j..i];
    if i == j { assert calls[j..i] == []; }
  }

  lemma Consecutive(h: Handler, start: Config, stream: seq<Byte>, calls: seq<Call>, spans: seq<Span>, i: nat)
    requires Traced(h, start, stream, calls, spans) && 0 < i < |calls|
    ensures spans[i].from == spans[i - 1].next
  {
    assert Reaches(h, start, calls[..i], spans[..i], spans[i].config, spans[i].front, spans[i].from);
  }
}

/**
 The read buffer of a session: one vector cut into external input (handed to the handler),
 internal input (received, not yet handed out) and output (where the next bytes are put), and a
 segment that marks the part of the external input added last.
 */
module Buffers {
  import opened Bits

  /** std::vector::resize: cut at the end, or extended with zeros. */
  function Resize(s: seq<Byte>, n: nat): (r: seq<Byte>)
    ensures |r| == n
  {
    if n <= |s| then s[..n] else s + Zeros(n - |s|)
  }

  function Min(a: nat, b: nat): (m: nat)
    ensures m <= a && m <= b && (m == a || m == b)
  {
    if a <= b then a else b
  }

  /** Begin and size of a segment in the external input. */
  datatype Region = Region(begin: nat, size: nat)

  /** What buffer::consume makes of the segment when n bytes leave the front. */
  function Shifted(r: Region, n: nat): Region {
    var end := r.begin + r.size;
    if n < r.begin then Region(r.begin - n, end - (r.begin - n))
    else if n < end then Region(0, end - n)
    else Region(0, 0)
  }

  predicate Within(r: Region, i: int) { r.begin <= i < r.begin + r.size }

  /** shifted covers the bytes of r that stay when n bytes leave the front, and no others. */
  ghost predicate Tracks(r: Region, shifted: Region, n: nat) {
    forall i :: n <= i ==> Within(r, i) == Within(shifted, i - n)
  }

  /**
   buffer::consume keeps the segment on the same bytes exactly when it is not called with 0 < n < begin.
   Then it begins where it should and takes in n bytes too many.
   */
  lemma ConsumeTracksSegment(r: Region, n: nat)
    ensures Tracks(r, Shifted(r, n), n) <==> n == 0 || r.begin <= n
    ensures 0 < n < r.begin ==> Shifted(r, n) == Region(r.begin - n, r.size + n)
  {
    if 0 < n < r.begin {
      var end := r.begin + r.size;
      assert !Within(r, end) && Within(Shifted(r, n), end - n);
    }
  }

  /**
   The fields of a buffer at one moment and what its operations make of them. Moving a boundary
   between regions leaves the bytes alone.
   */
  datatype View = View(storage: seq<Byte>, externalSize: nat, internalSize: nat, segment: Region) {

    ghost predicate Valid() { externalSize + internalSize <= |storage| }

    /** Where the output region begins. */
    function Filled(): nat { externalSize + internalSize }

    function External(): seq<Byte>
      requires Valid()
    {
      storage[..externalSize]
    }

    function Internal(): seq<Byte>
      requires Valid()
    {
      storage[externalSize..Filled()]
    }

    function OutputSize(): nat
      requires Valid()
    {
      |storage| - Filled()
    }

    function Prepared(n: nat): View {
      this.(storage := Resize(storage, Filled() + n))
    }

    function Grown(n: nat): View {
      this.(storage := Resize(storage, |storage| + n))
    }

    function Shrunk(n: nat): View
      requires Valid()
    {
      this.(storage := Resize(storage, |storage| - Min(n, OutputSize())))
    }

    function Put(offset: nat, piece: seq<Byte>): View
      requires Valid() && offset + |piece| <= OutputSize()
    {
      var at := Filled() + offset;
      this.(storage := storage[..at] + piece + storage[at + |piece|..])
    }

    function ReceivedInternal(n: nat): View
      requires Valid()
    {
      this.(internalSize := internalSize + Min(n, OutputSize()))
    }

    function ExposedWhole(): View {
      this.(externalSize := externalSize + internalSize, internalSize := 0)
    }

    function Exposed(n: nat): View {
      var k := Min(n, internalSize);
      this.(externalSize := externalSize + k, internalSize := internalSize - k)
    }

    function ConsumedExternal(n: nat): View
      requires Valid()
    {
      var k := Min(n, externalSize);
      this.(storage := storage[k..], externalSize := externalSize - k)
    }

    function Marked(): View {
      this.(segment := Region(0, externalSize))
    }

    /** The new segment is the external input without as many bytes as the old segment had. */
    function MovedOn(): View {
      var k := Min(segment.size, externalSize);
      this.(segment := Region(k, externalSize - k))
    }

    function Consumed(n: nat): View
      requires Valid()
    {
      ConsumedExternal(n).(segment := Shifted(segment, n))
    }
  }

  /** Bytes at a position replaced by others, and what is in front of them. */
  lemma Overwritten(b: seq<Byte>, at: nat, piece: seq<Byte>, i: nat, j: nat)
    requires at + |piece| <= |b| && i <= j <= at
    ensures var w := b[..at] + piece + b[at + |piece|..];
      && |w| == |b| && w[..i] == b[..i] && w[i..j] == b[i..j]
      && forall k :: 0 <= k < |w| ==> w[k] == if at <= k < at + |piece| then piece[k - at] else b[k]
  {
  }

  class TripleBuffer {
    var storage: seq<Byte>
    var externalSize: nat
    var internalSize: nat
    var segment: Region

    ghost predicate Valid()
      reads this
    {
      Look().Valid()
    }

    function Look(): View
      reads this
    {
      View(storage, externalSize, internalSize, segment)
    }

    /** Both inputs and the segment are as they were in v; the output region may differ. */
    ghost predicate InputKept(v: View)
      reads this
      requires v.Valid()
    {
      && Valid() && externalSize == v.externalSize && internalSize == v.internalSize && segment == v.segment
      && Look().External() == v.External() && Look().Internal() == v.Internal()
    }

    constructor ()
      ensures Valid() && Look() == View([], 0, 0, Region(0, 0))
    {
      storage, externalSize, internalSize, segment := [], 0, 0, Region(0, 0);
    }

    method PrepareOutput(n: nat)
      requires Valid()
      modifies this
      ensures Valid() && Look() == old(Look()).Prepared(n)
      ensures Look().OutputSize() == n && InputKept(old(Look()))
    {
      storage := Resize(storage, externalSize + internalSize + n);
    }

    method GrowOutput(n: nat)
      requires Valid()
      modifies this
      ensures Valid() && Look() == old(Look()).Grown(n)
      ensures old(storage) <= storage && |storage| == |old(storage)| + n && InputKept(old(Look()))
    {
      storage := Resize(storage, |storage| + n);
    }

    method ShrinkOutput(n: nat)
      requires Valid()
      modifies this
      ensures Valid() && Look() == old(Look()).Shrunk(n)
      ensures storage <= old(storage) && InputKept(old(Look()))
      ensures var before := old(Look().OutputSize());
        Look().OutputSize() == if n <= before then before - n else 0
    {
      var k := Min(n, |storage| - externalSize - internalSize);
      storage := Resize(storage, |storage| - k);
    }

    /** What a socket read does: it overwrites part of the output region. */
    method Fill(offset: nat, piece: seq<Byte>)
      requires Valid() && offset + |piece| <= Look().OutputSize()
      modifies this
      ensures Valid() && Look() == old(Look()).Put(offset, piece) && InputKept(old(Look()))
      ensures |storage| == |old(storage)|
      ensures forall i :: 0 <= i < |storage| ==> var at := externalSize + internalSize + offset;
        storage[i] == if at <= i < at + |piece| then piece[i - at] else old(storage)[i]
    {
      var at := externalSize + internalSize + offset;
      Overwritten(storage, at, piece, externalSize, externalSize + internalSize);
      storage := storage[..at] + piece + storage[at + |piece|..];
    }

    method CommitToInternal(n: nat)
      requires Valid()
      modifies this
      ensures Valid() && Look() == old(Look()).ReceivedInternal(n)
      ensures storage == old(storage) && externalSize == old(externalSize) && segment == old(segment)
      ensures var there := old(Look().OutputSize()); internalSize == old(internalSize) + if n <= there then n else there
    {
      internalSize := internalSize + Min(n, |storage| - externalSize - internalSize);
    }

    method CommitWholeInternal()
      requires Valid()
      modifies this
      ensures Valid() && Look() == old(Look()).ExposedWhole()
      ensures storage == old(storage) && segment == old(segment)
      ensures Look().External() == old(Look().External() + Look().Internal()) && internalSize == 0
    {
      externalSize, internalSize := externalSize + internalSize, 0;
    }

    method CommitToExternal(n: nat)
      requires Valid()
      modifies this
      ensures Valid() && Look() == old(Look()).Exposed(n)
      ensures storage == old(storage) && segment == old(segment)
      ensures externalSize == old(externalSize) + (if n <= old(internalSize) then n else old(internalSize))
      ensures externalSize + internalSize == old(externalSize + internalSize)
    {
      var k := Min(n, internalSize);
      externalSize, internalSize := externalSize + k, internalSize - k;
    }

    method ConsumeFromExternal(n: nat)
      requires Valid()
      modifies this
      ensures Valid() && Look() == old(Look()).ConsumedExternal(n)
      ensures internalSize == old(internalSize) && segment == old(segment)
      ensures var k := if n <= old(externalSize) then n else old(externalSize);
        externalSize == old(externalSize) - k && storage == old(storage)[k..]
    {
      var k := Min(n, externalSize);
      storage, externalSize := storage[k..], externalSize - k;
    }

    method ConsumeWholeExternal()
      requires Valid()
      modifies this
      ensures Valid() && Look() == old(Look()).ConsumedExternal(old(externalSize)) && externalSize == 0
      ensures storage == old(storage)[old(externalSize)..] && internalSize == old(internalSize)
      ensures segment == old(segment)
    {
      storage, externalSize := storage[externalSize..], 0;
    }

    method MarkExternal()
      requires Valid()
      modifies this
      ensures Valid() && Look() == old(Look()).Marked()
      ensures segment == Region(0, externalSize) && Look() == old(Look()).(segment := segment)
    {
      segment := Region(0, externalSize);
    }

    method MoveToNewSegment()
      requires Valid()
      modifies this
      ensures Valid() && Look() == old(Look()).MovedOn() && Look() == old(Look()).(segment := segment)
      ensures segment.begin + segment.size == externalSize
      ensures segment.begin == if old(segment.size) <= externalSize then old(segment.size) else externalSize
    {
      var k := Min(segment.size, externalSize);
      segment := Region(k, externalSize - k);
    }

    /** buffer::consume. */
    method Consume(n: nat)
      requires Valid()
      modifies this
      ensures Valid() && Look() == old(Look()).Consumed(n)
      ensures var k := if n <= old(externalSize) then n else old(externalSize);
        externalSize == old(externalSize) - k && storage == old(storage)[k..] && internalSize == old(internalSize)
      ensures if n == 0 || old(segment.begin) <= n then Tracks(old(segment), segment, n)
        else segment == Region(old(segment.begin) - n, old(segment.size) + n)
    {
      ConsumeTracksSegment(segment, n);
      ConsumeFromExternal(n);
      segment := Shifted(segment, n);
    }
  }
}

/**
 The two lists of the write queue and the marker that says who may send. Generic in what is queued:
 the session sees buffers, the buffer manager sees the nodes that hold them.
 */
module WriteQueue {
  /** The largest long. */
  const MAX_MARKER: nat := 0x7FFF_FFFF_FFFF_FFFF

  datatype Queue<T> = Queue(managed: seq<T>, marked: seq<T>, marker: nat) {
    /** The marker was given out if a batch is marked, so that its negation is negative. */
    predicate Valid() { marker <= MAX_MARKER && (marked != [] ==> marker >= 1) }

    /** The locked part of manage(): one splice, whatever the number of buffers. */
    function Manage(list: seq<T>): Queue<T> { this.(managed := managed + list) }

    /** mark(): the queue afterwards and the result. */
    function Mark(): (Queue<T>, int) {
      if marked != [] then (this, -(marker as int))
      else if managed == [] then (this, 0)
      else
        var m := if marker == MAX_MARKER then 1 else marker + 1;
        (Queue([], managed, m), m)
    }

    /** The end of clear_marked(). */
    function Clear(): Queue<T> { this.(marked := []) }

    /** What is still to be sent, in order. */
    function Pending(): seq<T> { marked + managed }
  }

  /**
   What the sign of mark() tells the caller, for every history of the marker: positive exactly when
   this caller took the whole managed list as its batch, negative exactly when a batch was already
   taken, zero exactly when there was nothing. The wrap at the largest long changes none of this.
   */
  lemma MarkSign<T>(q: Queue<T>)
    requires q.Valid()
    ensures var (after, r) := q.Mark();
      && after.Valid() && after.Pending() == q.Pending()
      && (r > 0 <==> q.marked == [] && q.managed != [])
      && (r > 0 ==> after.marked == q.managed && after.managed == [] && r == after.marker)
      && (r > 0 ==> r == if q.marker == MAX_MARKER then 1 else q.marker + 1)
      && (r < 0 ==> r == -(q.marker as int))
      && (r < 0 <==> q.marked != [])
      && (r == 0 <==> q.marked == [] && q.managed == [])
      && (r <= 0 ==> after == q)
  {
    assert q.marked == [] ==> q.managed + [] == q.Pending();
  }

  /** Two markers in a row differ, so a stale one is told apart from the next. */
  lemma MarkersDiffer<T>(q: Queue<T>, list: seq<T>)
    requires q.Valid() && q.Mark().1 > 0 && list != []
    ensures var again := q.Mark().0.Clear().Manage(list).Mark().1; again > 0 && again != q.Mark().1
  {
    var once := q.Mark().0.Clear();
    assert once.Manage(list).managed == list;
  }

  /** All the buffers of several calls. */
  function Flat<T>(calls: seq<seq<T>>): seq<T> {
    if calls == [] then [] else Flat(calls[..|calls| - 1]) + calls[|calls| - 1]
  }

  lemma FlatSnoc<T>(calls: seq<seq<T>>, list: seq<T>)
    ensures Flat(calls + [list]) == Flat(calls) + list
  {
    assert (calls + [list])[..|calls|] == calls;
  }

  lemma {:induction false} FlatConcat<T>(a: seq<seq<T>>, b: seq<seq<T>>)
    ensures Flat(a + b) == Flat(a) + Flat(b)
  {
    if b == [] {
      assert a + b == a;
    } else {
      var n := |b| - 1;
      assert (a + b)[..|a| + n] == a + b[..n];
      FlatConcat(a, b[..n]);
    }
  }

  lemma FlatCut<T>(calls: seq<seq<T>>, i: nat, j: nat)
    requires i <= j <= |calls|
    ensures Flat(calls[..j]) == Flat(calls[..i]) + Flat(calls[i..j])
  {
    assert calls[..j] == calls[..i] + calls[i..j];
    FlatConcat(calls[..i], calls[i..j]);
  }
}

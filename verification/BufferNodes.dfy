/**
 Where the nodes of the write queue are. Nodes allocated with the manager go round between the cache
 and the queue; when the cache is empty a node is taken from the pool and given back after use. Every
 locked section is one step, and threads interleave freely.
 */
module BufferNodes {
  import opened Runs
  import opened Wrappers
  import opened WriteQueue

  /** An address. */
  type Node = nat

  datatype Place = Cached | InHand(t: nat) | Managed | Marked | Gone

  /** A thread inside manage(): its private list, and whether it has just found the cache empty. */
  datatype Hand = Hand(nodes: seq<Node>, missed: bool)

  /**
   first and reserve delimit the nodes allocated with the manager. freed counts the marked nodes
   that clear_marked() has disposed of: the list itself is reset at the end. place is a record of
   where each node ever constructed is.
   */
  datatype Nodes = Nodes(first: Node, reserve: nat, cached: seq<Node>, queue: Queue<Node>, freed: nat,
    hands: seq<Hand>, place: map<Node, Place>)
  {
    predicate Reserved(n: Node) { first <= n < first + reserve }

    /** What the pool may hand out: not among the reserve, not in use. */
    predicate Allocatable(n: Node) { !Reserved(n) && (n in place ==> place[n] == Gone) }
  }

  function Downward(first: Node, reserve: nat): (l: seq<Node>)
    ensures |l| == reserve && forall i :: 0 <= i < reserve ==> l[i] == first + reserve - 1 - i
  {
    seq(reserve, i requires 0 <= i < reserve => first + reserve - 1 - i)
  }

  /** The constructor pushes its nodes to the front of the cache one by one. */
  function Init(first: Node, reserve: nat, threads: nat): Nodes {
    Nodes(first, reserve, Downward(first, reserve), Queue([], [], 0), 0, seq(threads, i => Hand([], false)),
      map n | n in Downward(first, reserve) :: Cached)
  }

  datatype Step =
    | Pop                  // hold_buffer(): take a node from the cache
    | Miss                 // hold_buffer(): the cache is empty
    | Allocate(n: Node)    // hold_buffer(): a node from the pool instead
    | Splice               // the end of manage()
    | MarkBatch            // mark()
    | Dispose              // clear_marked(): free_buffer() on the next node
    | Reset                // clear_marked(): the list is empty again

  predicate Enabled(v: Nodes, t: nat, a: Step) {
    && t < |v.hands|
    && match a
       case Pop => v.cached != [] && !v.hands[t].missed
       case Miss => v.cached == [] && !v.hands[t].missed
       case Allocate(n) => v.hands[t].missed && v.Allocatable(n)
       case Splice => !v.hands[t].missed
       case MarkBatch => true
       case Dispose => v.freed < |v.queue.marked|
       case Reset => v.queue.marked != [] && v.freed == |v.queue.marked|
  }

  function Moved(place: map<Node, Place>, from: Place, to: Place): map<Node, Place> {
    map n | n in place :: if place[n] == from then to else place[n]
  }

  function Next(v: Nodes, t: nat, a: Step): Nodes
    requires Enabled(v, t, a)
  {
    match a
    case Pop =>
      var n := v.cached[0];
      v.(cached := v.cached[1..], hands := v.hands[t := Hand(v.hands[t].nodes + [n], false)],
        place := v.place[n := InHand(t)])
    case Miss => v.(hands := v.hands[t := Hand(v.hands[t].nodes, true)])
    case Allocate(n) =>
      v.(hands := v.hands[t := Hand(v.hands[t].nodes + [n], false)], place := v.place[n := InHand(t)])
    case Splice =>
      v.(queue := v.queue.Manage(v.hands[t].nodes), hands := v.hands[t := Hand([], false)],
         place := Moved(v.place, InHand(t), Managed))
    case MarkBatch =>
      var (queue, r) := v.queue.Mark();
      if r > 0 then v.(queue := queue, place := Moved(v.place, Managed, Marked)) else v
    case Dispose =>
      var n := v.queue.marked[v.freed];
      if v.Reserved(n) then v.(freed := v.freed + 1, cached := [n] + v.cached, place := v.place[n := Cached])
      else v.(freed := v.freed + 1, place := v.place[n := Gone])
    case Reset => v.(queue := v.queue.Clear(), freed := 0)
  }

  // ---- conservation ----

  predicate Distinct(l: seq<Node>) { forall i, j :: 0 <= i < j < |l| ==> l[i] != l[j] }

  /** A list holds exactly the nodes of one place, each once. */
  ghost predicate Holds(l: seq<Node>, place: map<Node, Place>, p: Place) {
    Distinct(l) && forall n :: n in l <==> n in place && place[n] == p
  }

  /**
   Every node is in exactly one place, and in the list that belongs to the place exactly once. Nodes
   of the reserve are never given to the pool and nodes of the pool never cached.
   */
  ghost predicate Conserved(v: Nodes) {
    && v.queue.Valid() && v.freed <= |v.queue.marked|
    && Holds(v.cached, v.place, Cached)
    && Holds(v.queue.managed, v.place, Managed)
    && Holds(v.queue.marked[v.freed..], v.place, Marked)
    && (forall t :: 0 <= t < |v.hands| ==> Holds(v.hands[t].nodes, v.place, InHand(t)))
    && (forall n :: n in v.place && v.place[n].InHand? ==> v.place[n].t < |v.hands|)
    && (forall n :: v.Reserved(n) ==> n in v.place && v.place[n] != Gone)
    && (forall n :: n in v.place && v.place[n] == Cached ==> v.Reserved(n))
  }

  lemma HoldsElsewhere(l: seq<Node>, place: map<Node, Place>, p: Place, n: Node, q: Place)
    requires Holds(l, place, p) && q != p && (n in place ==> place[n] != p)
    ensures Holds(l, place[n := q], p)
  {
  }

  lemma HoldsPopped(l: seq<Node>, place: map<Node, Place>, p: Place, q: Place)
    requires Holds(l, place, p) && l != [] && q != p
    ensures Holds(l[1..], place[l[0] := q], p)
  {
    assert l == [l[0]] + l[1..];
  }

  lemma HoldsPushed(l: seq<Node>, place: map<Node, Place>, p: Place, n: Node)
    requires Holds(l, place, p) && (n in place ==> place[n] != p)
    ensures Holds(l + [n], place[n := p], p) && Holds([n] + l, place[n := p], p)
  {
  }

  lemma HoldsThrough(l: seq<Node>, place: map<Node, Place>, p: Place, from: Place, to: Place)
    requires Holds(l, place, p) && p != from && p != to
    ensures Holds(l, Moved(place, from, to), p)
  {
  }

  lemma DistinctJoined(l: seq<Node>, m: seq<Node>)
    requires Distinct(l) && Distinct(m) && forall n :: n in l ==> n !in m
    ensures Distinct(l + m)
  {
    forall i, j | 0 <= i < |l| && 0 <= j < |m| ensures l[i] != m[j] {
      assert l[i] in l && m[j] in m;
    }
  }

  lemma HoldsJoined(l: seq<Node>, m: seq<Node>, place: map<Node, Place>, from: Place, to: Place)
    requires Holds(l, place, to) && Holds(m, place, from) && from != to
    ensures Holds(l + m, Moved(place, from, to), to) && Holds([], Moved(place, from, to), from)
  {
    DistinctJoined(l, m);
  }

  lemma ConservedInit(first: Node, reserve: nat, threads: nat)
    ensures Conserved(Init(first, reserve, threads))
  {
    var v := Init(first, reserve, threads);
    forall n | first <= n < first + reserve ensures n in v.cached { assert v.cached[first + reserve - 1 - n] == n; }
  }

  lemma ConservedStep(v: Nodes, t: nat, a: Step)
    requires Conserved(v) && Enabled(v, t, a)
    ensures Conserved(Next(v, t, a))
  {
    match a {
      case Pop => ConservedTake(v, t, v.cached[0], v.cached[1..]);
      case Miss =>
      case Allocate(n) => ConservedTake(v, t, n, v.cached);
      case Splice => ConservedSplice(v, t);
      case MarkBatch => ConservedMark(v, t);
      case Dispose => ConservedDispose(v, t);
      case Reset =>
    }
  }

  lemma ConservedTake(v: Nodes, t: nat, n: Node, rest: seq<Node>)
    requires Conserved(v) && t < |v.hands|
    requires (v.cached != [] && n == v.cached[0] && rest == v.cached[1..]) || (v.Allocatable(n) && rest == v.cached)
    ensures Conserved(v.(cached := rest, hands := v.hands[t := Hand(v.hands[t].nodes + [n], false)],
      place := v.place[n := InHand(t)]))
  {
    hide Holds;
    var w := v.(cached := rest, hands := v.hands[t := Hand(v.hands[t].nodes + [n], false)],
      place := v.place[n := InHand(t)]);
    assert n in v.place ==> v.place[n] == Cached || v.place[n] == Gone by { InCache(v); }
    if rest == v.cached { HoldsElsewhere(v.cached, v.place, Cached, n, InHand(t)); }
    else { HoldsPopped(v.cached, v.place, Cached, InHand(t)); }
    HoldsElsewhere(v.queue.managed, v.place, Managed, n, InHand(t));
    HoldsElsewhere(v.queue.marked[v.freed..], v.place, Marked, n, InHand(t));
    forall u | 0 <= u < |w.hands| ensures Holds(w.hands[u].nodes, w.place, InHand(u)) {
      if u == t { HoldsPushed(v.hands[t].nodes, v.place, InHand(t), n); }
      else { HoldsElsewhere(v.hands[u].nodes, v.place, InHand(u), n, InHand(t)); }
    }
  }

  lemma InCache(v: Nodes)
    requires Conserved(v)
    ensures forall n :: n in v.cached ==> n in v.place && v.place[n] == Cached
  {
  }

  lemma ConservedSplice(v: Nodes, t: nat)
    requires Conserved(v) && t < |v.hands|
    ensures Conserved(v.(queue := v.queue.Manage(v.hands[t].nodes), hands := v.hands[t := Hand([], false)],
      place := Moved(v.place, InHand(t), Managed)))
  {
    hide Holds;
    HoldsThrough(v.cached, v.place, Cached, InHand(t), Managed);
    HoldsJoined(v.queue.managed, v.hands[t].nodes, v.place, InHand(t), Managed);
    HoldsThrough(v.queue.marked[v.freed..], v.place, Marked, InHand(t), Managed);
    forall u | 0 <= u < |v.hands| && u != t
      ensures Holds(v.hands[u].nodes, Moved(v.place, InHand(t), Managed), InHand(u))
    {
      HoldsThrough(v.hands[u].nodes, v.place, InHand(u), InHand(t), Managed);
    }
  }

  lemma ConservedMark(v: Nodes, t: nat)
    requires Conserved(v) && t < |v.hands|
    ensures Conserved(Next(v, t, MarkBatch))
  {
    hide Holds;
    MarkSign(v.queue);
    if v.queue.Mark().1 > 0 {
      HoldsThrough(v.cached, v.place, Cached, Managed, Marked);
      HoldsJoined(v.queue.marked, v.queue.managed, v.place, Managed, Marked);
      assert v.queue.marked[0..] == [] && [] + v.queue.managed == v.queue.managed[0..];
      forall u | 0 <= u < |v.hands| ensures Holds(v.hands[u].nodes, Moved(v.place, Managed, Marked), InHand(u)) {
        HoldsThrough(v.hands[u].nodes, v.place, InHand(u), Managed, Marked);
      }
    }
  }

  lemma ConservedDispose(v: Nodes, t: nat)
    requires Conserved(v) && Enabled(v, t, Dispose)
    ensures Conserved(Next(v, t, Dispose))
  {
    hide Holds;
    var batch := v.queue.marked[v.freed..];
    var n := batch[0];
    var q := if v.Reserved(n) then Cached else Gone;
    assert batch[1..] == v.queue.marked[v.freed + 1..];
    assert v.place[n] == Marked by { IsMarked(v); }
    HoldsPopped(batch, v.place, Marked, q);
    if v.Reserved(n) {
      HoldsPushed(v.cached, v.place, Cached, n);
    } else {
      HoldsElsewhere(v.cached, v.place, Cached, n, q);
    }
    HoldsElsewhere(v.queue.managed, v.place, Managed, n, q);
    forall u | 0 <= u < |v.hands| ensures Holds(v.hands[u].nodes, v.place[n := q], InHand(u)) {
      HoldsElsewhere(v.hands[u].nodes, v.place, InHand(u), n, q);
    }
  }

  lemma IsMarked(v: Nodes)
    requires Conserved(v) && v.freed < |v.queue.marked|
    ensures var n := v.queue.marked[v.freed..][0]; n in v.place && v.place[n] == Marked
  {
    assert v.queue.marked[v.freed..][0] in v.queue.marked[v.freed..];
  }

  // ---- runs ----

  /** The nodes as a system of threads. */
  function Move(v: Nodes, t: nat, a: Step): Option<Nodes> {
    if Enabled(v, t, a) then Some(Next(v, t, a)) else None
  }

  /** In every interleaving every node is in one place, and the two kinds of node are never mixed up. */
  lemma NodesConserved(first: Node, reserve: nat, threads: nat, run: seq<Event<Step>>)
    requires Legal(Move, Init(first, reserve, threads), run)
    ensures Conserved(After(Move, Init(first, reserve, threads), run))
  {
    hide Conserved, Legal, After, Enabled, Next, Init;
    ConservedInit(first, reserve, threads);
    forall v, t, a | Conserved(v) && Move(v, t, a).Some? ensures Conserved(Move(v, t, a).value) {
      ConservedStep(v, t, a);
    }
    KeptByRun(Move, Conserved, Init(first, reserve, threads), run);
  }

  /** The nodes on which the destructor calls ~persistent_buffer(). */
  function Destroyed(v: Nodes): seq<Node> { v.cached + v.queue.managed + v.queue.marked }

  /** With nobody inside manage() or clear_marked(), the destructor destroys every live node exactly once. */
  lemma DestroyedOnce(first: Node, reserve: nat, threads: nat, run: seq<Event<Step>>)
    requires Legal(Move, Init(first, reserve, threads), run)
    requires var v := After(Move, Init(first, reserve, threads), run);
      v.freed == 0 && forall t :: 0 <= t < |v.hands| ==> v.hands[t].nodes == []
    ensures var v := After(Move, Init(first, reserve, threads), run);
      Distinct(Destroyed(v)) && forall n :: n in Destroyed(v) <==> n in v.place && v.place[n] != Gone
  {
    hide Legal, After;
    NodesConserved(first, reserve, threads, run);
    var v := After(Move, Init(first, reserve, threads), run);
    assert v.queue.marked[0..] == v.queue.marked;
    DistinctJoined(v.cached, v.queue.managed);
    DistinctJoined(v.cached + v.queue.managed, v.queue.marked);
  }
}

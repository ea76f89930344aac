/**
 The buffer manager itself, on fields that change in place. Each locked section is a method; what the
 methods do to the queue is stated on the bytes queued, what they do to the nodes is a step of
 BufferNodes. Threads interleave between the sections, so a thread has its private list of nodes.
 */
module BufferManager {
  import opened Bits
  import opened WriteQueue
  import opened BufferNodes

  type Bytes = seq<Byte>

  predicate AllStored(l: seq<Node>, contents: map<Node, Bytes>) { forall i :: 0 <= i < |l| ==> l[i] in contents }

  /** What the buffers of a list hold, in order. */
  function Texts(l: seq<Node>, contents: map<Node, Bytes>): (texts: seq<Bytes>)
    requires AllStored(l, contents)
    ensures |texts| == |l| && forall i :: 0 <= i < |l| ==> texts[i] == contents[l[i]]
  {
    seq(|l|, i requires 0 <= i < |l| => contents[l[i]])
  }

  /** Writing into a node that is not in the list changes nothing of it. */
  lemma TextsElsewhere(l: seq<Node>, contents: map<Node, Bytes>, n: Node, b: Bytes)
    requires AllStored(l, contents) && n !in l
    ensures AllStored(l, contents[n := b]) && Texts(l, contents[n := b]) == Texts(l, contents)
  {
  }

  lemma TextsJoined(l: seq<Node>, m: seq<Node>, contents: map<Node, Bytes>)
    requires AllStored(l, contents) && AllStored(m, contents)
    ensures AllStored(l + m, contents) && Texts(l + m, contents) == Texts(l, contents) + Texts(m, contents)
  {
  }

  /** Every live node holds something. */
  ghost predicate Stored(v: Nodes, contents: map<Node, Bytes>) {
    && AllStored(v.queue.managed, contents)
    && AllStored(v.queue.marked[if v.freed <= |v.queue.marked| then v.freed else 0..], contents)
    && forall t :: 0 <= t < |v.hands| ==> AllStored(v.hands[t].nodes, contents)
  }

  /** The pool knows what it has given out and not got back. */
  ghost predicate Lent(v: Nodes, lent: set<Node>) {
    forall n :: n in lent <==> !v.Reserved(n) && n in v.place && v.place[n] != Gone
  }

  /** There is always an address outside the reserve that is not in use. */
  lemma SomeFree(lent: set<Node>, beyond: Node)
    ensures exists n :: n >= beyond && n !in lent
  {
    var top := Above(lent);
    assert top + beyond !in lent;
  }

  lemma Above(s: set<nat>) returns (top: nat)
    ensures forall n :: n in s ==> n < top
  {
    if s == {} { return 0; }
    var k :| k in s;
    var rest := Above(s - {k});
    top := if k < rest then rest else k + 1;
    assert forall n :: n in s ==> n == k || n in s - {k};
  }

  /** hold_buffer() as steps of the nodes: from the cache, or from the pool if the cache is empty. */
  function Held(v: Nodes, t: nat, n: Node): Nodes
    requires t < |v.hands| && !v.hands[t].missed && (v.cached == [] ==> v.Allocatable(n))
  {
    if v.cached != [] then Next(v, t, Pop) else Next(Next(v, t, Miss), t, Allocate(n))
  }

  lemma HeldKeeps(v: Nodes, contents: map<Node, Bytes>, lent: set<Node>, t: nat, n: Node, b: Bytes)
    requires Conserved(v) && Stored(v, contents) && Lent(v, lent) && t < |v.hands| && !v.hands[t].missed
    requires if v.cached != [] then n == v.cached[0] else v.Allocatable(n)
    ensures var w := Held(v, t, n);
      && Conserved(w) && Stored(w, contents[n := b]) && Lent(w, if v.cached != [] then lent else lent + {n})
      && Texts(w.hands[t].nodes, contents[n := b]) == Texts(v.hands[t].nodes, contents) + [b]
  {
    hide Conserved;
    if v.cached != [] { ConservedStep(v, t, Pop); }
    else { ConservedStep(v, t, Miss); ConservedStep(Next(v, t, Miss), t, Allocate(n)); }
    HeldElsewhere(v, t, n);
  }

  /** The node taken was in no list but the cache. */
  lemma HeldElsewhere(v: Nodes, t: nat, n: Node)
    requires Conserved(v) && t < |v.hands|
    requires if v.cached != [] then n == v.cached[0] else v.Allocatable(n)
    ensures n !in v.queue.managed && n !in v.queue.marked[v.freed..]
    ensures forall u :: 0 <= u < |v.hands| ==> n !in v.hands[u].nodes
    ensures n in v.place ==> v.place[n] == Cached || v.place[n] == Gone
    ensures v.cached != [] ==> n in v.place && v.place[n] == Cached && v.Reserved(n)
  {
    if v.cached != [] { assert n in v.cached; }
  }

  class PersistentBufferManager {
    const first: Node
    const reserve: nat
    var cached: seq<Node>
    var managed: seq<Node>
    var marked: seq<Node>
    var marker: nat
    var contents: map<Node, Bytes>
    var lent: set<Node>
    ghost var freed: nat
    ghost var hands: seq<Hand>
    ghost var place: map<Node, Place>

    ghost function View(): Nodes
      reads this
    {
      Nodes(first, reserve, cached, Queue(managed, marked, marker), freed, hands, place)
    }

    ghost predicate Valid()
      reads this
    {
      freed <= |marked| && Conserved(View()) && Stored(View(), contents) && Lent(View(), lent)
    }

    /** The bytes that wait, those of the batch, and those thread t has copied but not queued. */
    ghost function Waiting(): seq<Bytes>
      reads this
      requires Stored(View(), contents)
    {
      Texts(managed, contents)
    }

    ghost function Batch(): seq<Bytes>
      reads this
      requires Stored(View(), contents) && freed <= |marked|
    {
      Texts(marked[freed..], contents)
    }

    ghost function Copied(t: nat): seq<Bytes>
      reads this
      requires Stored(View(), contents) && t < |hands|
    {
      Texts(hands[t].nodes, contents)
    }

    /** The manager as the session sees it: a queue of bytes. */
    ghost function Buffers(): Queue<Bytes>
      reads this
      requires Valid()
    {
      Queue(Waiting(), Batch(), marker)
    }

    /** The reserve goes to the cache; nothing is queued. */
    constructor (first: Node, reserve: nat, ghost threads: nat)
      ensures Valid() && View() == Init(first, reserve, threads) && Buffers() == Queue([], [], 0)
    {
      this.first, this.reserve := first, reserve;
      cached, managed, marked, marker := Downward(first, reserve), [], [], 0;
      lent := {};
      contents := map n | n in Downward(first, reserve) :: [];
      freed := 0;
      hands := seq(threads, i => Hand([], false));
      place := map n | n in Downward(first, reserve) :: Cached;
      new;
      ConservedInit(first, reserve, threads);
    }

    /** pool.malloc(): any address that is not in use. */
    method Malloc() returns (n: Node)
      ensures !(first <= n < first + reserve) && n !in lent
    {
      SomeFree(lent, first + reserve);
      n :| n >= first + reserve && n !in lent;
    }

    /** hold_buffer(): a node from the cache if there is one, else from the pool, filled with b. */
    method HoldBuffer(t: nat, b: Bytes) returns (n: Node)
      requires Valid() && t < |hands| && !hands[t].missed
      modifies this
      ensures Valid() && (if old(cached) != [] then n == old(cached)[0] else old(View()).Allocatable(n))
      ensures View() == Held(old(View()), t, n) && (old(cached) != [] ==> lent == old(lent))
      ensures Copied(t) == old(Copied(t)) + [b] && Waiting() == old(Waiting()) && Batch() == old(Batch())
    {
      hide Conserved, Stored, Texts;
      ghost var was, kept, out := View(), contents, lent;
      if cached != [] {
        n := cached[0];
        cached := cached[1..];
      } else {
        n := Malloc();
        lent := lent + {n};
      }
      contents := contents[n := b];
      hands := hands[t := Hand(hands[t].nodes + [n], false)];
      place := place[n := InHand(t)];
      assert View() == Held(was, t, n);
      HeldKeeps(was, kept, out, t, n, b);
      HeldElsewhere(was, t, n);
      StoredLists(was, kept);
      TextsElsewhere(managed, kept, n, b);
      TextsElsewhere(marked[freed..], kept, n, b);
    }

    /** The end of manage(): the private list is spliced behind the managed one. */
    method Splice(ghost t: nat, tmp: seq<Node>)
      requires Valid() && t < |hands| && !hands[t].missed && tmp == hands[t].nodes
      modifies this
      ensures Valid() && View() == Next(old(View()), t, Step.Splice)
      ensures contents == old(contents)
      ensures Waiting() == old(Waiting()) + old(Copied(t)) && Batch() == old(Batch())
    {
      hide Conserved, Stored, Texts;
      ghost var was := View();
      managed := managed + tmp;
      hands := hands[t := Hand([], false)];
      place := Moved(place, InHand(t), Managed);
      ConservedStep(was, t, Step.Splice);
      StoredLists(was, contents);
      SpliceStored(was, contents, lent, t);
      TextsJoined(was.queue.managed, tmp, contents);
    }

    /** manage(list): all the copies first, then one splice. */
    method Manage(t: nat, list: seq<Bytes>)
      requires Valid() && t < |hands| && hands[t] == Hand([], false)
      modifies this
      ensures Valid() && Buffers() == old(Buffers()).Manage(list)
      ensures hands == old(hands) && marked == old(marked) && freed == old(freed)
      ensures |list| <= |old(cached)| ==> lent == old(lent) && cached == old(cached)[|list|..]
      ensures |list| >= |old(cached)| ==> cached == []
    {
      hide Conserved, Stored, Texts;
      var tmp: seq<Node> := [];
      for i := 0 to |list|
        invariant Valid() && |hands| == |old(hands)| && hands == old(hands)[t := Hand(tmp, false)]
        invariant Copied(t) == list[..i] && Waiting() == old(Waiting()) && Batch() == old(Batch())
        invariant marked == old(marked) && freed == old(freed) && marker == old(marker)
        invariant i <= |old(cached)| ==> lent == old(lent) && cached == old(cached)[i..]
        invariant i >= |old(cached)| ==> cached == []
      {
        var n := HoldBuffer(t, list[i]);
        tmp := tmp + [n];
      }
      Splice(t, tmp);
    }

    /** mark(): the locked test and swap. */
    method MarkBatch(ghost t: nat) returns (r: int)
      requires Valid() && t < |hands|
      modifies this
      ensures Valid() && View() == Next(old(View()), t, Step.MarkBatch) && r == old(View()).queue.Mark().1
      ensures contents == old(contents)
      ensures r > 0 <==> old(marked) == [] && old(managed) != []
      ensures r < 0 <==> old(marked) != []
      ensures r > 0 ==> Waiting() == [] && Batch() == old(Waiting()) && freed == 0
      ensures r <= 0 ==> Waiting() == old(Waiting()) && Batch() == old(Batch())
      ensures old(freed) == 0 ==> (Buffers(), r) == old(Buffers()).Mark()
    {
      hide Conserved, Stored, Texts;
      ghost var was := View();
      ValidQueue(was);
      MarkSign(was.queue);
      if marked != [] { return -(marker as int); }
      if managed == [] { return 0; }
      ConservedStep(was, t, Step.MarkBatch);
      StoredLists(was, contents);
      marked, managed := managed, marked;
      place := Moved(place, Managed, Marked);
      MarkStored(was, contents, lent, t);
      marker := if marker == MAX_MARKER then 1 else marker + 1;
      r := marker;
      assert marked[0..] == marked;
    }

    /** free_buffer() on the next node of the batch: to the cache if it came with the manager, else to the pool. */
    method FreeBuffer(ghost t: nat, p: Node)
      requires Valid() && t < |hands| && freed < |marked| && p == marked[freed]
      modifies this
      ensures Valid() && View() == Next(old(View()), t, Dispose)
      ensures if first <= p < first + reserve then cached == [p] + old(cached) && lent == old(lent)
        else cached == old(cached) && lent == old(lent) - {p}
      ensures if first <= p < first + reserve then p in contents && contents[p] == [] else p !in contents
      ensures Waiting() == old(Waiting()) && Batch() == old(Batch())[1..]
      ensures forall u :: 0 <= u < |hands| ==> Copied(u) == old(Copied(u))
    {
      hide Conserved, Stored, Texts;
      ghost var was, kept, out := View(), contents, lent;
      if first <= p < first + reserve {
        contents := contents[p := []];
        cached := [p] + cached;
        place := place[p := Cached];
      } else {
        contents := contents - {p};
        lent := lent - {p};
        place := place[p := Gone];
      }
      freed := freed + 1;
      assert View() == Next(was, t, Dispose);
      ConservedStep(was, t, Dispose);
      DisposeKeeps(was, kept, out, t);
    }

    /** clear_marked(): every node of the batch is freed, then the list is reset. */
    method ClearMarked(ghost t: nat)
      requires Valid() && t < |hands| && freed == 0
      modifies this
      ensures Valid() && Buffers() == old(Buffers()).Clear() && marked == [] && freed == 0
      ensures managed == old(managed) && hands == old(hands)
    {
      hide Conserved, Stored, Texts, Lent;
      var i := 0;
      while i < |marked|
        invariant Valid() && freed == i <= |marked| && marked == old(marked)
        invariant managed == old(managed) && hands == old(hands) && marker == old(marker)
        invariant Waiting() == old(Waiting())
      {
        FreeBuffer(t, marked[i]);
        i := i + 1;
      }
      ghost var was := View();
      if marked != [] {
        ConservedStep(was, t, Reset);
        ResetStored(was, contents, lent, t);
      }
      marked, freed := [], 0;
    }
  }

  lemma ResetStored(v: Nodes, contents: map<Node, Bytes>, lent: set<Node>, t: nat)
    requires Conserved(v) && Stored(v, contents) && Lent(v, lent) && Enabled(v, t, Reset)
    ensures Stored(Next(v, t, Reset), contents) && Lent(Next(v, t, Reset), lent)
  {
  }

  /** When nothing is queued and nobody is queueing, the whole reserve is back in the cache. */
  lemma CacheRefills(v: Nodes)
    requires Conserved(v) && v.queue.managed == [] && v.queue.marked[v.freed..] == []
    requires forall t :: 0 <= t < |v.hands| ==> v.hands[t].nodes == []
    ensures Distinct(v.cached) && forall n :: n in v.cached <==> v.Reserved(n)
  {
  }

  lemma DisposeKeeps(v: Nodes, contents: map<Node, Bytes>, lent: set<Node>, t: nat)
    requires Conserved(v) && Stored(v, contents) && Lent(v, lent) && Enabled(v, t, Dispose)
    ensures var p := v.queue.marked[v.freed];
      var after := if v.Reserved(p) then contents[p := []] else contents - {p};
      var w := Next(v, t, Dispose);
      && Stored(w, after) && Lent(w, if v.Reserved(p) then lent else lent - {p})
      && AllStored(v.queue.managed, contents) && Texts(w.queue.managed, after) == Texts(v.queue.managed, contents)
      && AllStored(v.queue.marked[v.freed..], contents)
      && Texts(w.queue.marked[w.freed..], after) == Texts(v.queue.marked[v.freed..], contents)[1..]
      && (forall u :: 0 <= u < |v.hands| ==> AllStored(v.hands[u].nodes, contents))
      && (forall u :: 0 <= u < |v.hands| ==> Texts(w.hands[u].nodes, after) == Texts(v.hands[u].nodes, contents))
  {
    hide Conserved, Stored, Lent, Texts;
    DisposeStores(v, contents, lent, t);
    DisposeTexts(v, contents, t);
  }

  lemma DisposeStores(v: Nodes, contents: map<Node, Bytes>, lent: set<Node>, t: nat)
    requires Conserved(v) && Stored(v, contents) && Lent(v, lent) && Enabled(v, t, Dispose)
    ensures var p := v.queue.marked[v.freed];
      var w := Next(v, t, Dispose);
      && Stored(w, if v.Reserved(p) then contents[p := []] else contents - {p})
      && Lent(w, if v.Reserved(p) then lent else lent - {p})
  {
    IsMarked(v);
  }

  lemma DisposeTexts(v: Nodes, contents: map<Node, Bytes>, t: nat)
    requires Conserved(v) && Stored(v, contents) && Enabled(v, t, Dispose)
    requires var p := v.queue.marked[v.freed];
      Stored(Next(v, t, Dispose), if v.Reserved(p) then contents[p := []] else contents - {p})
    ensures var p := v.queue.marked[v.freed];
      var after := if v.Reserved(p) then contents[p := []] else contents - {p};
      var w := Next(v, t, Dispose);
      && AllStored(v.queue.managed, contents) && Texts(w.queue.managed, after) == Texts(v.queue.managed, contents)
      && AllStored(v.queue.marked[v.freed..], contents)
      && Texts(w.queue.marked[w.freed..], after) == Texts(v.queue.marked[v.freed..], contents)[1..]
      && (forall u :: 0 <= u < |v.hands| ==> AllStored(v.hands[u].nodes, contents))
      && (forall u :: 0 <= u < |v.hands| ==> Texts(w.hands[u].nodes, after) == Texts(v.hands[u].nodes, contents))
  {
    IsMarked(v);
  }

  /** The parts of Stored, list by list. */
  lemma StoredLists(v: Nodes, contents: map<Node, Bytes>)
    requires Conserved(v) && Stored(v, contents)
    ensures v.freed <= |v.queue.marked|
    ensures AllStored(v.queue.managed, contents) && AllStored(v.queue.marked[v.freed..], contents)
    ensures forall t :: 0 <= t < |v.hands| ==> AllStored(v.hands[t].nodes, contents)
  {
  }

  lemma ValidQueue(v: Nodes)
    requires Conserved(v)
    ensures v.queue.Valid() && v.freed <= |v.queue.marked|
  {
  }

  lemma SpliceStored(v: Nodes, contents: map<Node, Bytes>, lent: set<Node>, t: nat)
    requires Conserved(v) && Stored(v, contents) && Lent(v, lent) && t < |v.hands| && !v.hands[t].missed
    ensures Stored(Next(v, t, Step.Splice), contents) && Lent(Next(v, t, Step.Splice), lent)
  {
  }

  lemma MarkStored(v: Nodes, contents: map<Node, Bytes>, lent: set<Node>, t: nat)
    requires Conserved(v) && Stored(v, contents) && Lent(v, lent) && t < |v.hands|
    ensures Stored(Next(v, t, Step.MarkBatch), contents) && Lent(Next(v, t, Step.MarkBatch), lent)
  {
  }
}

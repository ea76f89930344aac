/**
 What holds after every run of a session, and two runs that show what does not.
 */
module SessionRuns {
  import opened Runs
  import opened WriteQueue
  import opened SessionSteps

  ghost predicate Safe(s: Session) {
    && OneOwner(s) && InOrder(s) && Told(s) && Aims(s) && ClosesCounted(s)
    && FailureCloses(s) && NothingStranded(s) && ClosingEnds(s) && NoListLost(s)
  }

  lemma SafeInit(threads: nat)
    ensures Safe(Init(threads)) && Unrushed(Init(threads))
  {
    hide InHand;
    forall list ensures InHand(Init(threads).pcs, list) == 0 { NothingInHand(Init(threads).pcs, list); }
  }

  lemma {:induction false} NothingInHand(pcs: seq<Pc>, list: seq<Buffer>)
    requires forall t :: 0 <= t < |pcs| ==> Carries(pcs[t], list) == 0
    ensures InHand(pcs, list) == 0
  {
    if pcs != [] { NothingInHand(pcs[..|pcs| - 1], list); }
  }

  lemma SafeStep(s: Session, t: nat, a: Action)
    requires Safe(s) && Enabled(s, t, a)
    ensures Safe(Next(s, t, a))
  {
    hide OneOwner, InOrder, Told, Aims, ClosesCounted, FailureCloses, NothingStranded, ClosingEnds, NoListLost, Enabled,
      Next;
    OneOwnerKept(s, t, a);
    InOrderKept(s, t, a);
    ToldKept(s, t, a);
    AimsKept(s, t, a);
    ClosesCountedKept(s, t, a);
    FailureClosesKept(s, t, a);
    NothingStrandedKept(s, t, a);
    ClosingEndsKept(s, t, a);
    NoListLostKept(s, t, a);
  }

  lemma SafeRun(s: Session, run: seq<Event<Action>>)
    requires Safe(s) && Legal(Move, s, run)
    ensures Safe(After(Move, s, run))
  {
    hide Safe, Enabled, Next, Legal, After;
    forall v, t, a | Safe(v) && Move(v, t, a).Some? ensures Safe(Move(v, t, a).value) { SafeStep(v, t, a); }
    KeptByRun(Move, Safe, s, run);
  }

  lemma SafeAlways(threads: nat, run: seq<Event<Action>>)
    requires Legal(Move, Init(threads), run)
    ensures Safe(After(Move, Init(threads), run))
  {
    hide Safe, Legal, After;
    SafeInit(threads);
    SafeRun(Init(threads), run);
  }

  // ---- theorems: every number of threads, every interleaving ----

  /**
   The buffers of all writes come out in the order in which they were queued: what was sent, what is
   being sent and what waits make up exactly the lists of the manage() calls, in splice order. A batch
   is made of whole calls, so the buffers of one call are never torn apart. The handler was told of
   exactly the batches sent, and of the one about to be cleared if its write is complete.
   */
  lemma OutputOrder(threads: nat, run: seq<Event<Action>>)
    requires Legal(Move, Init(threads), run)
    ensures var s := After(Move, Init(threads), run);
      && Flat(s.sent) + s.queue.marked + s.queue.managed == Flat(s.calls)
      && s.cleared <= s.taken <= |s.calls|
      && Flat(s.sent) == Flat(s.calls[..s.cleared]) && s.queue.marked == Flat(s.calls[s.cleared..s.taken])
      && (s.reported == s.sent || s.reported == s.sent + [s.queue.marked])
  {
    SafeAlways(threads, run);
    var s := After(Move, Init(threads), run);
    hide Flat, After, Legal, OneOwner, ClosesCounted, FailureCloses, NothingStranded, ClosingEnds, NoListLost, Aims,
      Init;
    FlatCut(s.calls, s.cleared, s.taken);
    FlatCut(s.calls, s.taken, |s.calls|);
    assert s.calls[..|s.calls|] == s.calls && s.calls[s.taken..|s.calls|] == s.calls[s.taken..];
  }

  /**
   Every list that write() was ever called with, as often as it was: it is queued, or it was turned
   away by a closing or closed session, or its caller has not got there yet. While closing has never
   begun nothing is turned away.
   */
  lemma EveryListIsKept(threads: nat, run: seq<Event<Action>>)
    requires Legal(Move, Init(threads), run)
    ensures var s := After(Move, Init(threads), run);
      && (forall list :: multiset(s.offered)[list] ==
            multiset(s.calls)[list] + multiset(s.refused)[list] + InHand(s.pcs, list))
      && |s.refusedAt| == |s.refused| && (forall i :: 0 <= i < |s.refusedAt| ==> s.refusedAt[i] >= CLOSING)
      && (s.status < CLOSING && s.lowered == 0 ==> s.refused == [])
      && forall list :: list in s.offered ==>
           || list in s.calls || list in s.refused
           || exists t :: 0 <= t < |s.pcs| && (s.pcs[t] == WriteEntry(list) || s.pcs[t] == Splicing(list))
  {
    SafeAlways(threads, run);
    var s := After(Move, Init(threads), run);
    hide After, Legal, Init, OneOwner, InOrder, Told, Aims, ClosesCounted, FailureCloses, NothingStranded, ClosingEnds,
      InHand;
    forall list ensures multiset(s.offered)[list] ==
      multiset(s.calls)[list] + multiset(s.refused)[list] + InHand(s.pcs, list)
    {
      assert Accounts(s, list);
    }
    forall list | list in s.offered && list !in s.calls && list !in s.refused
      ensures exists t :: 0 <= t < |s.pcs| && (s.pcs[t] == WriteEntry(list) || s.pcs[t] == Splicing(list))
    {
      assert list in multiset(s.offered) && list !in multiset(s.calls) && list !in multiset(s.refused);
      SomebodyHasIt(s.pcs, list);
    }
  }

  lemma SomebodyHasIt(pcs: seq<Pc>, list: seq<Buffer>)
    requires InHand(pcs, list) > 0
    ensures exists t :: 0 <= t < |pcs| && (pcs[t] == WriteEntry(list) || pcs[t] == Splicing(list))
  {
    hide InHand;
    if forall t :: 0 <= t < |pcs| ==> Carries(pcs[t], list) == 0 { NothingInHand(pcs, list); }
  }

  /** At most one write is outstanding, and while one is, no thread is starting or finishing another. */
  lemma OneWriteOutstanding(threads: nat, run: seq<Event<Action>>)
    requires Legal(Move, Init(threads), run)
    ensures var s := After(Move, Init(threads), run);
      && s.inFlight <= 1
      && (s.inFlight == 1 ==> s.queue.marked != [] && forall i :: 0 <= i < |s.pcs| ==> !Owns(s.pcs[i]))
      && (forall i, j :: 0 <= i < |s.pcs| && 0 <= j < |s.pcs| && Owns(s.pcs[i]) && Owns(s.pcs[j]) ==> i == j)
      && (s.queue.marked != [] ==> 1 <= s.queue.marker <= MAX_MARKER)
  {
    SafeAlways(threads, run);
    hide After, Legal, Init, InOrder, Told, Aims, ClosesCounted, FailureCloses, NothingStranded, ClosingEnds,
      NoListLost;
  }

  /**
   Waiting output of a session that is not closed is never forgotten: a write is outstanding, or a
   completed one has not marked again, or a caller stands between manage() and mark(), or the thread
   that saw a write fail is about to close the session. (No connect stored over a closed status.)
   */
  lemma NoStrandedOutput(threads: nat, run: seq<Event<Action>>)
    requires Legal(Move, Init(threads), run)
    ensures var s := After(Move, Init(threads), run);
      s.queue.managed != [] && s.status < CLOSED && s.reopened == 0 ==>
        || s.inFlight == 1
        || (exists i :: 0 <= i < |s.pcs| && (Owns(s.pcs[i]) || Marks(s.pcs[i])))
        || (s.owner.Broken? && s.owner.t < |s.pcs| && ClosesNow(s.pcs[s.owner.t]))
  {
    SafeAlways(threads, run);
    hide After, Legal, Init, InOrder, Told, Aims, ClosesCounted, ClosingEnds, NoListLost;
  }

  /**
   When every thread is out and no write is outstanding, a session that is not closed has sent every list
   that was not turned away, and does not hang in closing; unless connect stored over closed. Even then
   it hangs only with a batch that a failed write left behind.
   */
  lemma QuietMeansDone(threads: nat, run: seq<Event<Action>>)
    requires Legal(Move, Init(threads), run)
    requires var s := After(Move, Init(threads), run);
      s.inFlight == 0 && forall i :: 0 <= i < |s.pcs| ==> s.pcs[i] == Idle
    ensures var s := After(Move, Init(threads), run);
      && (s.status < CLOSED && s.reopened == 0 ==> s.queue.Pending() == [] && Flat(s.sent) == Flat(s.calls))
      && multiset(s.calls) + multiset(s.refused) == multiset(s.offered)
      && (s.status == CLOSING ==> s.owner.Broken? && s.queue.marked != [] && s.reopened > 0)
  {
    SafeAlways(threads, run);
    var s := After(Move, Init(threads), run);
    hide After, Legal, Init, InOrder, Told, Aims, ClosesCounted, Flat, OneOwner, FailureCloses, NothingStranded,
      ClosingEnds, NoListLost;
    QuietState(s);
    AllSent(s);
    EveryListIsKept(threads, run);
    hide InHand;
    forall list ensures multiset(s.offered)[list] == multiset(s.calls)[list] + multiset(s.refused)[list] {
      NothingInHand(s.pcs, list);
    }
  }

  lemma QuietState(s: Session)
    requires OneOwner(s) && FailureCloses(s) && NothingStranded(s) && ClosingEnds(s)
    requires s.inFlight == 0 && forall i :: 0 <= i < |s.pcs| ==> s.pcs[i] == Idle
    ensures s.status < CLOSED && s.reopened == 0 ==> s.queue.Pending() == []
    ensures s.status == CLOSING ==> s.owner.Broken? && s.queue.marked != [] && s.reopened > 0
  {
    assert s.owner == NoOwner || s.owner.Broken?;
    assert s.owner == NoOwner ==> !Attended(s) && !InGoodHands(s);
    hide Attended, InGoodHands;
  }

  // ---- stranded output ----

  /** A write is outstanding, or a thread has a batch or is about to mark, or is about to close after a failure. */
  predicate SeenTo(s: Session) {
    || s.inFlight == 1
    || (exists i :: 0 <= i < |s.pcs| && (Owns(s.pcs[i]) || Marks(s.pcs[i])))
    || FailureSeen(s)
  }

  predicate FailureSeen(s: Session) { s.owner.Broken? && s.owner.t < |s.pcs| && ClosesNow(s.pcs[s.owner.t]) }

  /** Output waits in a session that is not closed, and nobody is going to look at it. */
  predicate Stranded(s: Session) { s.queue.managed != [] && s.status < CLOSED && !SeenTo(s) }

  /** Connect stores over closed while output waits that nobody sees to. */
  predicate ReopensUnseen(s: Session, a: Action) {
    a == ConnectDone && s.status == CLOSED && s.queue.managed != [] && !SeenTo(s)
  }

  /** The last thread to look finds marked what a failed write has left behind; that closed the session once. */
  predicate FindsLeftover(s: Session, t: nat, a: Action) {
    && a.Go? && t < |s.pcs| && s.pcs[t] == Marking && s.queue.managed != [] && s.status < CLOSED
    && s.owner.Broken? && !FailureSeen(s) && forall i :: 0 <= i < |s.pcs| && i != t ==> !Marks(s.pcs[i])
  }

  /**
   A step strands output in exactly two ways. Without a store of connected over closed neither happens: the
   second needs a failed write whose session was closed and is open again.
   */
  lemma StrandsExactly(threads: nat, run: seq<Event<Action>>, t: nat, a: Action)
    requires Legal(Move, Init(threads), run) && Enabled(After(Move, Init(threads), run), t, a)
    ensures var s := After(Move, Init(threads), run);
      && (!Stranded(s) && Stranded(Next(s, t, a)) <==> ReopensUnseen(s, a) || FindsLeftover(s, t, a))
      && (Stranded(s) || FindsLeftover(s, t, a) ==> s.reopened > 0)
  {
    SafeAlways(threads, run);
    var s := After(Move, Init(threads), run);
    hide After, Legal, Init, InOrder, Told, ClosesCounted, ClosingEnds, NoListLost, NothingStranded, OneOwner,
      FailureCloses, SeenTo, Aims;
    NotStranded(s);
    if a == ConnectDone {
      SeenToByPcs(s, Next(s, t, a));
    } else {
      StrandsByStep(s, t, a);
    }
  }

  lemma NotStranded(s: Session)
    requires NothingStranded(s) && FailureCloses(s) && OneOwner(s)
    ensures Stranded(s) ==> s.reopened > 0
    ensures s.status < CLOSED && s.owner.Broken? && !FailureSeen(s) ==> s.reopened > 0
  {
  }

  /** Who sees to the output does not depend on the status. */
  lemma SeenToByPcs(s: Session, n: Session)
    requires n.pcs == s.pcs && n.owner == s.owner && n.inFlight == s.inFlight
    ensures SeenTo(s) == SeenTo(n)
  {
  }

  lemma StrandsByStep(s: Session, t: nat, a: Action)
    requires OneOwner(s) && Aims(s) && Enabled(s, t, a) && a != ConnectDone
    ensures !Stranded(s) && Stranded(Next(s, t, a)) <==> FindsLeftover(s, t, a)
  {
    hide OneOwner, Aims, SeenTo, Proceed;
    if a.Go? { StrandsByGo(s, t, a.spurious); } else { StrandsByCall(s, t, a); }
  }

  /** Whoever sees to the output still does, or thread t hands that on. */
  lemma SeenToMoves(s: Session, n: Session, t: nat)
    requires SeenTo(s) && t < |s.pcs| == |n.pcs| && n.pcs == s.pcs[t := n.pcs[t]]
    requires (Owns(s.pcs[t]) || Marks(s.pcs[t]) || s.inFlight == 1
              || (FailureSeen(s) && (n.owner != s.owner || s.owner.t == t))) ==>
      n.inFlight == 1 || Owns(n.pcs[t]) || Marks(n.pcs[t]) || FailureSeen(n)
    ensures SeenTo(n)
  {
    if n.inFlight != 1 && !Owns(n.pcs[t]) && !Marks(n.pcs[t]) && !FailureSeen(n) {
      assert !FailureSeen(s);
      var i :| 0 <= i < |s.pcs| && (Owns(s.pcs[i]) || Marks(s.pcs[i]));
      assert n.pcs[i] == s.pcs[i];
    }
  }

  lemma SeenToHere(n: Session, t: nat)
    requires t < |n.pcs| && (Owns(n.pcs[t]) || Marks(n.pcs[t]))
    ensures SeenTo(n)
  {
  }

  lemma StrandsByCall(s: Session, t: nat, a: Action)
    requires OneOwner(s) && Enabled(s, t, a) && a != ConnectDone && !a.Go?
    ensures !Stranded(s) ==> !Stranded(Next(s, t, a))
  {
    hide SeenTo;
    var n := Next(s, t, a);
    if SeenTo(s) { SeenToMoves(s, n, t); }
  }

  lemma StrandsByGo(s: Session, t: nat, spurious: bool)
    requires OneOwner(s) && Aims(s) && t < |s.pcs| && s.pcs[t] != Idle
    ensures !Stranded(s) && Stranded(Proceed(s, t, spurious)) <==> FindsLeftover(s, t, Go(spurious))
  {
    if s.pcs[t].CloseCas? { AimsHere(s, t); }
    hide SeenTo, Aims, Flat, Take;
    var n := Proceed(s, t, spurious);
    if s.pcs[t] == Marking {
      StrandsByTake(s, t);
    } else if s.pcs[t].Splicing? {
      SeenToHere(n, t);
    } else if n.status < CLOSED && SeenTo(s) {
      SeenToMoves(s, n, t);
    }
  }

  lemma StrandsByTake(s: Session, t: nat)
    requires OneOwner(s) && t < |s.pcs| && s.pcs[t] == Marking
    ensures !Stranded(s) && Stranded(Take(s, t)) <==> FindsLeftover(s, t, Go(false))
  {
    MarkSign(s.queue);
    var n := Take(s, t);
    if n.pcs[t] == Starting {
      SeenToHere(n, t);
    } else if n.queue.managed != [] && s.status < CLOSED {
      LeftByMark(s, n, t);
    }
  }

  /** mark() was negative. */
  lemma LeftByMark(s: Session, n: Session, t: nat)
    requires OneOwner(s) && t < |s.pcs| && s.pcs[t] == Marking && s.queue.marked != [] && n == At(s, t, Idle)
    ensures SeenTo(s)
    ensures SeenTo(n) <==>
      !s.owner.Broken? || FailureSeen(s) || exists i :: 0 <= i < |s.pcs| && i != t && Marks(s.pcs[i])
  {
    SeenToHere(s, t);
    if i :| 0 <= i < |s.pcs| && i != t && Marks(s.pcs[i]) { assert n.pcs[i] == s.pcs[i]; }
    if s.owner.Held? { assert Owns(n.pcs[s.owner.t]); }
  }

  /**
   handler::close: begun or finished, it runs once for each time the session became closed, which is
   once more than connect stored connected over closed, if the session is closed now. Likewise close(false)
   wins at most once more than connect stored over closing or closed.
   */
  lemma CloseRuns(threads: nat, run: seq<Event<Action>>)
    requires Legal(Move, Init(threads), run)
    ensures var s := After(Move, Init(threads), run);
      && s.closes + |s.closers| == (if s.status == CLOSED then 1 else 0) + s.reopened
      && s.shuts <= 1 + s.lowered
  {
    SafeAlways(threads, run);
    hide After, Legal, Init, InOrder, Told, Aims, OneOwner, FailureCloses, NothingStranded, ClosingEnds, NoListLost;
  }

  /** So it has run exactly once for a session that is closed for good if and only if connect never did that. */
  lemma CloseRunsOnce(threads: nat, run: seq<Event<Action>>)
    requires Legal(Move, Init(threads), run)
    requires var s := After(Move, Init(threads), run);
      s.status == CLOSED && forall i :: 0 <= i < |s.pcs| ==> s.pcs[i] == Idle
    ensures var s := After(Move, Init(threads), run); s.closes == 1 <==> s.reopened == 0
  {
    SafeAlways(threads, run);
    var s := After(Move, Init(threads), run);
    hide After, Legal, Init, InOrder, Told, Aims, OneOwner, FailureCloses, NothingStranded, ClosingEnds, NoListLost;
    assert forall i :: i !in s.closers;
    assert s.closers == {};
  }

  // ---- graceful close ----

  /** What was queued when closing began has been sent, first and in order. */
  predicate KeptPromise(s: Session) {
    s.line <= |Flat(s.calls)| && Flat(s.calls)[..s.line] <= Flat(s.sent)
  }

  lemma PromiseIsLine(s: Session)
    requires InOrder(s) && s.line <= |Flat(s.calls)|
    ensures KeptPromise(s) <==> LineSent(s)
  {
    AllSent(s);
    hide Flat, InOrder;
    var sent := Flat(s.sent);
    assert Flat(s.calls)[..|sent|] == sent;
    if s.line <= |sent| { assert Flat(s.calls)[..s.line] == sent[..s.line]; }
  }

  /** However the session goes on, if it gets closed it has sent what was queued when closing began. */
  ghost predicate AlwaysDrains(s: Session) {
    forall run :: Legal(Move, s, run) && Always(Move, Benign, s, run) && After(Move, s, run).status == CLOSED ==>
      KeptPromise(After(Move, s, run))
  }

  lemma DrainedRun(s: Session, run: seq<Event<Action>>)
    requires Safe(s) && Drained(s) && s.line <= |Flat(s.calls)| && Legal(Move, s, run) && Always(Move, Benign, s, run)
    ensures var n := After(Move, s, run); Safe(n) && Drained(n) && n.line <= |Flat(n.calls)|
  {
    hide Told, ClosesCounted, FailureCloses, NothingStranded, ClosingEnds, NoListLost, InOrder, Aims, Drained, Next,
      Benign, Enabled, Flat, Legal, After, Always;
    var kept := (v: Session) => Safe(v) && Drained(v) && v.line <= |Flat(v.calls)|;
    forall v, t, a | kept(v) && Benign(v, t, a) && Move(v, t, a).Some? ensures kept(Move(v, t, a).value) {
      SafeStep(v, t, a);
      DrainedKept(v, t, a);
    }
    KeptByAllowed(Move, Benign, kept, s, run);
  }

  lemma SettledDrains(s: Session, t: nat)
    requires Safe(s) && Unrushed(s) && Begins(s, t) && Settled(s)
    ensures AlwaysDrains(Next(s, t, Go(false)))
  {
    hide OneOwner, Told, ClosesCounted, FailureCloses, NothingStranded, ClosingEnds, NoListLost, InOrder, Flat,
      KeptPromise, Legal, After, Always;
    var n := Next(s, t, Go(false));
    SafeStep(s, t, Go(false));
    SettledIsDrained(s, t);
    forall run | Legal(Move, n, run) && Always(Move, Benign, n, run) && After(Move, n, run).status == CLOSED
      ensures KeptPromise(After(Move, n, run))
    {
      DrainedRun(n, run);
      PromiseIsLine(After(Move, n, run));
    }
  }

  lemma SettledIsDrained(s: Session, t: nat)
    requires InOrder(s) && Aims(s) && Unrushed(s) && Begins(s, t) && Settled(s)
    ensures var n := Next(s, t, Go(false)); Drained(n) && n.line <= |Flat(n.calls)|
  {
    AllSent(s);
    assert |Flat(s.sent)| + |s.queue.Pending()| == |Flat(s.calls)|;
    hide Flat, InOrder;
  }

  /**
   If closing begins while something is queued and a thread has found nothing before and not yet
   looked at the status, four steps of two threads close the session with the queue unsent.
   */
  lemma UnsettledLoses(s: Session, t: nat) returns (run: seq<Event<Action>>)
    requires Safe(s) && Begins(s, t) && !Settled(s)
    ensures var n := Next(s, t, Go(false));
      Legal(Move, n, run) && Always(Move, Benign, n, run) && After(Move, n, run).status == CLOSED
        && !KeptPromise(After(Move, n, run))
  {
    hide OneOwner, Told, ClosesCounted, FailureCloses, NothingStranded, ClosingEnds, NoListLost, InOrder, Flat,
      KeptPromise;
    var i :| 0 <= i < |s.pcs| && s.pcs[i] == ClosingTest;
    var n := Next(s, t, Go(false));
    run := ThreeSteps(n, i);
    var last := After(Move, n, run);
    AllSent(s);
    SafeStep(s, t, Go(false));
    assert |Flat(s.sent)| + |s.queue.Pending()| == |Flat(s.calls)|;
    assert last.calls == n.calls && last.sent == n.sent && last.line == n.line;
    Unkept(s, last);
  }

  lemma Unkept(s: Session, last: Session)
    requires InOrder(s) && last.calls == s.calls && last.sent == s.sent && last.line == |Flat(s.calls)| > |Flat(s.sent)|
    ensures !KeptPromise(last)
  {
    hide Flat;
    assert Flat(s.calls)[..last.line] == Flat(s.calls);
  }

  /** A thread at its look at the status closes a closing session. */
  lemma ThreeSteps(n: Session, i: nat) returns (run: seq<Event<Action>>)
    requires n.status == CLOSING && i < |n.pcs| && n.pcs[i] == ClosingTest
    ensures Legal(Move, n, run) && Always(Move, Benign, n, run)
    ensures var l := After(Move, n, run);
      l.status == CLOSED && l.calls == n.calls && l.sent == n.sent && l.line == n.line
  {
    hide Flat, Legal, After, Always;
    var a := Next(n, i, Go(false));
    var b := Next(a, i, Go(false));
    NoSteps(Next(b, i, Go(false)));
    run := Before(b, i, []);
    run := Before(a, i, run);
    run := Before(n, i, run);
  }

  lemma NoSteps(s: Session)
    ensures Legal(Move, s, []) && Always(Move, Benign, s, []) && After(Move, s, []) == s
  {
  }

  /** A step of a call, put in front of a run. */
  lemma Before(s: Session, t: nat, run: seq<Event<Action>>) returns (longer: seq<Event<Action>>)
    requires Enabled(s, t, Go(false)) && Legal(Move, Next(s, t, Go(false)), run)
      && Always(Move, Benign, Next(s, t, Go(false)), run)
    ensures Legal(Move, s, longer) && Always(Move, Benign, s, longer)
      && After(Move, s, longer) == After(Move, Next(s, t, Go(false)), run)
  {
    hide Next, Enabled;
    longer := [Event(t, Go(false))] + run;
    assert longer[1..] == run;
  }

  /**
   Exactly when a graceful close drains. Take any benign run after which a thread is about to win
   close(false). Then every benign continuation that closes the session has sent all that was queued
   at this moment, if and only if nothing is queued or no thread stands between a mark() that found
   nothing and its look at the status.
   */
  lemma DrainsExactly(threads: nat, run: seq<Event<Action>>, t: nat)
    requires Legal(Move, Init(threads), run) && Always(Move, Benign, Init(threads), run)
      && Begins(After(Move, Init(threads), run), t)
    ensures var s := After(Move, Init(threads), run); AlwaysDrains(Next(s, t, Go(false))) <==> Settled(s)
  {
    SafeAlways(threads, run);
    UnrushedAlways(threads, run);
    hide Legal, After, Init, Safe, Always, Flat, KeptPromise;
    var s := After(Move, Init(threads), run);
    if Settled(s) { SettledDrains(s, t); } else { var bad := UnsettledLoses(s, t); }
  }

  lemma UnrushedAlways(threads: nat, run: seq<Event<Action>>)
    requires Legal(Move, Init(threads), run) && Always(Move, Benign, Init(threads), run)
    ensures Unrushed(After(Move, Init(threads), run))
  {
    SafeInit(threads);
    hide Legal, After, Init, Safe, Always;
    UnrushedRun(Init(threads), run);
  }

  lemma UnrushedRun(s: Session, run: seq<Event<Action>>)
    requires Safe(s) && Unrushed(s) && Legal(Move, s, run) && Always(Move, Benign, s, run)
    ensures Unrushed(After(Move, s, run))
  {
    hide OneOwner, Told, ClosesCounted, FailureCloses, NothingStranded, ClosingEnds, NoListLost, InOrder, Aims,
      Unrushed, Next, Benign, Enabled, Legal, After, Always;
    var kept := (v: Session) => Safe(v) && Unrushed(v);
    forall v, t, a | kept(v) && Benign(v, t, a) && Move(v, t, a).Some? ensures kept(Move(v, t, a).value) {
      SafeStep(v, t, a);
      UnrushedKept(v, t, a);
    }
    KeptByAllowed(Move, Benign, kept, s, run);
  }

  /** Until close(false) is won, nobody closes the session. */
  lemma StaysOpen(s: Session, t: nat, a: Action)
    requires Unrushed(s) && Aims(s) && s.status < CLOSING && Enabled(s, t, a) && Benign(s, t, a)
      && !(a == Go(false) && Begins(s, t))
    ensures Next(s, t, a).status < CLOSING
  {
    hide Queue.Mark, Queue.Manage, Queue.Clear, Flat;
  }

  lemma {:induction false} CarefulDrains(s: Session, run: seq<Event<Action>>)
    requires Safe(s) && Unrushed(s) && s.status < CLOSING && Legal(Move, s, run) && Always(Move, Careful, s, run)
    ensures After(Move, s, run).status == CLOSED ==> KeptPromise(After(Move, s, run))
    decreases |run|
  {
    hide OneOwner, Told, ClosesCounted, FailureCloses, NothingStranded, ClosingEnds, NoListLost, InOrder, Aims,
      Unrushed, Next, Benign, Enabled, Begins, Settled, KeptPromise;
    if run != [] {
      var t, a := run[0].t, run[0].a;
      if a == Go(false) && Begins(s, t) {
        SettledDrains(s, t);
        AllowedToo(Move, Careful, Benign, Next(s, t, a), run[1..]);
      } else {
        SafeStep(s, t, a);
        UnrushedKept(s, t, a);
        StaysOpen(s, t, a);
        CarefulDrains(Next(s, t, a), run[1..]);
      }
    }
  }

  /**
   So a graceful close loses nothing in every run in which closing begins in a settled session,
   whoever asked for it.
   */
  lemma GracefulCloseDrains(threads: nat, run: seq<Event<Action>>)
    requires Legal(Move, Init(threads), run) && Always(Move, Careful, Init(threads), run)
    ensures var s := After(Move, Init(threads), run); s.status == CLOSED ==> KeptPromise(s)
  {
    SafeInit(threads);
    hide Legal, After, Safe, Always, KeptPromise, Unrushed;
    CarefulDrains(Init(threads), run);
  }

  /** A benign step, with nobody else inside a call. */
  predicate Serial(s: Session, t: nat, a: Action) { Benign(s, t, a) && Alone(s, t) }

  /** With one call or callback at a time, a graceful close always drains. */
  lemma SerialCloseDrains(threads: nat, run: seq<Event<Action>>)
    requires Legal(Move, Init(threads), run) && Always(Move, Serial, Init(threads), run)
    ensures var s := After(Move, Init(threads), run); s.status == CLOSED ==> KeptPromise(s)
  {
    hide KeptPromise;
    hide Legal, After, Always, Init;
    forall s, t, a | Serial(s, t, a) ensures Careful(s, t, a) {}
    AllowedToo(Move, Serial, Careful, Init(threads), run);
    GracefulCloseDrains(threads, run);
  }

  // ---- two runs that show what does not hold ----

  /** The thread whose turn it is takes its next step. */
  lemma Onwards(s: Session, run: seq<Event<Action>>, t: nat) returns (longer: seq<Event<Action>>)
    requires Legal(Move, s, run) && t < |After(Move, s, run).pcs| && After(Move, s, run).pcs[t] != Idle
    ensures Legal(Move, s, longer) && After(Move, s, longer) == Proceed(After(Move, s, run), t, false)
  {
    OneMore(Move, s, run, t, Go(false));
    longer := run + [Event(t, Go(false))];
  }

  lemma Begin(s: Session, run: seq<Event<Action>>, t: nat, a: Action) returns (longer: seq<Event<Action>>)
    requires Legal(Move, s, run) && Enabled(After(Move, s, run), t, a)
    ensures Legal(Move, s, longer) && After(Move, s, longer) == Next(After(Move, s, run), t, a)
  {
    OneMore(Move, s, run, t, a);
    longer := run + [Event(t, a)];
  }

  /** Thread 0 has queued one buffer. */
  lemma Queued(x: Buffer) returns (run: seq<Event<Action>>)
    ensures Legal(Move, Init(3), run)
    ensures After(Move, Init(3), run) == Session(CONNECTING, Queue([x], [], 0), 0, [WriteTest, Idle, Idle],
      [[x]], 0, 0, [], [], NoOwner, 0, {}, 0, 0, 0, 0, [[x]], [], [])
  {
    hide Legal, After, Flat;
    var s := Init(3);
    EmptyRun(Move, s);
    run := Begin(s, [], 0, CallWrite([x]));
    run := Onwards(s, run, 0);
    run := Onwards(s, run, 0);
    assert After(Move, s, run).pcs == [WriteTest, Idle, Idle];
  }

  /** Its write is under way. */
  lemma Written(x: Buffer) returns (run: seq<Event<Action>>)
    ensures Legal(Move, Init(3), run)
    ensures After(Move, Init(3), run) == Session(CONNECTING, Queue([], [x], 1), 1, [Idle, Idle, Idle],
      [[x]], 0, 1, [], [], InFlight, 0, {}, 0, 0, 0, 0, [[x]], [], [])
  {
    hide Legal, After, Flat;
    run := Queued(x);
    run := Onwards(Init(3), run, 0);
    run := Onwards(Init(3), run, 0);
    run := Onwards(Init(3), run, 0);
    assert After(Move, Init(3), run).pcs == [Idle, Idle, Idle];
  }

  /** The write completes and the handler has been told. */
  lemma Reported(x: Buffer) returns (run: seq<Event<Action>>)
    ensures Legal(Move, Init(3), run)
    ensures After(Move, Init(3), run) == Session(CONNECTING, Queue([], [x], 1), 0, [Clearing, Idle, Idle],
      [[x]], 0, 1, [], [[x]], Held(0), 0, {}, 0, 0, 0, 0, [[x]], [], [])
  {
    hide Legal, After, Flat;
    run := Written(x);
    run := Begin(Init(3), run, 0, WriteDone);
    run := Onwards(Init(3), run, 0);
    assert After(Move, Init(3), run).pcs == [Clearing, Idle, Idle];
  }

  /** The batch is cleared and mark() finds nothing more; the thread has yet to look at the status. */
  lemma FoundNothing(x: Buffer) returns (run: seq<Event<Action>>)
    ensures Legal(Move, Init(3), run)
    ensures After(Move, Init(3), run) == Session(CONNECTING, Queue([], [], 1), 0, [ClosingTest, Idle, Idle],
      [[x]], 1, 1, [[x]], [[x]], NoOwner, 0, {}, 0, 0, 0, 0, [[x]], [], [])
  {
    hide Legal, After, Flat;
    run := Reported(x);
    run := Onwards(Init(3), run, 0);
    run := Onwards(Init(3), run, 0);
    run := Onwards(Init(3), run, 0);
    assert After(Move, Init(3), run).pcs == [ClosingTest, Idle, Idle];
  }

  /** Now thread 1 queues more, and thread 2 begins to close. */
  lemma ClosingBegins(x: Buffer, list: seq<Buffer>) returns (run: seq<Event<Action>>)
    ensures Legal(Move, Init(3), run)
    ensures After(Move, Init(3), run) == Session(CLOSING, Queue(list, [], 1), 0, [ClosingTest, WriteTest, WriteTest],
      [[x], list], 1, 1, [[x]], [[x]], NoOwner, 0, {}, 0, 0, 1, 1 + |list|, [[x], list], [], [])
  {
    hide Legal, After, Flat;
    run := FoundNothing(x);
    run := Begin(Init(3), run, 1, CallWrite(list));
    run := Onwards(Init(3), run, 1);
    run := Onwards(Init(3), run, 1);
    run := Begin(Init(3), run, 2, CallClose(false));
    run := Onwards(Init(3), run, 2);
    run := Onwards(Init(3), run, 2);
    FlatTwo([x], list);
    assert [[x]] + [list] == [[x], list] && |[x] + list| == 1 + |list|;
    assert After(Move, Init(3), run).pcs == [ClosingTest, WriteTest, WriteTest];
  }

  lemma FlatTwo(a: seq<Buffer>, b: seq<Buffer>)
    ensures Flat([a]) == a && Flat([a, b]) == a + b
  {
    FlatSnoc([], a);
    FlatSnoc([a], b);
    assert [] + [a] == [a] && [a] + [b] == [a, b] && [] + a == a;
  }

  /**
   write() asks for a mark and looks at the status in two steps. Closing may begin in between: then
   whatever was queued meanwhile is dropped, though no write failed and nobody closed at once. Every
   list can be lost this way.
   */
  lemma DrainRace(x: Buffer, list: seq<Buffer>) returns (run: seq<Event<Action>>)
    ensures Legal(Move, Init(3), run)
    ensures var s := After(Move, Init(3), run);
      && s.status == CLOSED && s.closes == 1 && s.inFlight == 0 && s.owner == NoOwner && s.reopened == 0
      && s.line == 1 + |list| && s.calls == [[x], list] && s.sent == [[x]] && s.queue.managed == list
      && (list != [] ==> !KeptPromise(s))
  {
    hide Legal, After, Flat;
    run := ClosingBegins(x, list);
    run := Onwards(Init(3), run, 0);
    run := Onwards(Init(3), run, 0);
    run := Onwards(Init(3), run, 0);
    run := Onwards(Init(3), run, 0);
    FlatTwo([x], list);
  }

  /** close(true), from a session that nobody else is using. */
  lemma ClosedNow(before: Session, run: seq<Event<Action>>) returns (longer: seq<Event<Action>>)
    requires Legal(Move, Init(1), run) && After(Move, Init(1), run) == before
    requires before.pcs == [Idle] && before.status < CLOSED && before.closers == {}
    ensures Legal(Move, Init(1), longer)
    ensures After(Move, Init(1), longer) == before.(status := CLOSED, closes := before.closes + 1)
  {
    hide Legal, After, Flat;
    longer := Begin(Init(1), run, 0, CallClose(true));
    longer := Onwards(Init(1), longer, 0);
    longer := Onwards(Init(1), longer, 0);
    longer := Onwards(Init(1), longer, 0);
    assert After(Move, Init(1), longer).pcs == [Idle] && After(Move, Init(1), longer).closers == {};
  }

  /**
   Output is stranded without any failed write: a caller copies its buffers, the session is closed before
   they are queued, and then the connection is made. Every list can be stranded.
   */
  lemma StrandedByConnect(list: seq<Buffer>) returns (run: seq<Event<Action>>)
    requires list != []
    ensures Legal(Move, Init(2), run)
    ensures var s := After(Move, Init(2), run);
      && Stranded(s) && s.queue == Queue(list, [], 0) && s.pcs == [Idle, Idle] && s.status == CONNECTED
      && s.owner == NoOwner
  {
    hide Legal, After, Flat, SeenTo;
    run := ClosedUnderneath(list);
    run := Onwards(Init(2), run, 0);
    run := Onwards(Init(2), run, 0);
    run := Begin(Init(2), run, 0, ConnectDone);
    assert [] + list == list;
    assert After(Move, Init(2), run).pcs == [Idle, Idle];
    NobodySees(After(Move, Init(2), run));
  }

  /** Thread 0 has passed the test of the status. */
  lemma PastTheTest(list: seq<Buffer>) returns (run: seq<Event<Action>>)
    ensures Legal(Move, Init(2), run)
    ensures After(Move, Init(2), run) == Init(2).(pcs := [Splicing(list), Idle], offered := [list])
  {
    hide Legal, After, Flat;
    var s := Init(2);
    EmptyRun(Move, s);
    run := Begin(s, [], 0, CallWrite(list));
    run := Onwards(s, run, 0);
    assert After(Move, s, run).pcs == [Splicing(list), Idle];
  }

  /** Then thread 1 closes the session. */
  lemma ClosedUnderneath(list: seq<Buffer>) returns (run: seq<Event<Action>>)
    ensures Legal(Move, Init(2), run)
    ensures var s := After(Move, Init(2), run);
      s.pcs == [Splicing(list), Idle] && s.status == CLOSED && s.queue == Queue([], [], 0) && s.owner == NoOwner
        && s.inFlight == 0
  {
    hide Legal, After, Flat;
    var s := Init(2);
    run := PastTheTest(list);
    run := Begin(s, run, 1, CallClose(true));
    run := Onwards(s, run, 1);
    run := Onwards(s, run, 1);
    run := Onwards(s, run, 1);
    assert After(Move, s, run).pcs == [Splicing(list), Idle];
  }

  lemma NobodySees(s: Session)
    requires s.inFlight == 0 && s.owner == NoOwner && s.pcs == [Idle, Idle]
    ensures !SeenTo(s)
  {
  }

  /** The write of one buffer fails, and the thread that saw it closes the session. */
  lemma WriteHasFailed(x: Buffer) returns (run: seq<Event<Action>>)
    ensures Legal(Move, Init(3), run)
    ensures var s := After(Move, Init(3), run);
      s.pcs == [Idle, Idle, Idle] && s.status == CLOSED && s.queue == Queue([], [x], 1) && s.owner == Broken(0)
        && s.inFlight == 0
  {
    hide Legal, After, Flat;
    run := Written(x);
    run := Begin(Init(3), run, 0, WriteFailed);
    run := Onwards(Init(3), run, 0);
    run := Onwards(Init(3), run, 0);
    run := Onwards(Init(3), run, 0);
    assert After(Move, Init(3), run).pcs == [Idle, Idle, Idle];
  }

  lemma ClosingAgain(x: Buffer) returns (run: seq<Event<Action>>)
    ensures Legal(Move, Init(3), run)
    ensures var s := After(Move, Init(3), run);
      && s.pcs == [WriteTest, Idle, Idle] && s.status == CLOSING && s.queue == Queue([], [x], 1) && s.inFlight == 0
  {
    hide Legal, After, Flat;
    run := WriteHasFailed(x);
    run := Begin(Init(3), run, 0, ConnectDone);
    run := Begin(Init(3), run, 0, CallClose(false));
    run := Onwards(Init(3), run, 0);
    run := Onwards(Init(3), run, 0);
    assert After(Move, Init(3), run).pcs == [WriteTest, Idle, Idle];
  }

  /** If connect then stores over closed, the batch stays marked, and nobody is left to end a graceful close. */
  lemma HangsInClosing(x: Buffer) returns (run: seq<Event<Action>>)
    ensures Legal(Move, Init(3), run)
    ensures var s := After(Move, Init(3), run);
      s.pcs == [Idle, Idle, Idle] && s.status == CLOSING && s.queue.Pending() == [x] && s.inFlight == 0
  {
    hide Legal, After, Flat;
    run := ClosingAgain(x);
    run := Onwards(Init(3), run, 0);
    run := Onwards(Init(3), run, 0);
    assert After(Move, Init(3), run).pcs == [Idle, Idle, Idle];
  }

  /** handler::close runs twice when a session is closed before its connection is made. */
  lemma ClosedTwice() returns (run: seq<Event<Action>>)
    ensures Legal(Move, Init(1), run)
    ensures var s := After(Move, Init(1), run);
      s.status == CLOSED && s.closes == 2 && s.reopened == 1 && s.pcs == [Idle]
  {
    hide Legal, After, Flat;
    var s := Init(1);
    EmptyRun(Move, s);
    run := ClosedNow(s, []);
    run := Begin(s, run, 0, ConnectDone);
    run := ClosedNow(After(Move, s, run), run);
  }
}

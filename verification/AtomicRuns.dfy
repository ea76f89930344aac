/**
 What holds after every run of threads that use reference-counted objects and atomic cells.
 */
module AtomicRuns {
  import opened Runs
  import opened Wrappers
  import opened AtomicSteps
  import opened AtomicWaiters
  import opened AtomicCounts
  import opened AtomicDeletion
  import opened AtomicHistory

  /** Empty cells, threads without objects. */
  function Init(threads: nat, cells: nat): State {
    State(seq(cells, i => Cell(Word(NULL, false, false), Nobody, [])),
      seq(threads, i => Thread(Idle, multiset{}, 0, [])),
      map[], multiset{}, map[])
  }

  /** Objects and cells as a system of threads. */
  function Move(s: State, t: nat, a: Action): Option<State> {
    if Placed(s) && Enabled(s, t, a) then Some(Next(s, t, a)) else None
  }

  ghost predicate Safe(s: State) {
    Guarded(s) && Served(s) && Counted(s) && Provided(s) && DeletedOnce(s) && Accounted(s) && Balanced(s)
  }

  lemma {:induction false} InitCounts(threads: nat, cells: nat, h: Handle)
    requires h != NULL
    ensures HeldBy(Init(threads, cells).threads, h) == 0 && PointedBy(Init(threads, cells).cells, h) == 0
    decreases threads + cells
  {
    if threads > 0 {
      InitCounts(threads - 1, cells, h);
      assert Init(threads, cells).threads[..threads - 1] == Init(threads - 1, cells).threads;
    }
    if cells > 0 {
      InitCounts(threads, cells - 1, h);
      assert Init(threads, cells).cells[..cells - 1] == Init(threads, cells - 1).cells;
    }
  }

  lemma {:induction false} InitHistory(threads: nat, cells: nat, e: Entry)
    ensures Logged(Init(threads, cells).cells, e) == 0 && Answered(Init(threads, cells).threads, e) == 0
    decreases threads + cells
  {
    if threads > 0 {
      InitHistory(threads - 1, cells, e);
      assert Init(threads, cells).threads[..threads - 1] == Init(threads - 1, cells).threads;
    }
    if cells > 0 {
      InitHistory(threads, cells - 1, e);
      assert Init(threads, cells).cells[..cells - 1] == Init(threads, cells - 1).cells;
    }
  }

  lemma SafeInit(threads: nat, cells: nat)
    ensures Safe(Init(threads, cells))
  {
    hide HeldBy, PointedBy, Logged, Answered;
    forall e ensures Logged(Init(threads, cells).cells, e) == Answered(Init(threads, cells).threads, e) {
      InitHistory(threads, cells, e);
    }
    forall h: Handle | h != NULL ensures Count(Init(threads, cells), h) == Owners(Init(threads, cells), h) {
      InitCounts(threads, cells, h);
    }
  }

  lemma SafeStep(s: State, t: nat, a: Action)
    requires Safe(s) && Placed(s) && Enabled(s, t, a)
    ensures Safe(Next(s, t, a))
  {
    hide Guarded, Served, Counted, Provided, DeletedOnce, Accounted, Balanced, Placed, Enabled, Next;
    GuardedKept(s, t, a);
    ServedKept(s, t, a);
    CountedKept(s, t, a);
    ProvidedKept(s, t, a);
    DeletedKept(s, t, a);
    AccountedKept(s, t, a);
    BalancedKept(s, t, a);
  }

  lemma SafeRun(s: State, run: seq<Event<Action>>)
    requires Safe(s) && Legal(Move, s, run)
    ensures Safe(After(Move, s, run))
  {
    hide Safe, Placed, Enabled, Next, Legal, After;
    forall v, t, a | Safe(v) && Move(v, t, a).Some? ensures Safe(Move(v, t, a).value) { SafeStep(v, t, a); }
    KeptByRun(Move, Safe, s, run);
  }

  lemma SafeAlways(threads: nat, cells: nat, run: seq<Event<Action>>)
    requires Legal(Move, Init(threads, cells), run)
    ensures Safe(After(Move, Init(threads, cells), run))
  {
    hide Safe, Legal, After;
    SafeInit(threads, cells);
    SafeRun(Init(threads, cells), run);
  }

  // ---- theorems: every number of threads and cells, every interleaving ----

  /**
   No thread ever finds both bits set, so std::terminate() is never called. (Placed, which Legal asks
   for at every step, never fails.)
   */
  lemma NeverTerminates(threads: nat, cells: nat, run: seq<Event<Action>>)
    requires Legal(Move, Init(threads, cells), run)
    ensures var s := After(Move, Init(threads, cells), run);
      Placed(s) && forall i :: 0 <= i < |s.threads| ==> s.threads[i].pc != Crashed
  {
    hide Legal, After, Init, Served, Counted, Provided, DeletedOnce, CellOk;
    SafeAlways(threads, cells, run);
    var s := After(Move, Init(threads, cells), run);
    GuardedIsPlaced(s);
    assert forall i :: 0 <= i < |s.threads| ==> ThreadOk(s.cells, s.threads[i].pc, i);
  }

  /** A cell is locked by at most one thread; a bit is set, one at most, exactly while one has the lock. */
  lemma LockExclusive(threads: nat, cells: nat, run: seq<Event<Action>>, c: nat)
    requires Legal(Move, Init(threads, cells), run) && c < |After(Move, Init(threads, cells), run).cells|
    ensures var s := After(Move, Init(threads, cells), run);
      && !(s.cells[c].word.locked && s.cells[c].word.waiting)
      && (!s.cells[c].word.Free() <==> exists i :: 0 <= i < |s.threads| && Owns(s.threads[i].pc, c))
      && forall i, j :: 0 <= i < |s.threads| && 0 <= j < |s.threads| ==>
           Owns(s.threads[i].pc, c) && Owns(s.threads[j].pc, c) ==> i == j
  {
    hide Legal, After, Init, Served, Counted, Provided, DeletedOnce, Linear, Value, Owns;
    SafeAlways(threads, cells, run);
    var s := After(Move, Init(threads, cells), run);
    forall i | 0 <= i < |s.threads| ensures s.cells[c].owner == By(i) <==> Owns(s.threads[i].pc, c) {
      assert ThreadOk(s.cells, s.threads[i].pc, i);
    }
    assert CellOk(s.cells[c], |s.threads|);
    if s.cells[c].owner.By? { assert Owns(s.threads[s.cells[c].owner.t].pc, c); }
  }

  /**
   A thread that sleeps on a cell is not forgotten: the waiting bit is set and a thread that is not
   asleep has the lock, or another thread is about to wake everybody.
   */
  lemma NoLostWakeup(threads: nat, cells: nat, run: seq<Event<Action>>, i: nat, c: nat)
    requires Legal(Move, Init(threads, cells), run)
    requires var s := After(Move, Init(threads, cells), run);
      i < |s.threads| && c < |s.cells| && Asleep(s.threads[i].pc, c)
    ensures var s := After(Move, Init(threads, cells), run);
      exists u :: 0 <= u < |s.threads| && u != i
        && ((s.cells[c].word.waiting && Owns(s.threads[u].pc, c)) || Notifies(s.threads[u].pc, c))
  {
    hide Legal, After, Init, Counted, Provided, DeletedOnce, Linear, Value;
    SafeAlways(threads, cells, run);
    LockExclusive(threads, cells, run, c);
  }

  /**
   A cell is a plain register: the operations that took effect, in the order of their effect, found
   what a register would have held, and the pointer is what the register holds now.
   */
  lemma CellIsRegister(threads: nat, cells: nat, run: seq<Event<Action>>, c: nat)
    requires Legal(Move, Init(threads, cells), run) && c < |After(Move, Init(threads, cells), run).cells|
    ensures var cell := After(Move, Init(threads, cells), run).cells[c];
      Linear(cell.log) && Value(cell.log) == cell.word.ptr
  {
    hide Legal, After, Init, Served, Counted, Provided, DeletedOnce, Linear, Value;
    SafeAlways(threads, cells, run);
    var s := After(Move, Init(threads, cells), run);
    assert CellOk(s.cells[c], |s.threads|);
  }

  /**
   Every call of an operation on a register takes effect once and is answered with what it found: a
   thread has one answer for each call it has begun, but for the one it is in; and the logs of all
   cells together hold exactly the answers of all threads.
   */
  lemma EveryCallTakesEffectOnce(threads: nat, cells: nat, run: seq<Event<Action>>)
    requires Legal(Move, Init(threads, cells), run)
    ensures var s := After(Move, Init(threads, cells), run);
      && (forall i :: 0 <= i < |s.threads| ==>
            s.threads[i].begun == |s.threads[i].answers| + if InCall(s.threads[i].pc) then 1 else 0)
      && forall e :: Logged(s.cells, e) == Answered(s.threads, e)
  {
    hide Legal, After, Init, Guarded, Served, Counted, Provided, DeletedOnce, Logged, Answered, InCall;
    SafeAlways(threads, cells, run);
    var s := After(Move, Init(threads, cells), run);
    assert forall i :: 0 <= i < |s.threads| ==> AccountedThread(s.threads[i]);
  }

  /** What compare_exchange returns, and what it leaves in the caller's variable expected. */
  predicate Succeeded(e: Entry)
    requires e.op.CasOp?
  {
    e.seen == e.op.expected
  }

  /** What an operation that found h leaves its caller, and what it still destroys. */
  ghost predicate Leaves(th: Thread, after: Thread, op: Op, h: Handle) {
    && (after.pc.Notify? || after.pc.Drop?)
    && match op
       case LoadOp => after.pc.drops == [] && after.held == th.held && forall k: Handle :: Ref(h)[k] <= after.held[k]
       case StoreOp(d) => after.pc.drops == [h] && after.held == th.held - Ref(d) + Ref(h)
       case ExchangeOp(d) => after.pc.drops == [] && after.held == th.held - Ref(d) + Ref(h)
       case CasOp(e, d) =>
         if Succeeded(Entry(op, h)) then after.pc.drops == [h] && after.held == th.held - Ref(d) + Ref(h)
         else
           && after.pc.drops == [e, d] && after.held == th.held
           && forall k: Handle :: Ref(e)[k] + Ref(d)[k] + Ref(h)[k] <= after.held[k]
       case LockOp => false
  }

  /**
   An operation takes effect while its caller is inside it, and gives the caller what the register held
   then: load a further reference to it, exchange its only one; compare_exchange stores exactly when
   it succeeds, and if not leaves the caller a reference to what it saw instead of the expected one.
   */
  lemma EffectOfOperation(threads: nat, cells: nat, run: seq<Event<Action>>, t: nat, op: Op, c: nat, h: Handle)
    requires Legal(Move, Init(threads, cells), run)
    requires var s := After(Move, Init(threads, cells), run); t < |s.threads| && s.threads[t].pc == Storing(op, c, h)
    ensures var s := After(Move, Init(threads, cells), run);
      && Placed(s) && Enabled(s, t, Go(false)) && c < |s.cells|
      && Proceed(s, t, false) == StoreAndUnlock(s, t, op, c, h)
      && HasEffect(s, StoreAndUnlock(s, t, op, c, h), t, op, c, h)
  {
    hide Legal, After, Init, Guarded, Provided, Placed, Served, Counted, DeletedOnce, Accounted, Balanced, HasEffect,
      StoreAndUnlock;
    SafeAlways(threads, cells, run);
    EffectHere(After(Move, Init(threads, cells), run), t, op, c, h);
  }

  /** Thread t's operation takes effect between s and n, on a register that held h. */
  ghost predicate HasEffect(s: State, n: State, t: nat, op: Op, c: nat, h: Handle) {
    && c < |s.cells| == |n.cells| && t < |s.threads| == |n.threads|
    && Value(s.cells[c].log) == h && Value(n.cells[c].log) == n.cells[c].word.ptr == NewValue(op, h)
    && n.cells[c].log == s.cells[c].log + [Entry(op, h)]
    && n.threads[t].answers == s.threads[t].answers + [Entry(op, h)]
    && Leaves(s.threads[t], n.threads[t], op, h)
  }

  lemma EffectHere(s: State, t: nat, op: Op, c: nat, h: Handle)
    requires Guarded(s) && Provided(s) && t < |s.threads| && s.threads[t].pc == Storing(op, c, h)
    ensures Placed(s) && c < |s.cells| && HasEffect(s, StoreAndUnlock(s, t, op, c, h), t, op, c, h)
  {
    hide Guarded, Provided, Placed, Linear, Value, NewValue, Ref, Replaces, Dropped, Leave, Leaves;
    GuardedIsPlaced(s);
    Here(s, t);
    Needed(s, t);
    LogGrows(s.cells[c].log, Entry(op, h));
    LeavesHere(s.threads[t], StoreAndUnlock(s, t, op, c, h).threads[t], s.cells[c].word, op, c, h);
  }

  lemma LeavesHere(th: Thread, after: Thread, word: Word, op: Op, c: nat, h: Handle)
    requires Has(th) && th.pc == Storing(op, c, h) && op != LockOp && after.pc == Leave(word, c, Dropped(op, h))
    requires after.held == if Replaces(op, h) then th.held - Ref(NewValue(op, h)) + Ref(h) else th.held
    ensures Leaves(th, after, op, h)
  {
    NeedsStoring(op, c, h);
    hide Needs, Ref;
    forall k: Handle ensures Needs(th.pc)[k] <= th.held[k] {}
  }

  /**
   The count of every holder is the number of objects that own it plus the number of cells that
   point to it. While somebody owns it, it has not been deleted and nobody is about to delete it; it is
   never deleted twice.
   */
  lemma CountsAreExact(threads: nat, cells: nat, run: seq<Event<Action>>, h: Handle)
    requires Legal(Move, Init(threads, cells), run) && h != NULL
    ensures var s := After(Move, Init(threads, cells), run);
      && Count(s, h) == HeldBy(s.threads, h) + PointedBy(s.cells, h)
      && s.deleted[h] <= 1
      && (HeldBy(s.threads, h) + PointedBy(s.cells, h) > 0 ==>
            h in s.counts && s.deleted[h] == 0 && forall i :: 0 <= i < |s.threads| ==> !Deletes(s.threads[i].pc, h))
  {
    hide Legal, After, Init, Guarded, Served, Provided, HeldBy, PointedBy;
    SafeAlways(threads, cells, run);
    var s := After(Move, Init(threads, cells), run);
    assert Count(s, h) == Owners(s, h);
    if Owners(s, h) > 0 { OwnedIsAlive(s, h); }
  }

  /** Nothing leaks: a holder that nobody owns any more has been deleted, or one thread is at it. */
  lemma NothingLeaks(threads: nat, cells: nat, run: seq<Event<Action>>, h: Handle)
    requires Legal(Move, Init(threads, cells), run) && h != NULL
    requires var s := After(Move, Init(threads, cells), run);
      h in s.counts && HeldBy(s.threads, h) == 0 && PointedBy(s.cells, h) == 0
    ensures var s := After(Move, Init(threads, cells), run);
      if s.deleted[h] == 1 then forall i :: 0 <= i < |s.threads| ==> !Deletes(s.threads[i].pc, h)
      else exists i :: 0 <= i < |s.threads| && Deletes(s.threads[i].pc, h)
  {
    hide Legal, After, Init, Guarded, Served, Provided, HeldBy, PointedBy;
    SafeAlways(threads, cells, run);
    var s := After(Move, Init(threads, cells), run);
    assert Count(s, h) == Owners(s, h);
    if s.deleted[h] != 1 { assert Deletes(s.threads[s.deleters[h]].pc, h); }
  }

  /** With every thread out of its calls, cells are unlocked and every unowned holder is gone. */
  lemma QuietIsClean(threads: nat, cells: nat, run: seq<Event<Action>>)
    requires Legal(Move, Init(threads, cells), run)
    requires var s := After(Move, Init(threads, cells), run);
      forall i :: 0 <= i < |s.threads| ==> s.threads[i].pc == Idle
    ensures var s := After(Move, Init(threads, cells), run);
      && (forall c :: 0 <= c < |s.cells| ==> s.cells[c].word.Free())
      && forall h: Handle :: h != NULL && h in s.counts && HeldBy(s.threads, h) + PointedBy(s.cells, h) == 0 ==>
           s.deleted[h] == 1
  {
    hide Legal, After, Init, HeldBy, PointedBy, Count, Linear, Value;
    var s := After(Move, Init(threads, cells), run);
    forall c | 0 <= c < |s.cells| ensures s.cells[c].word.Free() { LockExclusive(threads, cells, run, c); }
    forall h: Handle | h != NULL && h in s.counts && HeldBy(s.threads, h) + PointedBy(s.cells, h) == 0
      ensures s.deleted[h] == 1
    {
      NothingLeaks(threads, cells, run, h);
    }
  }
}

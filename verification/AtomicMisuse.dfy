/**
 set() by a thread that does not have the lock of the cell: what it keeps, and exactly when it does harm.
 */
module AtomicMisuse {
  import opened Runs
  import opened AtomicSteps
  import opened AtomicWaiters
  import opened AtomicCounts
  import opened AtomicDeletion
  import opened AtomicHistory
  import opened AtomicRuns

  /** A set() by thread u, which need not have the lock, in one go. */
  function StraySet(s: State, u: nat, c: nat, e: Handle): State
    requires u < |s.threads| && c < |s.cells|
  {
    At(Set(Begun(s, u), u, c, e, s.cells[c].word, false), u, Idle)
  }

  /** What it changes. */
  lemma StrayOnly(s: State, u: nat, c: nat, e: Handle)
    requires u < |s.threads| && c < |s.cells|
    ensures var n, cell, th := StraySet(s, u, c, e), s.cells[c], s.threads[u];
      var x := Entry(ExchangeOp(e), cell.word.ptr);
      && n.counts == s.counts && n.deleted == s.deleted && n.deleters == s.deleters
      && n.cells == s.cells[c := Cell(cell.word.(ptr := e), cell.owner, cell.log + [x])]
      && n.threads ==
           s.threads[u := Thread(Idle, th.held - Ref(e) + Ref(cell.word.ptr), th.begun + 1, th.answers + [x])]
  {
    hide Ref;
  }

  /** The lock: at most one owner, who is where owners are; never both bits; bits exactly with an owner. */
  ghost predicate LockHolds(s: State) {
    && (forall c :: 0 <= c < |s.cells| ==>
          && !(s.cells[c].word.locked && s.cells[c].word.waiting)
          && (s.cells[c].owner == Nobody <==> s.cells[c].word.Free()))
    && (forall i, c :: 0 <= i < |s.threads| && 0 <= c < |s.cells| ==>
         (s.cells[c].owner == By(i) <==> Owns(s.threads[i].pc, c)))
  }

  /** The lock survives a set() by anybody, because it keeps the bits. */
  lemma AnySetKeepsTheLock(s: State, u: nat, c: nat, e: Handle)
    requires LockHolds(s) && u < |s.threads| && c < |s.cells| && s.threads[u].pc == Idle
    ensures LockHolds(StraySet(s, u, c, e))
  {
    StrayOnly(s, u, c, e);
    hide Ref, StraySet;
  }

  // ---- a set() that does no harm ----

  /** Thread pc has the lock of c and goes by the pointer it found there. */
  predicate GoesBy(pc: Pc, c: nat) { (pc.Locked? || pc.Storing? || pc.Getting? || pc.Unlocking?) && pc.c == c }

  /** No thread relies on the pointer of c, or set() stores the same one. */
  ghost predicate Harmless(s: State, c: nat, e: Handle)
    requires c < |s.cells|
  {
    e == s.cells[c].word.ptr || forall i :: 0 <= i < |s.threads| ==> !GoesBy(s.threads[i].pc, c)
  }

  /** A thread that does not go by the pointer of c takes no notice of a new one. */
  lemma TakesNoNotice(cells: seq<Cell>, c: nat, cell: Cell, pc: Pc, i: nat)
    requires c < |cells| && ThreadOk(cells, pc, i) && cell.owner == cells[c].owner
    requires cell.word.ptr == cells[c].word.ptr || !GoesBy(pc, c)
    ensures ThreadOk(cells[c := cell], pc, i)
  {
    hide Owns;
  }

  /** One that does has the wrong one. */
  lemma IsMisled(cells: seq<Cell>, c: nat, cell: Cell, pc: Pc, i: nat)
    requires c < |cells| && ThreadOk(cells, pc, i) && cell.word.ptr != cells[c].word.ptr && GoesBy(pc, c)
    ensures !ThreadOk(cells[c := cell], pc, i)
  {
    hide Owns;
  }

  lemma StrayGuarded(s: State, u: nat, c: nat, e: Handle)
    requires Guarded(s) && u < |s.threads| && c < |s.cells| && s.threads[u].pc == Idle && Harmless(s, c, e)
    ensures Guarded(StraySet(s, u, c, e))
  {
    StrayOnly(s, u, c, e);
    hide Ref, StraySet, ThreadOk, CellOk, GoesBy;
    var n := StraySet(s, u, c, e);
    StrayCell(s.cells[c], |s.threads|, e);
    forall i | 0 <= i < |n.threads| ensures ThreadOk(n.cells, n.threads[i].pc, i) {
      TakesNoNotice(s.cells, c, n.cells[c], s.threads[i].pc, i);
    }
  }

  lemma StrayCell(cell: Cell, threads: nat, e: Handle)
    requires CellOk(cell, threads)
    ensures CellOk(Cell(cell.word.(ptr := e), cell.owner, cell.log + [Entry(ExchangeOp(e), cell.word.ptr)]), threads)
  {
    hide Linear, Value;
    LogGrows(cell.log, Entry(ExchangeOp(e), cell.word.ptr));
  }

  lemma HarmfulIsUnguarded(s: State, u: nat, c: nat, e: Handle)
    requires Guarded(s) && u < |s.threads| && c < |s.cells| && s.threads[u].pc == Idle && !Harmless(s, c, e)
    ensures !Guarded(StraySet(s, u, c, e))
  {
    StrayOnly(s, u, c, e);
    var i :| 0 <= i < |s.threads| && GoesBy(s.threads[i].pc, c);
    IdleGoesByNothing(s.threads[u].pc, c);
    hide Ref, StraySet, ThreadOk, CellOk, GoesBy;
    var n := StraySet(s, u, c, e);
    IsMisled(s.cells, c, n.cells[c], s.threads[i].pc, i);
    assert n.threads[i].pc == s.threads[i].pc;
  }

  lemma IdleGoesByNothing(pc: Pc, c: nat)
    requires pc == Idle
    ensures !GoesBy(pc, c)
  {
  }

  lemma StrayServed(s: State, u: nat, c: nat, e: Handle)
    requires Served(s) && u < |s.threads| && c < |s.cells| && s.threads[u].pc == Idle
    ensures Served(StraySet(s, u, c, e))
  {
    StrayOnly(s, u, c, e);
    hide Ref, StraySet, Served;
    ServedStep(s, StraySet(s, u, c, e), u, c);
  }

  lemma StrayCounted(s: State, u: nat, c: nat, e: Handle)
    requires Counted(s) && u < |s.threads| && c < |s.cells| && forall k: Handle :: Ref(e)[k] <= s.threads[u].held[k]
    ensures Counted(StraySet(s, u, c, e))
  {
    StrayOnly(s, u, c, e);
    hide Ref, StraySet, Counted;
    CountedSwap(s, StraySet(s, u, c, e), u, c, e, s.cells[c].word.ptr);
  }

  lemma StrayProvided(s: State, u: nat, c: nat, e: Handle)
    requires Provided(s) && u < |s.threads| && c < |s.cells|
    ensures Provided(StraySet(s, u, c, e))
  {
    StrayOnly(s, u, c, e);
    NeedsIdle();
    hide Ref, StraySet, Provided, Needs;
    ProvidedStep(s, StraySet(s, u, c, e), u);
  }

  lemma StrayDeleted(s: State, u: nat, c: nat, e: Handle)
    requires DeletedOnce(s) && u < |s.threads| && c < |s.cells| && s.threads[u].pc == Idle
    ensures DeletedOnce(StraySet(s, u, c, e))
  {
    StrayOnly(s, u, c, e);
    hide Ref, StraySet, DeletedOnce;
    DeletedSame(s, StraySet(s, u, c, e), u);
  }

  lemma StrayHistory(s: State, u: nat, c: nat, e: Handle)
    requires Accounted(s) && Balanced(s) && u < |s.threads| && c < |s.cells| && s.threads[u].pc == Idle
    ensures Accounted(StraySet(s, u, c, e)) && Balanced(StraySet(s, u, c, e))
  {
    StrayOnly(s, u, c, e);
    hide Ref, StraySet, Accounted, Logged, Answered;
    var n, entry := StraySet(s, u, c, e), Entry(ExchangeOp(e), s.cells[c].word.ptr);
    ThreadHere(s, u);
    AccountedStep(s, n, u);
    forall x ensures Logged(n.cells, x) == Answered(n.threads, x) { BalancedByEffect(s, n, u, c, entry, x); }
  }

  lemma HarmlessIsSafe(s: State, u: nat, c: nat, e: Handle)
    requires Safe(s) && u < |s.threads| && c < |s.cells| && s.threads[u].pc == Idle && Harmless(s, c, e)
    requires forall k: Handle :: Ref(e)[k] <= s.threads[u].held[k]
    ensures Safe(StraySet(s, u, c, e))
  {
    hide Guarded, Served, Counted, Provided, DeletedOnce, Accounted, Balanced, StraySet, Harmless, Ref;
    StrayGuarded(s, u, c, e);
    StrayServed(s, u, c, e);
    StrayCounted(s, u, c, e);
    StrayProvided(s, u, c, e);
    StrayDeleted(s, u, c, e);
    StrayHistory(s, u, c, e);
  }

  lemma HarmfulIsUnsafe(s: State, u: nat, c: nat, e: Handle)
    requires Safe(s) && u < |s.threads| && c < |s.cells| && s.threads[u].pc == Idle && !Harmless(s, c, e)
    ensures !Safe(StraySet(s, u, c, e)) && !s.cells[c].word.Free()
  {
    hide Guarded, Served, Counted, Provided, DeletedOnce, Accounted, Balanced, StraySet, Harmless;
    HarmfulIsUnguarded(s, u, c, e);
    if s.cells[c].word.Free() { FreeIsHarmless(s, c, e); }
  }

  /**
   In every state that can be reached, a set() without the lock by a thread that has what it sets keeps
   all that these proofs rely on, if and only if no thread goes by the pointer of the cell or it stores
   the same pointer: so whenever the cell is not locked, and also while the lock is only held. Then
   every continuation keeps it as well.
   */
  lemma SetIsSafeExactly(threads: nat, cells: nat, run: seq<Event<Action>>, u: nat, c: nat, e: Handle)
    requires Legal(Move, Init(threads, cells), run)
    requires var s := After(Move, Init(threads, cells), run);
      && u < |s.threads| && c < |s.cells| && s.threads[u].pc == Idle
      && forall k: Handle :: Ref(e)[k] <= s.threads[u].held[k]
    ensures var s := After(Move, Init(threads, cells), run); var n := StraySet(s, u, c, e);
      && (Safe(n) <==> Harmless(s, c, e))
      && (s.cells[c].word.Free() ==> Harmless(s, c, e))
      && (Harmless(s, c, e) ==> forall more :: Legal(Move, n, more) ==> Safe(After(Move, n, more)))
  {
    SafeAlways(threads, cells, run);
    var s := After(Move, Init(threads, cells), run);
    var n := StraySet(s, u, c, e);
    hide Legal, After, Init, Safe, StraySet, Harmless, Ref;
    if Harmless(s, c, e) {
      HarmlessIsSafe(s, u, c, e);
      forall more | Legal(Move, n, more) ensures Safe(After(Move, n, more)) { SafeRun(n, more); }
    } else {
      HarmfulIsUnsafe(s, u, c, e);
    }
  }

  lemma FreeIsHarmless(s: State, c: nat, e: Handle)
    requires Guarded(s) && c < |s.cells| && s.cells[c].word.Free()
    ensures Harmless(s, c, e)
  {
    hide Linear, Value;
    assert CellOk(s.cells[c], |s.threads|);
    forall i | 0 <= i < |s.threads| ensures !GoesBy(s.threads[i].pc, c) {
      assert ThreadOk(s.cells, s.threads[i].pc, i);
    }
  }

  // ---- a set() that breaks the counts ----

  /** Thread t replaces the pointer e of a cell and gives or takes a reference to h for it. */
  lemma StaleSwap(m: State, n: State, t: nat, c: nat, h: Handle, e: Handle)
    requires Counted(m) && t < |m.threads| == |n.threads| && n.threads == m.threads[t := n.threads[t]]
      && n.counts == m.counts
    requires c < |m.cells| == |n.cells| && n.cells == m.cells[c := n.cells[c]] && m.cells[c].word.ptr == e
    requires forall k: Handle :: k != NULL ==>
      n.threads[t].held[k] + One(n.cells[c], k) == m.threads[t].held[k] + Ref(h)[k]
    ensures Counted(n) <==> e == h
  {
    hide HeldBy, PointedBy;
    forall k: Handle | k != NULL ensures Owners(n, k) + Ref(e)[k] == Count(n, k) + Ref(h)[k] {
      assert Count(m, k) == Owners(m, k);
      HeldByUpdate(m.threads, t, n.threads[t], k);
      PointedByUpdate(m.cells, c, n.cells[c], k);
    }
    if e != h {
      var k := if h != NULL then h else e;
      assert Ref(h)[k] != Ref(e)[k];
    }
  }

  /**
   The counts break when any operation of another thread is between finding a pointer h and storing: they
   match the owners after its exchange if and only if set() stored the same pointer.
   */
  lemma SetNeedsTheLock(s: State, t: nat, u: nat, c: nat, op: Op, h: Handle, e: Handle)
    requires Counted(s) && t < |s.threads| && u < |s.threads| && t != u && c < |s.cells|
    requires s.threads[t].pc == Storing(op, c, h) && s.cells[c].word.ptr == h && Has(s.threads[t])
    requires forall k: Handle :: Ref(e)[k] <= s.threads[u].held[k]
    ensures Counted(StoreAndUnlock(StraySet(s, u, c, e), t, op, c, h)) <==> e == h
  {
    NeedsOf(s.threads[t]);
    StrayCounted(s, u, c, e);
    StrayOnly(s, u, c, e);
    hide StraySet, Counted, Has, Needs, StoreAndUnlock, Ref, NewValue, Replaces;
    var m := StraySet(s, u, c, e);
    assert m.threads[t] == s.threads[t];
    StoreSwaps(m, t, op, c, h);
    StaleSwap(m, StoreAndUnlock(m, t, op, c, h), t, c, h, e);
  }

  /** An operation gives the cell a reference to its new value and takes one to what it believes it had. */
  lemma StoreSwaps(m: State, t: nat, op: Op, c: nat, h: Handle)
    requires t < |m.threads| && c < |m.cells|
    requires Replaces(op, h) ==> forall k: Handle :: Ref(NewValue(op, h))[k] <= m.threads[t].held[k]
    ensures var n := StoreAndUnlock(m, t, op, c, h);
      && |n.threads| == |m.threads| && |n.cells| == |m.cells| && n.counts == m.counts
      && n.cells == m.cells[c := n.cells[c]] && n.threads == m.threads[t := n.threads[t]]
      && forall k: Handle :: k != NULL ==> n.threads[t].held[k] + One(n.cells[c], k) == m.threads[t].held[k] + Ref(h)[k]
  {
    hide Dropped, Leave;
  }

  /** And so they do when it is between finding the pointer in unlock() and storing it again. */
  lemma UnlockNeedsTheLock(s: State, t: nat, u: nat, c: nat, h: Handle, e: Handle)
    requires Counted(s) && t < |s.threads| && u < |s.threads| && t != u && c < |s.cells|
    requires s.threads[t].pc == Unlocking(c, h) && s.cells[c].word.ptr == h
    requires forall k: Handle :: Ref(e)[k] <= s.threads[u].held[k]
    ensures Counted(Unlock(StraySet(s, u, c, e), t, c, h)) <==> e == h
  {
    StrayCounted(s, u, c, e);
    StrayOnly(s, u, c, e);
    hide StraySet, Counted;
    var m := StraySet(s, u, c, e);
    var n := Unlock(m, t, c, h);
    assert m.threads[t] == s.threads[t];
    StaleSwap(m, n, t, c, h, e);
  }

  // ---- a run that gets there ----

  lemma Step(run: seq<Event<Action>>, t: nat, a: Action) returns (longer: seq<Event<Action>>)
    requires Legal(Move, Init(2, 1), run) && Placed(After(Move, Init(2, 1), run))
      && Enabled(After(Move, Init(2, 1), run), t, a)
    ensures Legal(Move, Init(2, 1), longer)
      && After(Move, Init(2, 1), longer) == Next(After(Move, Init(2, 1), run), t, a)
  {
    OneMore(Move, Init(2, 1), run, t, a);
    longer := run + [Event(t, a)];
  }

  /** Thread 0 is about to store h, with nobody in its way. */
  lemma AboutToStore(run: seq<Event<Action>>, h: Handle) returns (longer: seq<Event<Action>>)
    requires Legal(Move, Init(2, 1), run) && h != NULL
    requires var s := After(Move, Init(2, 1), run);
      |s.threads| == 2 && |s.cells| == 1 && h !in s.counts && s.threads[0].pc == Idle && s.threads[1].pc == Idle
        && s.cells[0].word.Free()
    ensures Legal(Move, Init(2, 1), longer)
    ensures var s, n := After(Move, Init(2, 1), run), After(Move, Init(2, 1), longer);
      && |n.threads| == 2 && |n.cells| == 1 && n.threads[1] == s.threads[1] && n.counts == s.counts[h := 1]
      && n.threads[0].pc == Storing(ExchangeOp(h), 0, s.cells[0].word.ptr)
      && n.threads[0].held == s.threads[0].held + multiset{h}
      && n.cells[0].word == Word(s.cells[0].word.ptr, true, false)
  {
    hide Legal, After, Init;
    longer := AboutToLock(run, h);
    longer := Step(longer, 0, Go(false));
    longer := Step(longer, 0, Go(false));
  }

  lemma AboutToLock(run: seq<Event<Action>>, h: Handle) returns (longer: seq<Event<Action>>)
    requires Legal(Move, Init(2, 1), run) && h != NULL
    requires var s := After(Move, Init(2, 1), run);
      |s.threads| == 2 && |s.cells| == 1 && h !in s.counts && s.threads[0].pc == Idle && s.threads[1].pc == Idle
        && s.cells[0].word.Free()
    ensures Legal(Move, Init(2, 1), longer)
    ensures var s, n := After(Move, Init(2, 1), run), After(Move, Init(2, 1), longer);
      && |n.threads| == 2 && n.cells == s.cells && n.threads[1] == s.threads[1] && n.counts == s.counts[h := 1]
      && n.threads[0].pc == Try(ExchangeOp(h), 0, s.cells[0].word)
      && n.threads[0].held == s.threads[0].held + multiset{h}
  {
    hide Legal, After, Init;
    longer := Step(run, 0, New(h));
    longer := Step(longer, 0, Call(ExchangeOp(h), 0));
    longer := Step(longer, 0, Go(false));
  }

  lemma AtTheStart()
    ensures Legal(Move, Init(2, 1), [])
    ensures var s := After(Move, Init(2, 1), []);
      && |s.threads| == 2 && |s.cells| == 1 && s.threads[0].pc == Idle && s.threads[1].pc == Idle
      && s.cells[0].word == Word(NULL, false, false) && s.counts == map[]
  {
    EmptyRun(Move, Init(2, 1));
  }

  lemma Exchanged(s: State, h: Handle, before: Handle)
    requires |s.threads| == 2 && |s.cells| == 1 && s.cells[0].word == Word(before, true, false)
    ensures var n := StoreAndUnlock(s, 0, ExchangeOp(h), 0, before);
      && |n.threads| == 2 && |n.cells| == 1 && n.threads[0].pc == Drop([]) && n.threads[1] == s.threads[1]
      && n.cells[0].word == Word(h, false, false) && n.counts == s.counts
  {
    hide Ref;
  }

  /** Thread 0 has stored handle 4. */
  lemma FourIsStored() returns (run: seq<Event<Action>>)
    ensures Legal(Move, Init(2, 1), run)
    ensures var s := After(Move, Init(2, 1), run);
      && |s.threads| == 2 && |s.cells| == 1 && s.threads[0].pc == Idle && s.threads[1].pc == Idle
      && s.cells[0].word == Word(4, false, false) && s.counts == map[4 := 1]
  {
    hide After, Legal, Init, StoreAndUnlock;
    AtTheStart();
    run := AboutToStore([], 4);
    Exchanged(After(Move, Init(2, 1), run), 4, NULL);
    run := Step(run, 0, Go(false));
    run := Step(run, 0, Go(false));
  }

  /** A run to the point where a set() without the lock does its damage. */
  lemma MisuseIsReached() returns (run: seq<Event<Action>>)
    ensures Legal(Move, Init(2, 1), run)
    ensures var s := After(Move, Init(2, 1), run);
      && |s.threads| == 2 && |s.cells| == 1
      && s.threads[0].pc == Storing(ExchangeOp(8), 0, 4) && s.cells[0].word.ptr == 4
      && s.threads[0].held[8] > 0 && s.threads[1].pc == Idle && s.threads[1].held[12] > 0
      && !Counted(StoreAndUnlock(StraySet(s, 1, 0, 12), 0, ExchangeOp(8), 0, 4))
  {
    hide After, Legal, Init, Counted, Guarded, Served, DeletedOnce, Accounted, Balanced, Has, StoreAndUnlock, StraySet;
    run := FourIsStored();
    run := AboutToStore(run, 8);
    run := Step(run, 1, New(12));
    SafeAlways(2, 1, run);
    SetNeedsTheLock(After(Move, Init(2, 1), run), 0, 1, 0, ExchangeOp(8), 4, 12);
  }
}

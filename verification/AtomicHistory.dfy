/**
 Every operation on a register takes effect exactly once, and its caller is told what it found there.
 */
module AtomicHistory {
  import opened AtomicSteps

  /** Inside an operation on a register that has not taken effect yet. */
  predicate InCall(pc: Pc) {
    match pc
    case Seek(op, _) => op != LockOp
    case Try(op, _, _) => op != LockOp
    case Wait(op, _, _) => op != LockOp
    case Blocked(op, _, _) => op != LockOp
    case Locked(_, _, _) => true
    case Storing(_, _, _) => true
    case Setting(_, _, _) => true
    case _ => false
  }

  predicate AccountedThread(th: Thread) { th.begun == |th.answers| + if InCall(th.pc) then 1 else 0 }

  /** Each thread has been told one answer for each operation it has called, but for the one it is in. */
  ghost predicate Accounted(s: State) {
    forall i :: 0 <= i < |s.threads| ==> AccountedThread(s.threads[i])
  }

  lemma AccountedStep(s: State, n: State, t: nat)
    requires Accounted(s) && t < |s.threads| == |n.threads| && n.threads == s.threads[t := n.threads[t]]
    requires AccountedThread(n.threads[t])
    ensures Accounted(n)
  {
    hide AccountedThread;
  }

  lemma AccountedKept(s: State, t: nat, a: Action)
    requires Accounted(s) && Guarded(s) && Placed(s) && Enabled(s, t, a)
    ensures Accounted(Next(s, t, a))
  {
    hide Accounted, Guarded, Placed, Proceed, Moved;
    ThreadHere(s, t);
    if a.Go? {
      AccountedBySteps(s, t, a.spurious);
    } else if a.Give? {
      AccountedByGive(s, t, a.h, a.to);
    } else {
      AccountedStep(s, Next(s, t, a), t);
    }
  }

  lemma AccountedByGive(s: State, t: nat, h: Handle, to: nat)
    requires Accounted(s) && t < |s.threads| && to < |s.threads| && t != to
    ensures Accounted(Moved(s, t, h, to))
  {
    hide Moved, InCall;
    MovedOnly(s, t, h, to);
    var n := Moved(s, t, h, to);
    forall i | 0 <= i < |n.threads| ensures AccountedThread(n.threads[i]) { assert AccountedThread(s.threads[i]); }
  }

  lemma ThreadHere(s: State, t: nat)
    requires Accounted(s) && t < |s.threads|
    ensures AccountedThread(s.threads[t])
  {
  }

  lemma AccountedBySteps(s: State, t: nat, spurious: bool)
    requires Accounted(s) && Guarded(s) && Placed(s) && Enabled(s, t, Go(spurious))
    ensures Accounted(Proceed(s, t, spurious))
  {
    ThreadHere(s, t);
    SoundHere(s, t);
    hide Accounted, AccountedThread, Guarded, Placed, TryLock, Borrow, StoreAndUnlock, Release, Set, Unlock, Ref;
    match s.threads[t].pc {
      case Try(op, c, v) => AccountedByTry(s, t, op, c, v, spurious);
      case Locked(op, c, h) => AccountedByBorrow(s, t, op, c, h);
      case Storing(op, c, h) => AccountedByStore(s, t, op, c, h);
      case Notify(c, drops) => AccountedByNotify(s, t, c, drops);
      case Drop(drops) => AccountedByDrop(s, t, drops);
      case Setting(c, d, v) => AccountedBySet(s, t, c, d, v, spurious);
      case Unlocking(c, h) => AccountedByUnlock(s, t, c, h);
      case TryLocking(_, _) => AccountedByMove(s, t, spurious);
      case Wait(_, _, _) => AccountedByMove(s, t, spurious);
      case Seek(_, _) => AccountedByMove(s, t, spurious);
      case Delete(_, _) => AccountedByMove(s, t, spurious);
      case Getting(_, _) => AccountedByMove(s, t, spurious);
      case _ =>
    }
  }

  lemma AccountedByMove(s: State, t: nat, spurious: bool)
    requires Accounted(s) && Placed(s) && Enabled(s, t, Go(spurious))
    requires var pc := s.threads[t].pc; pc.TryLocking? || pc.Wait? || pc.Seek? || pc.Delete? || pc.Getting?
    ensures Accounted(Proceed(s, t, spurious))
  {
    hide Accounted, AccountedThread, Placed, TryLock, Borrow, StoreAndUnlock, Release, Set, Unlock, Ref;
    AccountedMove(s, Proceed(s, t, spurious), t);
  }

  /** A step that neither calls nor answers. */
  lemma AccountedMove(s: State, n: State, t: nat)
    requires Accounted(s) && t < |s.threads| == |n.threads| && n.threads == s.threads[t := n.threads[t]]
    requires n.threads[t].begun == s.threads[t].begun && n.threads[t].answers == s.threads[t].answers
    requires InCall(n.threads[t].pc) == InCall(s.threads[t].pc)
    ensures Accounted(n)
  {
    hide Accounted, InCall;
    ThreadHere(s, t);
    AccountedStep(s, n, t);
  }

  lemma SoundHere(s: State, t: nat)
    requires Guarded(s) && t < |s.threads|
    ensures InRange(s, s.threads[t].pc)
    ensures s.threads[t].pc.Try? ==> !(s.threads[t].pc.v.locked && s.threads[t].pc.v.waiting)
  {
    hide CellOk;
    assert ThreadOk(s.cells, s.threads[t].pc, t);
  }

  lemma AccountedByTry(s: State, t: nat, op: Op, c: nat, v: Word, spurious: bool)
    requires Accounted(s) && t < |s.threads| && c < |s.cells| && s.threads[t].pc == Try(op, c, v)
      && !(v.locked && v.waiting)
    ensures Accounted(TryLock(s, t, op, c, v, spurious))
  {
    hide Accounted;
    ThreadHere(s, t);
    AccountedStep(s, TryLock(s, t, op, c, v, spurious), t);
  }

  lemma AccountedByBorrow(s: State, t: nat, op: Op, c: nat, h: Handle)
    requires Accounted(s) && t < |s.threads| && s.threads[t].pc == Locked(op, c, h)
    ensures Accounted(Borrow(s, t, op, c, h))
  {
    hide Accounted, Ref;
    ThreadHere(s, t);
    AccountedStep(s, Borrow(s, t, op, c, h), t);
  }

  lemma AccountedByStore(s: State, t: nat, op: Op, c: nat, h: Handle)
    requires Accounted(s) && t < |s.threads| && c < |s.cells| && s.threads[t].pc == Storing(op, c, h)
    ensures Accounted(StoreAndUnlock(s, t, op, c, h))
  {
    hide Accounted, Ref;
    ThreadHere(s, t);
    AccountedStep(s, StoreAndUnlock(s, t, op, c, h), t);
  }

  lemma AccountedBySet(s: State, t: nat, c: nat, d: Handle, v: Word, spurious: bool)
    requires Accounted(s) && t < |s.threads| && c < |s.cells| && s.threads[t].pc == Setting(c, d, v)
    ensures Accounted(Set(s, t, c, d, v, spurious))
  {
    hide Accounted, Ref;
    ThreadHere(s, t);
    AccountedStep(s, Set(s, t, c, d, v, spurious), t);
  }

  lemma AccountedByUnlock(s: State, t: nat, c: nat, h: Handle)
    requires Accounted(s) && t < |s.threads| && c < |s.cells| && s.threads[t].pc == Unlocking(c, h)
    ensures Accounted(Unlock(s, t, c, h))
  {
    hide Accounted;
    ThreadHere(s, t);
    AccountedStep(s, Unlock(s, t, c, h), t);
  }

  lemma AccountedByDrop(s: State, t: nat, drops: seq<Handle>)
    requires Accounted(s) && Placed(s) && t < |s.threads| && s.threads[t].pc == Drop(drops)
    ensures Accounted(Proceed(s, t, false)) && Accounted(Proceed(s, t, true))
  {
    hide Accounted, Placed;
    ThreadHere(s, t);
    AccountedStep(s, Proceed(s, t, false), t);
  }

  lemma AccountedByNotify(s: State, t: nat, c: nat, drops: seq<Handle>)
    requires Accounted(s) && t < |s.threads| && s.threads[t].pc == Notify(c, drops)
    ensures Accounted(At(s.(threads := Woken(s.threads, c)), t, Drop(drops)))
  {
    var n := At(s.(threads := Woken(s.threads, c)), t, Drop(drops));
    forall i | 0 <= i < |n.threads| ensures AccountedThread(n.threads[i]) {
      assert AccountedThread(s.threads[i]);
    }
  }

  // ---- answers and logs ----

  /** How often an entry is in the logs of all cells, and among the answers of all threads. */
  function Logged(cells: seq<Cell>, e: Entry): nat {
    if cells == [] then 0 else Logged(cells[..|cells| - 1], e) + multiset(cells[|cells| - 1].log)[e]
  }

  function Answered(threads: seq<Thread>, e: Entry): nat {
    if threads == [] then 0 else Answered(threads[..|threads| - 1], e) + multiset(threads[|threads| - 1].answers)[e]
  }

  ghost predicate Balanced(s: State) { forall e :: Logged(s.cells, e) == Answered(s.threads, e) }

  lemma {:induction false} LoggedUpdate(cells: seq<Cell>, c: nat, cell: Cell, e: Entry)
    requires c < |cells|
    ensures Logged(cells[c := cell], e) + multiset(cells[c].log)[e] == Logged(cells, e) + multiset(cell.log)[e]
  {
    var n, after := |cells| - 1, cells[c := cell];
    if c == n {
      assert after[..n] == cells[..n];
    } else {
      assert after[..n] == cells[..n][c := cell];
      LoggedUpdate(cells[..n], c, cell, e);
    }
  }

  lemma {:induction false} AnsweredUpdate(threads: seq<Thread>, t: nat, th: Thread, e: Entry)
    requires t < |threads|
    ensures Answered(threads[t := th], e) + multiset(threads[t].answers)[e]
      == Answered(threads, e) + multiset(th.answers)[e]
  {
    var n, after := |threads| - 1, threads[t := th];
    if t == n {
      assert after[..n] == threads[..n];
    } else {
      assert after[..n] == threads[..n][t := th];
      AnsweredUpdate(threads[..n], t, th, e);
    }
  }

  lemma {:induction false} LoggedSame(a: seq<Cell>, b: seq<Cell>, e: Entry)
    requires |a| == |b| && forall c :: 0 <= c < |a| ==> a[c].log == b[c].log
    ensures Logged(a, e) == Logged(b, e)
  {
    if a != [] { LoggedSame(a[..|a| - 1], b[..|b| - 1], e); }
  }

  lemma {:induction false} AnsweredSame(a: seq<Thread>, b: seq<Thread>, e: Entry)
    requires |a| == |b| && forall i :: 0 <= i < |a| ==> a[i].answers == b[i].answers
    ensures Answered(a, e) == Answered(b, e)
  {
    if a != [] { AnsweredSame(a[..|a| - 1], b[..|b| - 1], e); }
  }

  /** No operation takes effect. */
  ghost predicate Silent(s: State, n: State) {
    && |n.cells| == |s.cells| && |n.threads| == |s.threads|
    && (forall c :: 0 <= c < |s.cells| ==> n.cells[c].log == s.cells[c].log)
    && (forall i :: 0 <= i < |s.threads| ==> n.threads[i].answers == s.threads[i].answers)
  }

  /** One operation of thread t takes effect on cell c: entry e is logged there and is what t is told. */
  ghost predicate Effect(s: State, n: State, t: nat, c: nat, e: Entry) {
    && t < |s.threads| == |n.threads| && c < |s.cells| == |n.cells|
    && n.cells == s.cells[c := n.cells[c]] && n.cells[c].log == s.cells[c].log + [e]
    && n.threads == s.threads[t := n.threads[t]] && n.threads[t].answers == s.threads[t].answers + [e]
  }

  /** The cell and the entry of the step, for the steps in which an operation takes effect. */
  predicate TakesEffect(s: State, t: nat, a: Action)
    requires Placed(s) && Enabled(s, t, a)
  {
    var pc := s.threads[t].pc;
    a == CallGet || (a.Go? && (pc.Storing? || (pc.Setting? && !a.spurious && s.cells[pc.c].word == pc.v)))
  }

  function EntryOf(pc: Pc, s: State): Entry
    requires InRange(s, pc) && (pc.Holding? || pc.Storing? || pc.Setting?)
  {
    match pc
    case Holding(c) => Entry(LoadOp, s.cells[c].word.ptr)
    case Storing(op, _, h) => Entry(op, h)
    case Setting(_, d, v) => Entry(ExchangeOp(d), v.ptr)
  }

  /** Every step is silent or lets exactly one operation take effect; which, the program counter says. */
  lemma StepEffect(s: State, t: nat, a: Action)
    requires Placed(s) && Enabled(s, t, a)
    ensures var n, pc := Next(s, t, a), s.threads[t].pc;
      if TakesEffect(s, t, a) then InRange(s, pc) && Effect(s, n, t, pc.c, EntryOf(pc, s)) else Silent(s, n)
  {
    hide Ref, Given;
    RangeHere(s, t);
    hide Placed, Moved;
    if a.Go? {
      StepSilent(s, t, a.spurious);
    } else if a.Give? {
      MovedOnly(s, t, a.h, a.to);
    }
  }

  lemma RangeHere(s: State, t: nat)
    requires Placed(s) && t < |s.threads|
    ensures InRange(s, s.threads[t].pc)
  {
  }

  lemma StepSilent(s: State, t: nat, spurious: bool)
    requires Placed(s) && Enabled(s, t, Go(spurious))
    ensures var n, pc := Proceed(s, t, spurious), s.threads[t].pc;
      if TakesEffect(s, t, Go(spurious)) then InRange(s, pc) && Effect(s, n, t, pc.c, EntryOf(pc, s)) else Silent(s, n)
  {
    RangeHere(s, t);
    hide Ref, Given, Release, TryLock, StoreAndUnlock, Set, Unlock, Borrow, Placed, Silent, Effect;
    match s.threads[t].pc {
      case Try(op, c, v) => TrySilent(s, t, op, c, v, spurious);
      case Drop(drops) =>
        if drops == [] {
          SilentStep(s, Proceed(s, t, spurious), t);
        } else {
          ReleaseSilent(s, t, drops[0], drops[1..]);
        }
      case Locked(op, c, h) => BorrowSilent(s, t, op, c, h);
      case Storing(op, c, h) => StoreEffect(s, t, op, c, h);
      case Setting(c, d, v) => SetEffect(s, t, c, d, v, spurious);
      case Unlocking(c, h) => UnlockSilent(s, t, c, h);
      case Notify(c, drops) => NotifySilent(s, t, c, drops);
      case TryLocking(c, v) => LockSilent(s, t, c, v, spurious);
      case Seek(_, _) => SilentStep(s, Proceed(s, t, spurious), t);
      case Wait(_, _, _) => SilentStep(s, Proceed(s, t, spurious), t);
      case Delete(_, _) => SilentStep(s, Proceed(s, t, spurious), t);
      case Getting(_, _) => SilentStep(s, Proceed(s, t, spurious), t);
      case _ =>
    }
  }

  lemma SilentStep(s: State, n: State, t: nat)
    requires t < |s.threads| == |n.threads| && n.cells == s.cells && n.threads == s.threads[t := n.threads[t]]
    requires n.threads[t].answers == s.threads[t].answers
    ensures Silent(s, n)
  {
  }

  lemma BorrowSilent(s: State, t: nat, op: Op, c: nat, h: Handle)
    requires t < |s.threads|
    ensures Silent(s, Borrow(s, t, op, c, h))
  {
    hide Ref;
  }

  lemma StoreEffect(s: State, t: nat, op: Op, c: nat, h: Handle)
    requires t < |s.threads| && c < |s.cells|
    ensures Effect(s, StoreAndUnlock(s, t, op, c, h), t, c, Entry(op, h))
  {
    hide Ref, NewValue, Dropped, Leave;
  }

  lemma SetEffect(s: State, t: nat, c: nat, d: Handle, v: Word, spurious: bool)
    requires t < |s.threads| && c < |s.cells|
    ensures var n := Set(s, t, c, d, v, spurious);
      if !spurious && s.cells[c].word == v then Effect(s, n, t, c, Entry(ExchangeOp(d), v.ptr)) else Silent(s, n)
  {
    hide Ref;
  }

  lemma UnlockSilent(s: State, t: nat, c: nat, h: Handle)
    requires t < |s.threads| && c < |s.cells|
    ensures Silent(s, Unlock(s, t, c, h))
  {
    hide Leave;
  }

  lemma NotifySilent(s: State, t: nat, c: nat, drops: seq<Handle>)
    requires t < |s.threads|
    ensures Silent(s, At(s.(threads := Woken(s.threads, c)), t, Drop(drops)))
  {
  }

  lemma LockSilent(s: State, t: nat, c: nat, v: Word, spurious: bool)
    requires Placed(s) && t < |s.threads| && s.threads[t].pc == TryLocking(c, v) && c < |s.cells|
    ensures Silent(s, Proceed(s, t, spurious))
  {
    hide Placed;
  }

  lemma TrySilent(s: State, t: nat, op: Op, c: nat, v: Word, spurious: bool)
    requires t < |s.threads| && c < |s.cells|
    ensures Silent(s, TryLock(s, t, op, c, v, spurious))
  {
  }

  lemma ReleaseSilent(s: State, t: nat, h: Handle, drops: seq<Handle>)
    requires t < |s.threads|
    ensures Silent(s, Release(s, t, h, drops))
  {
  }

  lemma BalancedKept(s: State, t: nat, a: Action)
    requires Balanced(s) && Placed(s) && Enabled(s, t, a)
    ensures Balanced(Next(s, t, a))
  {
    hide Next, EntryOf;
    StepEffect(s, t, a);
    var n, pc := Next(s, t, a), s.threads[t].pc;
    var takes := TakesEffect(s, t, a);
    assert takes ==> pc.Holding? || pc.Storing? || pc.Setting?;
    hide Placed, Enabled, TakesEffect;
    forall e ensures Logged(n.cells, e) == Answered(n.threads, e) {
      assert Logged(s.cells, e) == Answered(s.threads, e);
      if takes {
        BalancedByEffect(s, n, t, pc.c, EntryOf(pc, s), e);
      } else {
        LoggedSame(n.cells, s.cells, e);
        AnsweredSame(n.threads, s.threads, e);
      }
    }
  }

  lemma BalancedByEffect(s: State, n: State, t: nat, c: nat, x: Entry, e: Entry)
    requires Effect(s, n, t, c, x) && Logged(s.cells, e) == Answered(s.threads, e)
    ensures Logged(n.cells, e) == Answered(n.threads, e)
  {
    LoggedUpdate(s.cells, c, n.cells[c], e);
    AnsweredUpdate(s.threads, t, n.threads[t], e);
    assert multiset(s.cells[c].log + [x]) == multiset(s.cells[c].log) + multiset{x};
    assert multiset(s.threads[t].answers + [x]) == multiset(s.threads[t].answers) + multiset{x};
  }
}

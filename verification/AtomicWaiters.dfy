/**
 No wakeup of a thread that waits for a cell is lost.
 */
module AtomicWaiters {
  import opened AtomicSteps

  predicate Notifies(pc: Pc, c: nat) { pc.Notify? && pc.c == c }

  /** Somebody is about to wake all who sleep on c. */
  ghost predicate WakeupDue(threads: seq<Thread>, c: nat) {
    exists u :: 0 <= u < |threads| && Notifies(threads[u].pc, c)
  }

  /** While a thread sleeps on a cell, the waiting bit is set, or the wakeup it asks for is on its way. */
  ghost predicate Served(s: State) {
    forall i, c :: 0 <= i < |s.threads| && 0 <= c < |s.cells| && Asleep(s.threads[i].pc, c) ==>
      s.cells[c].word.waiting || WakeupDue(s.threads, c)
  }

  /** A step that wakes nobody: the bit of a cell is cleared only with a wakeup to follow. */
  lemma ServedStep(s: State, n: State, t: nat, c: nat)
    requires Served(s) && t < |s.threads| == |n.threads| && |s.cells| == |n.cells|
    requires n.threads == s.threads[t := n.threads[t]] && !s.threads[t].pc.Notify?
    requires n.cells == s.cells || (c < |s.cells| && n.cells == s.cells[c := n.cells[c]])
    requires c < |s.cells| && s.cells[c].word.waiting ==> n.cells[c].word.waiting || Notifies(n.threads[t].pc, c)
    requires forall d :: 0 <= d < |s.cells| && Asleep(n.threads[t].pc, d) ==> n.cells[d].word.waiting
    ensures Served(n)
  {
    forall i, d | 0 <= i < |n.threads| && 0 <= d < |n.cells| && Asleep(n.threads[i].pc, d)
      ensures n.cells[d].word.waiting || WakeupDue(n.threads, d)
    {
      if i != t {
        assert Asleep(s.threads[i].pc, d);
        if WakeupDue(s.threads, d) {
          var u :| 0 <= u < |s.threads| && Notifies(s.threads[u].pc, d);
          assert n.threads[u] == s.threads[u];
        } else if d == c && !n.cells[c].word.waiting {
          assert Notifies(n.threads[t].pc, c);
        }
      }
    }
  }

  lemma ServedKept(s: State, t: nat, a: Action)
    requires Served(s) && Guarded(s) && Placed(s) && Enabled(s, t, a)
    ensures Served(Next(s, t, a))
  {
    hide Served, Guarded, Placed, CellOk, Moved;
    Here(s, t);
    match a {
      case Give(h, to) => ServedByGive(s, t, h, to);
      case CallGet => ServedStep(s, Next(s, t, a), t, s.threads[t].pc.c);
      case Go(spurious) => ServedBySteps(s, t, spurious);
      case _ => ServedStep(s, Next(s, t, a), t, |s.cells|);
    }
  }

  lemma ServedByGive(s: State, t: nat, h: Handle, to: nat)
    requires Served(s) && t < |s.threads| && to < |s.threads| && t != to
    ensures Served(Moved(s, t, h, to))
  {
    hide Moved;
    MovedOnly(s, t, h, to);
    var n := Moved(s, t, h, to);
    forall i, c | 0 <= i < |n.threads| && 0 <= c < |n.cells| && Asleep(n.threads[i].pc, c)
      ensures n.cells[c].word.waiting || WakeupDue(n.threads, c)
    {
      assert Asleep(s.threads[i].pc, c);
      if WakeupDue(s.threads, c) {
        var u :| 0 <= u < |s.threads| && Notifies(s.threads[u].pc, c);
        assert Notifies(n.threads[u].pc, c);
      }
    }
  }

  lemma ServedBySteps(s: State, t: nat, spurious: bool)
    requires Served(s) && Guarded(s) && Placed(s) && Enabled(s, t, Go(spurious))
    ensures Served(Proceed(s, t, spurious))
  {
    hide Served, Guarded, Placed, CellOk, TryLock, Borrow, StoreAndUnlock, Release, Set, Unlock;
    Here(s, t);
    match s.threads[t].pc {
      case Try(op, c, v) => ServedByTry(s, t, op, c, v, spurious);
      case Locked(op, c, h) => ServedByBorrow(s, t, op, c, h);
      case Storing(op, c, h) => ServedByStore(s, t, op, c, h);
      case Notify(c, drops) => ServedByNotify(s, t, c, drops);
      case Drop(drops) => ServedByDrop(s, t, drops);
      case Setting(c, d, v) => ServedBySet(s, t, c, d, v, spurious);
      case Unlocking(c, h) => ServedByUnlock(s, t, c, h);
      case TryLocking(c, v) => ServedStep(s, Proceed(s, t, spurious), t, c);
      case Wait(_, c, _) => ServedStep(s, Proceed(s, t, spurious), t, c);
      case Seek(_, c) => ServedStep(s, Proceed(s, t, spurious), t, c);
      case Delete(_, _) => ServedStep(s, Proceed(s, t, spurious), t, |s.cells|);
      case Getting(_, _) => ServedStep(s, Proceed(s, t, spurious), t, |s.cells|);
      case _ =>
    }
  }

  lemma ServedByTry(s: State, t: nat, op: Op, c: nat, v: Word, spurious: bool)
    requires Served(s) && t < |s.threads| && s.threads[t].pc == Try(op, c, v) && c < |s.cells|
    ensures Served(TryLock(s, t, op, c, v, spurious))
  {
    hide Served;
    ServedStep(s, TryLock(s, t, op, c, v, spurious), t, c);
  }

  lemma ServedByBorrow(s: State, t: nat, op: Op, c: nat, h: Handle)
    requires Served(s) && t < |s.threads| && s.threads[t].pc == Locked(op, c, h)
    ensures Served(Borrow(s, t, op, c, h))
  {
    hide Served;
    ServedStep(s, Borrow(s, t, op, c, h), t, |s.cells|);
  }

  lemma ServedByStore(s: State, t: nat, op: Op, c: nat, h: Handle)
    requires Served(s) && t < |s.threads| && s.threads[t].pc == Storing(op, c, h) && c < |s.cells|
    ensures Served(StoreAndUnlock(s, t, op, c, h))
  {
    hide Served, Ref;
    ServedStep(s, StoreAndUnlock(s, t, op, c, h), t, c);
  }

  lemma ServedByUnlock(s: State, t: nat, c: nat, h: Handle)
    requires Served(s) && t < |s.threads| && s.threads[t].pc == Unlocking(c, h) && c < |s.cells|
    ensures Served(Unlock(s, t, c, h))
  {
    hide Served;
    ServedStep(s, Unlock(s, t, c, h), t, c);
  }

  lemma ServedBySet(s: State, t: nat, c: nat, d: Handle, v: Word, spurious: bool)
    requires Served(s) && t < |s.threads| && s.threads[t].pc == Setting(c, d, v) && c < |s.cells|
    ensures Served(Set(s, t, c, d, v, spurious))
  {
    hide Served, Ref;
    ServedStep(s, Set(s, t, c, d, v, spurious), t, c);
  }

  lemma ServedByDrop(s: State, t: nat, drops: seq<Handle>)
    requires Served(s) && Placed(s) && t < |s.threads| && s.threads[t].pc == Drop(drops)
    ensures Served(Proceed(s, t, false)) && Served(Proceed(s, t, true))
  {
    hide Served, Placed;
    ServedStep(s, Proceed(s, t, false), t, |s.cells|);
  }

  lemma ServedByNotify(s: State, t: nat, c: nat, drops: seq<Handle>)
    requires Served(s) && t < |s.threads| && s.threads[t].pc == Notify(c, drops)
    ensures Served(At(s.(threads := Woken(s.threads, c)), t, Drop(drops)))
  {
    var n := At(s.(threads := Woken(s.threads, c)), t, Drop(drops));
    forall i, d | 0 <= i < |n.threads| && 0 <= d < |n.cells| && Asleep(n.threads[i].pc, d)
      ensures n.cells[d].word.waiting || WakeupDue(n.threads, d)
    {
      assert d != c && Asleep(s.threads[i].pc, d);
      if WakeupDue(s.threads, d) {
        var u :| 0 <= u < |s.threads| && Notifies(s.threads[u].pc, d);
        assert Notifies(n.threads[u].pc, d);
      }
    }
  }
}

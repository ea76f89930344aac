/**
 A holder is deleted exactly once, by the thread that gave up the last reference.
 */
module AtomicDeletion {
  import opened AtomicSteps
  import opened AtomicCounts

  predicate Deletes(pc: Pc, h: Handle) { pc.Delete? && pc.h == h }

  /**
   The count of a holder is 0 exactly when it has been deleted, once, or when exactly one thread is
   about to delete it.
   */
  ghost predicate DeletedOnce(s: State) {
    && (forall i, h: Handle :: 0 <= i < |s.threads| && Deletes(s.threads[i].pc, h) ==>
         h in s.deleters && s.deleters[h] == i)
    && (forall h :: h in s.deleters ==> s.deleters[h] < |s.threads| && Deletes(s.threads[s.deleters[h]].pc, h))
    && (forall h: Handle :: h in s.counts && s.counts[h] == 0 <==> h in s.deleters || s.deleted[h] > 0)
    && (forall h: Handle :: s.deleted[h] <= 1 && (h in s.deleters ==> s.deleted[h] == 0))
  }

  /** Steps that take no count to 0 or from 0, and delete nothing. */
  lemma DeletedSame(s: State, n: State, t: nat)
    requires DeletedOnce(s) && t < |s.threads| == |n.threads| && n.threads == s.threads[t := n.threads[t]]
    requires !s.threads[t].pc.Delete? && !n.threads[t].pc.Delete? && n.deleters == s.deleters && n.deleted == s.deleted
    requires forall h: Handle :: (h in n.counts && n.counts[h] == 0) == (h in s.counts && s.counts[h] == 0)
    ensures DeletedOnce(n)
  {
  }

  /** A holder with an owner has not been deleted, and nobody is about to. */
  lemma OwnedIsAlive(s: State, h: Handle)
    requires Counted(s) && DeletedOnce(s) && h != NULL && Owners(s, h) > 0
    ensures h in s.counts && s.counts[h] > 0 && h !in s.deleters && s.deleted[h] == 0
  {
    assert Count(s, h) == Owners(s, h);
  }

  lemma HeldIsOwned(s: State, t: nat, h: Handle)
    requires t < |s.threads|
    ensures s.threads[t].held[h] <= Owners(s, h)
  {
    HeldByUpdate(s.threads, t, s.threads[t], h);
  }

  lemma PointedIsOwned(s: State, c: nat)
    requires c < |s.cells|
    ensures Owners(s, s.cells[c].word.ptr) > 0
  {
    PointedByUpdate(s.cells, c, s.cells[c], s.cells[c].word.ptr);
  }

  /** A new reference is taken only by someone who has one or has locked a cell that has one. */
  lemma DeletedAdd(s: State, n: State, t: nat, h: Handle)
    requires DeletedOnce(s) && t < |s.threads| == |n.threads| && n.threads == s.threads[t := n.threads[t]]
    requires !s.threads[t].pc.Delete? && !n.threads[t].pc.Delete? && n.deleters == s.deleters && n.deleted == s.deleted
    requires n.counts == Add(s, h, 1) && (h != NULL ==> h in s.counts && s.counts[h] > 0)
    ensures DeletedOnce(n)
  {
    hide DeletedOnce;
    DeletedSame(s, n, t);
  }

  lemma DeletedKept(s: State, t: nat, a: Action)
    requires DeletedOnce(s) && Counted(s) && Provided(s) && Guarded(s) && Placed(s) && Enabled(s, t, a)
    ensures DeletedOnce(Next(s, t, a))
  {
    hide DeletedOnce, Counted, Provided, Guarded, Placed, CellOk, Owners, Moved;
    var n := Next(s, t, a);
    match a {
      case Give(h, to) => DeletedByGive(s, t, h, to);
      case Go(spurious) => DeletedBySteps(s, t, spurious);
      case New(h) => DeletedByNew(s, n, t, h);
      case Copy(h) => DeletedByCopy(s, t, h);
      case _ => DeletedSame(s, n, t);
    }
  }

  lemma DeletedByCopy(s: State, t: nat, h: Handle)
    requires DeletedOnce(s) && Counted(s) && Placed(s) && Enabled(s, t, Copy(h))
    ensures DeletedOnce(Next(s, t, Copy(h)))
  {
    hide DeletedOnce, Counted, Placed, Owners;
    HeldIsOwned(s, t, h);
    if h != NULL { OwnedIsAlive(s, h); }
    DeletedAdd(s, Next(s, t, Copy(h)), t, h);
  }

  lemma DeletedByGive(s: State, t: nat, h: Handle, to: nat)
    requires DeletedOnce(s) && t < |s.threads| && to < |s.threads| && t != to
    ensures DeletedOnce(Moved(s, t, h, to))
  {
    hide Moved;
    MovedOnly(s, t, h, to);
  }

  lemma DeletedByNew(s: State, n: State, t: nat, h: Handle)
    requires DeletedOnce(s) && t < |s.threads| == |n.threads| && n.threads == s.threads[t := n.threads[t]]
    requires !s.threads[t].pc.Delete? && !n.threads[t].pc.Delete? && n.deleters == s.deleters && n.deleted == s.deleted
    requires h !in s.counts && n.counts == s.counts[h := 1]
    ensures DeletedOnce(n)
  {
    hide DeletedOnce;
    DeletedSame(s, n, t);
  }

  lemma DeletedBySteps(s: State, t: nat, spurious: bool)
    requires DeletedOnce(s) && Counted(s) && Provided(s) && Guarded(s) && Placed(s) && Enabled(s, t, Go(spurious))
    ensures DeletedOnce(Proceed(s, t, spurious))
  {
    hide DeletedOnce, Counted, Provided, Guarded, Placed, CellOk, Owners, TryLock, Borrow, StoreAndUnlock, Release, Set,
      Unlock;
    Here(s, t);
    var n := Proceed(s, t, spurious);
    match s.threads[t].pc {
      case Try(op, c, v) => DeletedByTry(s, t, op, c, v, spurious);
      case Locked(op, c, h) => DeletedByBorrow(s, t, op, c, h);
      case Storing(op, c, h) => DeletedByStore(s, t, op, c, h);
      case Notify(c, drops) => DeletedByNotify(s, t, c, drops);
      case Drop(drops) => if drops == [] { DeletedSame(s, n, t); } else { DeletedByRelease(s, t, drops); }
      case Delete(h, drops) => DeletedByDelete(s, t, h, drops);
      case Setting(c, d, v) => DeletedBySet(s, t, c, d, v, spurious);
      case Unlocking(c, h) => DeletedByUnlock(s, t, c, h);
      case Getting(c, h) =>
        PointedIsOwned(s, c);
        if h != NULL { OwnedIsAlive(s, h); }
        DeletedAdd(s, n, t, h);
      case Seek(_, _) => DeletedSame(s, n, t);
      case Wait(_, _, _) => DeletedSame(s, n, t);
      case TryLocking(_, _) => DeletedSame(s, n, t);
      case _ =>
    }
  }

  lemma DeletedByTry(s: State, t: nat, op: Op, c: nat, v: Word, spurious: bool)
    requires DeletedOnce(s) && t < |s.threads| && c < |s.cells| && s.threads[t].pc == Try(op, c, v)
    ensures DeletedOnce(TryLock(s, t, op, c, v, spurious))
  {
    hide DeletedOnce;
    DeletedSame(s, TryLock(s, t, op, c, v, spurious), t);
  }

  lemma DeletedByBorrow(s: State, t: nat, op: Op, c: nat, h: Handle)
    requires DeletedOnce(s) && Counted(s) && t < |s.threads| && s.threads[t].pc == Locked(op, c, h)
    requires c < |s.cells| && s.cells[c].word.ptr == h
    ensures DeletedOnce(Borrow(s, t, op, c, h))
  {
    hide DeletedOnce, Counted, Owners;
    var n := Borrow(s, t, op, c, h);
    if Replaces(op, h) {
      DeletedSame(s, n, t);
    } else {
      PointedIsOwned(s, c);
      if h != NULL { OwnedIsAlive(s, h); }
      DeletedAdd(s, n, t, h);
    }
  }

  lemma DeletedByStore(s: State, t: nat, op: Op, c: nat, h: Handle)
    requires DeletedOnce(s) && t < |s.threads| && c < |s.cells| && s.threads[t].pc == Storing(op, c, h)
    ensures DeletedOnce(StoreAndUnlock(s, t, op, c, h))
  {
    hide DeletedOnce, Ref;
    DeletedSame(s, StoreAndUnlock(s, t, op, c, h), t);
  }

  lemma DeletedBySet(s: State, t: nat, c: nat, d: Handle, v: Word, spurious: bool)
    requires DeletedOnce(s) && t < |s.threads| && c < |s.cells| && s.threads[t].pc == Setting(c, d, v)
    ensures DeletedOnce(Set(s, t, c, d, v, spurious))
  {
    hide DeletedOnce, Ref;
    DeletedSame(s, Set(s, t, c, d, v, spurious), t);
  }

  lemma DeletedByUnlock(s: State, t: nat, c: nat, h: Handle)
    requires DeletedOnce(s) && t < |s.threads| && c < |s.cells| && s.threads[t].pc == Unlocking(c, h)
    ensures DeletedOnce(Unlock(s, t, c, h))
  {
    hide DeletedOnce;
    DeletedSame(s, Unlock(s, t, c, h), t);
  }

  lemma DeletedByNotify(s: State, t: nat, c: nat, drops: seq<Handle>)
    requires DeletedOnce(s) && t < |s.threads| && s.threads[t].pc == Notify(c, drops)
    ensures DeletedOnce(At(s.(threads := Woken(s.threads, c)), t, Drop(drops)))
  {
    var n := At(s.(threads := Woken(s.threads, c)), t, Drop(drops));
    assert forall i, h: Handle :: 0 <= i < |s.threads| ==> Deletes(n.threads[i].pc, h) == Deletes(s.threads[i].pc, h);
  }

  /** Whoever takes the count to 0 deletes; nobody did before, because the count was 1. */
  lemma DeletedByRelease(s: State, t: nat, drops: seq<Handle>)
    requires DeletedOnce(s) && Counted(s) && Provided(s) && t < |s.threads| && drops != []
      && s.threads[t].pc == Drop(drops)
    ensures DeletedOnce(Release(s, t, drops[0], drops[1..]))
  {
    hide DeletedOnce, Counted, Owners, Provided, Has, Refs, Needs;
    var h, n := drops[0], Release(s, t, drops[0], drops[1..]);
    if h == NULL {
      DeletedSame(s, n, t);
    } else {
      Needed(s, t);
      NeedsDrop(drops);
      HasFirst(s.threads[t], drops);
      HeldIsOwned(s, t, h);
      OwnedIsAlive(s, h);
      if s.counts[h] == 1 { DeletionDue(s, n, t, h); } else { DeletedSame(s, n, t); }
    }
  }

  lemma DeletionDue(s: State, n: State, t: nat, h: Handle)
    requires DeletedOnce(s) && t < |s.threads| == |n.threads| && n.threads == s.threads[t := n.threads[t]]
    requires h in s.counts && s.counts[h] == 1 && n.counts == s.counts[h := 0] && h !in s.deleters && s.deleted[h] == 0
    requires !s.threads[t].pc.Delete? && Deletes(n.threads[t].pc, h) && n.deleters == s.deleters[h := t]
      && n.deleted == s.deleted
    ensures DeletedOnce(n)
  {
  }

  lemma DeletedByDelete(s: State, t: nat, h: Handle, drops: seq<Handle>)
    requires DeletedOnce(s) && Placed(s) && t < |s.threads| && s.threads[t].pc == Delete(h, drops)
    ensures DeletedOnce(Proceed(s, t, false)) && Proceed(s, t, true) == Proceed(s, t, false)
  {
    hide DeletedOnce, Placed;
    DeletedNow(s, Proceed(s, t, false), t, h);
  }

  lemma DeletedNow(s: State, n: State, t: nat, h: Handle)
    requires DeletedOnce(s) && t < |s.threads| == |n.threads| && n.threads == s.threads[t := n.threads[t]]
    requires Deletes(s.threads[t].pc, h) && !n.threads[t].pc.Delete? && n.counts == s.counts
    requires n.deleted == s.deleted + multiset{h} && n.deleters == s.deleters - {h}
    ensures DeletedOnce(n)
  {
    assert h in s.deleters && s.deleters[h] == t;
    forall k: Handle ensures n.deleted[k] == s.deleted[k] + (if k == h then 1 else 0) {}
    forall k: Handle ensures n.deleted[k] <= 1 && (k in n.deleters ==> n.deleted[k] == 0) {}
    forall k: Handle ensures k in n.counts && n.counts[k] == 0 <==> k in n.deleters || n.deleted[k] > 0 {
      assert k in s.counts && s.counts[k] == 0 <==> k in s.deleters || s.deleted[k] > 0;
    }
    forall k | k in n.deleters ensures n.deleters[k] < |n.threads| && Deletes(n.threads[n.deleters[k]].pc, k) {
      assert Deletes(s.threads[s.deleters[k]].pc, k);
    }
  }
}

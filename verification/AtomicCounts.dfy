/**
 The reference count of a holder is the number of objects and cells that own it, at every moment; so
 a holder is deleted once, and never while somebody has it.
 */
module AtomicCounts {
  import opened AtomicSteps

  /** How many objects of all threads own h. */
  function HeldBy(threads: seq<Thread>, h: Handle): nat {
    if threads == [] then 0 else HeldBy(threads[..|threads| - 1], h) + threads[|threads| - 1].held[h]
  }

  /** How many cells point to h. */
  function PointedBy(cells: seq<Cell>, h: Handle): nat {
    if cells == [] then 0 else PointedBy(cells[..|cells| - 1], h) + One(cells[|cells| - 1], h)
  }

  function One(cell: Cell, h: Handle): nat { if cell.word.ptr == h then 1 else 0 }

  lemma {:induction false} HeldByUpdate(threads: seq<Thread>, t: nat, th: Thread, h: Handle)
    requires t < |threads|
    ensures HeldBy(threads[t := th], h) == HeldBy(threads, h) - threads[t].held[h] + th.held[h]
    ensures threads[t].held[h] <= HeldBy(threads, h)
  {
    var n, after := |threads| - 1, threads[t := th];
    if t == n {
      assert after[..n] == threads[..n];
    } else {
      assert after[..n] == threads[..n][t := th];
      HeldByUpdate(threads[..n], t, th, h);
    }
  }

  lemma {:induction false} PointedByUpdate(cells: seq<Cell>, c: nat, cell: Cell, h: Handle)
    requires c < |cells|
    ensures PointedBy(cells[c := cell], h) == PointedBy(cells, h) - One(cells[c], h) + One(cell, h)
    ensures One(cells[c], h) <= PointedBy(cells, h)
  {
    var n, after := |cells| - 1, cells[c := cell];
    if c == n {
      assert after[..n] == cells[..n];
    } else {
      assert after[..n] == cells[..n][c := cell];
      PointedByUpdate(cells[..n], c, cell, h);
    }
  }

  lemma {:induction false} HeldBySame(a: seq<Thread>, b: seq<Thread>, h: Handle)
    requires |a| == |b| && forall i :: 0 <= i < |a| ==> a[i].held == b[i].held
    ensures HeldBy(a, h) == HeldBy(b, h)
  {
    if a != [] { HeldBySame(a[..|a| - 1], b[..|b| - 1], h); }
  }

  /** All who own h. */
  function Owners(s: State, h: Handle): nat { HeldBy(s.threads, h) + PointedBy(s.cells, h) }

  ghost predicate Counted(s: State) {
    forall h: Handle :: h != NULL ==> Count(s, h) == Owners(s, h)
  }

  /** What a thread must still have at some point of a call. */
  function Needs(pc: Pc): multiset<Handle> {
    match pc
    case Seek(op, _) => Given(op)
    case Try(op, _, _) => Given(op)
    case Wait(op, _, _) => Given(op)
    case Blocked(op, _, _) => Given(op)
    case Locked(op, _, _) => Given(op)
    case Storing(op, _, h) => if Replaces(op, h) then Given(op) else Given(op) + Ref(h)
    case Notify(_, drops) => Refs(drops)
    case Drop(drops) => Refs(drops)
    case Delete(_, drops) => Refs(drops)
    case Setting(_, d, _) => Ref(d)
    case _ => multiset{}
  }

  ghost predicate Has(th: Thread) {
    forall h: Handle :: Needs(th.pc)[h] <= th.held[h]
  }

  /** Every thread still has the objects its call is working with. */
  ghost predicate Provided(s: State) {
    forall i :: 0 <= i < |s.threads| ==> Has(s.threads[i])
  }

  /** A step of thread t that moves no pointer: what it adds to the objects, it adds to the count. */
  lemma CountedStep(s: State, n: State, t: nat, c: nat, h: Handle)
    requires t < |s.threads| == |n.threads| && n.threads == s.threads[t := n.threads[t]]
    requires n.cells == s.cells
      || (c < |s.cells| == |n.cells| && n.cells == s.cells[c := n.cells[c]]
           && n.cells[c].word.ptr == s.cells[c].word.ptr)
    requires Count(s, h) == Owners(s, h)
    requires Count(n, h) + s.threads[t].held[h] == Count(s, h) + n.threads[t].held[h]
    ensures Count(n, h) == Owners(n, h)
  {
    HeldByUpdate(s.threads, t, n.threads[t], h);
    if n.cells != s.cells { PointedByUpdate(s.cells, c, n.cells[c], h); }
  }

  /** A step that exchanges the pointer of a cell for an object of the thread. */
  lemma CountedExchange(s: State, n: State, t: nat, c: nat, h: Handle)
    requires t < |s.threads| == |n.threads| && n.threads == s.threads[t := n.threads[t]]
    requires c < |s.cells| == |n.cells| && n.cells == s.cells[c := n.cells[c]]
    requires Count(s, h) == Owners(s, h) && n.counts == s.counts
    requires n.threads[t].held[h] + One(n.cells[c], h) == s.threads[t].held[h] + One(s.cells[c], h)
    ensures Count(n, h) == Owners(n, h)
  {
    HeldByUpdate(s.threads, t, n.threads[t], h);
    PointedByUpdate(s.cells, c, n.cells[c], h);
  }

  /** Steps that neither make nor destroy an object. */
  lemma CountedQuiet(s: State, n: State, t: nat, c: nat)
    requires Counted(s) && t < |s.threads| == |n.threads| && n.threads == s.threads[t := n.threads[t]]
    requires n.cells == s.cells
      || (c < |s.cells| == |n.cells| && n.cells == s.cells[c := n.cells[c]]
           && n.cells[c].word.ptr == s.cells[c].word.ptr)
    requires n.counts == s.counts && n.threads[t].held == s.threads[t].held
    ensures Counted(n)
  {
    hide Owners;
    forall h: Handle | h != NULL ensures Count(n, h) == Owners(n, h) { CountedStep(s, n, t, c, h); }
  }

  /** Steps that make or destroy one object and count it. */
  lemma CountedChange(s: State, n: State, t: nat, h: Handle, made: bool)
    requires Counted(s) && t < |s.threads| == |n.threads| && n.threads == s.threads[t := n.threads[t]]
      && n.cells == s.cells
    requires n.counts == Add(s, h, if made then 1 else -1)
    requires if made then n.threads[t].held == s.threads[t].held + Ref(h)
      else s.threads[t].held[h] > 0 && n.threads[t].held == s.threads[t].held - Ref(h)
    ensures Counted(n)
  {
    hide Owners;
    forall k: Handle | k != NULL ensures Count(n, k) == Owners(n, k) { CountedStep(s, n, t, 0, k); }
  }

  lemma CountedKept(s: State, t: nat, a: Action)
    requires Counted(s) && Provided(s) && Guarded(s) && Placed(s) && Enabled(s, t, a)
    ensures Counted(Next(s, t, a))
  {
    hide Guarded, Placed, Provided, CellOk, Counted, Moved;
    Here(s, t);
    var n := Next(s, t, a);
    match a {
      case Give(h, to) => CountedByGive(s, t, h, to);
      case Go(spurious) => CountedBySteps(s, t, spurious);
      case CallGet => CountedQuiet(s, n, t, s.threads[t].pc.c);
      case New(h) => CountedChange(s, n, t, h, true);
      case Copy(h) => CountedByCopy(s, t, h);
      case _ => CountedQuiet(s, n, t, 0);
    }
  }

  lemma CountedByGive(s: State, t: nat, h: Handle, to: nat)
    requires Counted(s) && t < |s.threads| && to < |s.threads| && t != to && h in s.threads[t].held
    ensures Counted(Moved(s, t, h, to))
  {
    hide HeldBy, PointedBy;
    var n := Moved(s, t, h, to);
    var between := s.threads[t := n.threads[t]];
    forall k: Handle | k != NULL ensures Count(n, k) == Owners(n, k) {
      assert Count(s, k) == Owners(s, k);
      HeldByUpdate(s.threads, t, n.threads[t], k);
      HeldByUpdate(between, to, n.threads[to], k);
    }
  }

  lemma CountedByCopy(s: State, t: nat, h: Handle)
    requires Counted(s) && Placed(s) && Enabled(s, t, Copy(h))
    ensures Counted(Next(s, t, Copy(h)))
  {
    hide Placed, Owners;
    var n := Next(s, t, Copy(h));
    forall k: Handle | k != NULL ensures Count(n, k) == Owners(n, k) { CountedStep(s, n, t, 0, k); }
  }

  lemma CountedBySteps(s: State, t: nat, spurious: bool)
    requires Counted(s) && Provided(s) && Guarded(s) && Placed(s) && Enabled(s, t, Go(spurious))
    ensures Counted(Proceed(s, t, spurious))
  {
    Here(s, t);
    Needed(s, t);
    NeedsOf(s.threads[t]);
    hide Guarded, Placed, Provided, CellOk, Counted, TryLock, Borrow, StoreAndUnlock, Release, Set, Unlock, Has, Needs,
      Ref, Given, Refs, Owns, Replaces, NewValue;
    match s.threads[t].pc {
      case Try(op, c, v) => CountedByTry(s, t, op, c, v, spurious);
      case Locked(op, c, h) => CountedByBorrow(s, t, op, c, h);
      case Storing(op, c, h) => CountedByStore(s, t, op, c, h);
      case Notify(c, drops) => CountedByNotify(s, t, c, drops);
      case Drop(drops) => if drops != [] { CountedByRelease(s, t, drops[0], drops[1..]); }
      case Setting(c, d, v) => CountedBySet(s, t, c, d, v, spurious);
      case Unlocking(c, h) => CountedByUnlock(s, t, c, h);
      case _ =>
    }
    if !Handled(s.threads[t].pc) { CountedByRest(s, t, spurious); }
  }

  /** The steps with a function of their own. */
  predicate Handled(pc: Pc) {
    pc.Try? || pc.Locked? || pc.Storing? || pc.Notify? || (pc.Drop? && pc.drops != []) || pc.Setting? || pc.Unlocking?
  }

  lemma CountedByRest(s: State, t: nat, spurious: bool)
    requires Counted(s) && Placed(s) && Enabled(s, t, Go(spurious)) && !Handled(s.threads[t].pc)
    ensures Counted(Proceed(s, t, spurious))
  {
    var n := Proceed(s, t, spurious);
    assert InRange(s, s.threads[t].pc);
    hide Placed, Counted, TryLock, Borrow, StoreAndUnlock, Release, Set, Unlock, Ref;
    var pc := s.threads[t].pc;
    if pc.Getting? {
      CountedChange(s, n, t, pc.h, true);
    } else {
      CountedQuiet(s, n, t, if pc.TryLocking? then pc.c else 0);
    }
  }

  /** The objects some steps are about to use are there. */
  lemma NeedsOf(th: Thread)
    requires Has(th)
    ensures th.pc.Storing? && Replaces(th.pc.op, th.pc.h) ==>
      forall k: Handle :: Ref(NewValue(th.pc.op, th.pc.h))[k] <= th.held[k]
    ensures th.pc.Setting? ==> forall k: Handle :: Ref(th.pc.desired)[k] <= th.held[k]
    ensures th.pc.Drop? && th.pc.drops != [] && th.pc.drops[0] != NULL ==> th.held[th.pc.drops[0]] > 0
  {
    match th.pc {
      case Storing(op, c, h) =>
        NeedsStoring(op, c, h);
        hide Needs, Given, Ref;
        if Replaces(op, h) {
          forall k: Handle ensures Ref(NewValue(op, h))[k] <= th.held[k] {
            RefsOfDropped(op, h, k);
            assert Needs(th.pc)[k] <= th.held[k];
          }
        }
      case Setting(c, d, v) =>
        NeedsSet(c, d, v);
        hide Needs, Ref;
        forall k: Handle ensures Ref(d)[k] <= th.held[k] { assert Needs(th.pc)[k] <= th.held[k]; }
      case Drop(drops) => if drops != [] && drops[0] != NULL { HasFirst(th, drops); }
      case _ =>
    }
  }

  lemma HasFirst(th: Thread, drops: seq<Handle>)
    requires Has(th) && th.pc == Drop(drops) && drops != [] && drops[0] != NULL
    ensures th.held[drops[0]] > 0
  {
    NeedsDrop(drops);
    hide Needs, Refs;
    assert Needs(th.pc)[drops[0]] <= th.held[drops[0]];
  }

  lemma Needed(s: State, t: nat)
    requires Provided(s) && t < |s.threads|
    ensures Has(s.threads[t])
  {
  }

  lemma CountedByTry(s: State, t: nat, op: Op, c: nat, v: Word, spurious: bool)
    requires Counted(s) && t < |s.threads| && c < |s.cells|
    ensures Counted(TryLock(s, t, op, c, v, spurious))
  {
    hide Counted;
    CountedQuiet(s, TryLock(s, t, op, c, v, spurious), t, c);
  }

  lemma CountedByBorrow(s: State, t: nat, op: Op, c: nat, h: Handle)
    requires Counted(s) && t < |s.threads|
    ensures Counted(Borrow(s, t, op, c, h))
  {
    hide Counted;
    var n := Borrow(s, t, op, c, h);
    if Replaces(op, h) { CountedQuiet(s, n, t, 0); } else { CountedChange(s, n, t, h, true); }
  }

  lemma CountedByStore(s: State, t: nat, op: Op, c: nat, h: Handle)
    requires Counted(s) && t < |s.threads| && c < |s.cells| && s.cells[c].word.ptr == h
    requires Replaces(op, h) ==> forall k: Handle :: Ref(NewValue(op, h))[k] <= s.threads[t].held[k]
    ensures Counted(StoreAndUnlock(s, t, op, c, h))
  {
    hide Owners, Counted, Ref;
    var n := StoreAndUnlock(s, t, op, c, h);
    if Replaces(op, h) { CountedSwap(s, n, t, c, NewValue(op, h), h); } else { CountedQuiet(s, n, t, c); }
  }

  lemma CountedBySet(s: State, t: nat, c: nat, d: Handle, v: Word, spurious: bool)
    requires Counted(s) && t < |s.threads| && c < |s.cells| && forall k: Handle :: Ref(d)[k] <= s.threads[t].held[k]
    ensures Counted(Set(s, t, c, d, v, spurious))
  {
    hide Owners, Counted, Ref;
    var n := Set(s, t, c, d, v, spurious);
    if spurious || s.cells[c].word != v { CountedQuiet(s, n, t, c); } else { CountedSwap(s, n, t, c, d, v.ptr); }
  }

  /** The thread's object d and the cell's pointer change places. */
  lemma CountedSwap(s: State, n: State, t: nat, c: nat, d: Handle, h: Handle)
    requires Counted(s) && t < |s.threads| == |n.threads| && n.threads == s.threads[t := n.threads[t]]
    requires c < |s.cells| == |n.cells| && n.cells == s.cells[c := n.cells[c]] && n.counts == s.counts
    requires s.cells[c].word.ptr == h && n.cells[c].word.ptr == d
      && n.threads[t].held == s.threads[t].held - Ref(d) + Ref(h)
    requires forall k: Handle :: Ref(d)[k] <= s.threads[t].held[k]
    ensures Counted(n)
  {
    hide Owners;
    forall k: Handle | k != NULL ensures Count(n, k) == Owners(n, k) {
      assert Count(s, k) == Owners(s, k);
      CountedExchange(s, n, t, c, k);
    }
  }

  lemma CountedByUnlock(s: State, t: nat, c: nat, h: Handle)
    requires Counted(s) && t < |s.threads| && c < |s.cells| && s.cells[c].word.ptr == h
    ensures Counted(Unlock(s, t, c, h))
  {
    hide Counted;
    CountedQuiet(s, Unlock(s, t, c, h), t, c);
  }

  lemma CountedByRelease(s: State, t: nat, h: Handle, drops: seq<Handle>)
    requires Counted(s) && t < |s.threads| && (h != NULL ==> s.threads[t].held[h] > 0)
    ensures Counted(Release(s, t, h, drops))
  {
    hide Counted;
    var n := Release(s, t, h, drops);
    if h == NULL { CountedQuiet(s, n, t, 0); } else { CountedChange(s, n, t, h, false); }
  }

  lemma CountedByNotify(s: State, t: nat, c: nat, drops: seq<Handle>)
    requires Counted(s) && t < |s.threads|
    ensures Counted(At(s.(threads := Woken(s.threads, c)), t, Drop(drops)))
  {
    var n := At(s.(threads := Woken(s.threads, c)), t, Drop(drops));
    forall h: Handle | h != NULL ensures Count(n, h) == Owners(n, h) {
      HeldBySame(s.threads, n.threads, h);
      assert Count(s, h) == Owners(s, h);
    }
  }

  // ---- what a call needs it has ----

  lemma ProvidedStep(s: State, n: State, t: nat)
    requires Provided(s) && t < |s.threads| == |n.threads| && n.threads == s.threads[t := n.threads[t]]
    requires Has(n.threads[t])
    ensures Provided(n)
  {
    hide Has;
  }

  /** The call goes on with the same objects. */
  lemma ProvidedSame(s: State, n: State, t: nat)
    requires Provided(s) && t < |s.threads| == |n.threads| && n.threads == s.threads[t := n.threads[t]]
    requires n.threads[t].held == s.threads[t].held
    requires Needs(n.threads[t].pc) == Needs(s.threads[t].pc) || Needs(n.threads[t].pc) == multiset{}
    ensures Provided(n)
  {
    hide Needs, Provided;
    Needed(s, t);
    ProvidedStep(s, n, t);
  }

  lemma ProvidedKept(s: State, t: nat, a: Action)
    requires Provided(s) && Guarded(s) && Placed(s) && Enabled(s, t, a)
    ensures Provided(Next(s, t, a))
  {
    hide Guarded, Placed, Provided, Needs, Given, Refs, Moved;
    if a.Give? {
      ProvidedByGive(s, t, a.h, a.to);
    } else if a.Go? {
      ProvidedBySteps(s, t, a.spurious);
    } else if a == CallGet || a == CallUnlock || a == WakeUp || a.CallTryLock? {
      NeedsCalled(s.threads[t].pc, Next(s, t, a).threads[t].pc);
      ProvidedSame(s, Next(s, t, a), t);
    } else {
      ProvidedByBegin(s, t, a);
    }
  }

  lemma ProvidedByGive(s: State, t: nat, h: Handle, to: nat)
    requires Provided(s) && t < |s.threads| && s.threads[t].pc == Idle && to < |s.threads| && t != to
    ensures Provided(Moved(s, t, h, to))
  {
    NeedsIdle();
    hide Needs;
    var n := Moved(s, t, h, to);
    forall i | 0 <= i < |n.threads| ensures Has(n.threads[i]) { assert Has(s.threads[i]); }
  }

  lemma NeedsCalled(pc: Pc, after: Pc)
    requires after.TryLocking? || after.Getting? || after.Unlocking?
      || (pc.Blocked? && after == Wait(pc.op, pc.c, pc.v))
    ensures Needs(after) == Needs(pc) || Needs(after) == multiset{}
  {
  }

  lemma ProvidedByBegin(s: State, t: nat, a: Action)
    requires Provided(s) && Placed(s) && Enabled(s, t, a)
    requires a.Call? || a.CallSet? || a.Destroy? || a.New? || a.Copy?
    ensures Provided(Next(s, t, a))
  {
    hide Placed, Provided, Has, Given, Refs, Ref, Needs;
    var n := Next(s, t, a);
    match a {
      case Call(op, c) =>
        NeedsBegun(op, c);
        ProvidedByCall(s, n, t, Given(op));
      case CallSet(d) =>
        NeedsSet(n.threads[t].pc.c, d, n.threads[t].pc.v);
        ProvidedByCall(s, n, t, Ref(d));
      case Destroy(h) =>
        NeedsDestroy(h, s.threads[t].held);
        ProvidedByCall(s, n, t, Ref(h));
      case New(h) =>
        NeedsIdle();
        ProvidedByCall(s, n, t, multiset{});
      case Copy(h) =>
        NeedsIdle();
        ProvidedByCall(s, n, t, multiset{});
    }
  }

  lemma NeedsBegun(op: Op, c: nat)
    ensures Needs(Seek(op, c)) == Given(op)
  {
  }

  lemma NeedsSet(c: nat, d: Handle, v: Word)
    ensures Needs(Setting(c, d, v)) == Ref(d)
  {
  }

  lemma NeedsDestroy(h: Handle, held: multiset<Handle>)
    requires h in held
    ensures Needs(Drop([h])) == Ref(h) && Ref(h) <= held
  {
    RefsOne(h);
  }

  lemma ProvidedByCall(s: State, n: State, t: nat, given: multiset<Handle>)
    requires Provided(s) && t < |s.threads| == |n.threads| && n.threads == s.threads[t := n.threads[t]]
    requires Needs(n.threads[t].pc) == given && given <= n.threads[t].held
    ensures Provided(n)
  {
    hide Needs, Provided;
    ProvidedStep(s, n, t);
  }

  lemma RefsOne(h: Handle)
    ensures Refs([h]) == Ref(h)
  {
  }

  lemma ProvidedBySteps(s: State, t: nat, spurious: bool)
    requires Provided(s) && Guarded(s) && Placed(s) && Enabled(s, t, Go(spurious))
    ensures Provided(Proceed(s, t, spurious))
  {
    hide Guarded, Placed, Provided, CellOk, TryLock, Borrow, StoreAndUnlock, Release, Set, Unlock, Given, Ref, Refs,
      Has, Needs;
    Here(s, t);
    var n := Proceed(s, t, spurious);
    match s.threads[t].pc {
      case Try(op, c, v) => ProvidedByTry(s, t, op, c, v, spurious);
      case Locked(op, c, h) => ProvidedByBorrow(s, t, op, c, h);
      case Storing(op, c, h) => ProvidedByStore(s, t, op, c, h);
      case Notify(c, drops) => ProvidedByNotify(s, t, c, drops);
      case Drop(drops) => ProvidedByDrop(s, t, drops);
      case Setting(c, d, v) => ProvidedBySet(s, t, c, d, v, spurious);
      case Unlocking(c, h) => ProvidedByUnlock(s, t, c, h);
      case Getting(c, h) =>
        NeedsHolding(c);
        ProvidedByCall(s, n, t, multiset{});
      case Seek(_, _) => ProvidedOn(s, n, t);
      case Wait(_, _, _) => ProvidedOn(s, n, t);
      case Delete(_, _) => ProvidedOn(s, n, t);
      case TryLocking(_, _) => ProvidedOn(s, n, t);
      case _ =>
    }
  }

  lemma ProvidedOn(s: State, n: State, t: nat)
    requires Provided(s) && t < |s.threads| == |n.threads| && n.threads == s.threads[t := n.threads[t]]
    requires n.threads[t].held == s.threads[t].held && GoesOn(s.threads[t].pc, n.threads[t].pc)
    ensures Provided(n)
  {
    NeedsOn(s.threads[t].pc, n.threads[t].pc);
    ProvidedSame(s, n, t);
  }

  /** Steps that use none of the objects of the call. */
  predicate GoesOn(pc: Pc, after: Pc) {
    match pc
    case Seek(op, c) => after.Try? && after.op == op
    case Wait(op, c, v) => after == Blocked(op, c, v) || after == Seek(op, c)
    case Delete(h, drops) => after == Drop(drops)
    case TryLocking(c, v) => after == Idle || after == Holding(c)
    case _ => false
  }

  lemma NeedsHolding(c: nat)
    ensures Needs(Holding(c)) == multiset{}
  {
  }

  lemma NeedsOn(pc: Pc, after: Pc)
    requires GoesOn(pc, after)
    ensures Needs(after) == Needs(pc)
  {
  }

  lemma ProvidedByTry(s: State, t: nat, op: Op, c: nat, v: Word, spurious: bool)
    requires Provided(s) && t < |s.threads| && c < |s.cells| && s.threads[t].pc == Try(op, c, v)
    ensures Provided(TryLock(s, t, op, c, v, spurious))
  {
    hide Provided, Given;
    ProvidedSame(s, TryLock(s, t, op, c, v, spurious), t);
  }

  lemma ProvidedByBorrow(s: State, t: nat, op: Op, c: nat, h: Handle)
    requires Provided(s) && t < |s.threads| && s.threads[t].pc == Locked(op, c, h)
    ensures Provided(Borrow(s, t, op, c, h))
  {
    hide Provided, Given, Ref;
    var n := Borrow(s, t, op, c, h);
    if Replaces(op, h) {
      ProvidedSame(s, n, t);
    } else {
      Needed(s, t);
      Raised(s.threads[t], n.threads[t], Ref(h));
      ProvidedStep(s, n, t);
    }
  }

  lemma Raised(th: Thread, after: Thread, more: multiset<Handle>)
    requires Has(th) && Needs(after.pc) == Needs(th.pc) + more && after.held == th.held + more
    ensures Has(after)
  {
    hide Needs;
    forall h: Handle ensures Needs(after.pc)[h] <= after.held[h] {
      assert Needs(th.pc)[h] <= th.held[h];
    }
  }

  lemma ProvidedBySet(s: State, t: nat, c: nat, d: Handle, v: Word, spurious: bool)
    requires Provided(s) && t < |s.threads| && c < |s.cells| && s.threads[t].pc == Setting(c, d, v)
    ensures Provided(Set(s, t, c, d, v, spurious))
  {
    hide Provided, Ref;
    var n := Set(s, t, c, d, v, spurious);
    if spurious || s.cells[c].word != v { ProvidedSame(s, n, t); } else { ProvidedByCall(s, n, t, multiset{}); }
  }

  lemma ProvidedByUnlock(s: State, t: nat, c: nat, h: Handle)
    requires Provided(s) && t < |s.threads| && c < |s.cells| && s.threads[t].pc == Unlocking(c, h)
    ensures Provided(Unlock(s, t, c, h))
  {
    hide Provided;
    ProvidedSame(s, Unlock(s, t, c, h), t);
  }

  /** The old value, or what compare_exchange was given and has not stored, is destroyed later. */
  lemma ProvidedByStore(s: State, t: nat, op: Op, c: nat, h: Handle)
    requires Provided(s) && t < |s.threads| && c < |s.cells| && s.threads[t].pc == Storing(op, c, h)
    ensures Provided(StoreAndUnlock(s, t, op, c, h))
  {
    hide Provided, Refs, Given, Ref, Dropped, NewValue, Has, Needs;
    Needed(s, t);
    var n := StoreAndUnlock(s, t, op, c, h);
    NeedsAfter(s.cells[c].word, c, Dropped(op, h));
    KeepsDropped(s.threads[t], op, c, h, n.threads[t]);
    ProvidedStep(s, n, t);
  }

  lemma NeedsAfter(word: Word, c: nat, drops: seq<Handle>)
    ensures Needs(Leave(word, c, drops)) == Refs(drops)
  {
  }

  lemma KeepsDropped(th: Thread, op: Op, c: nat, h: Handle, after: Thread)
    requires Has(th) && th.pc == Storing(op, c, h) && Needs(after.pc) == Refs(Dropped(op, h))
    requires after.held == if Replaces(op, h) then th.held - Ref(NewValue(op, h)) + Ref(h) else th.held
    ensures Has(after)
  {
    NeedsStoring(op, c, h);
    hide Needs, Refs, Given, Ref, Dropped, NewValue, Replaces;
    forall k: Handle ensures Needs(after.pc)[k] <= after.held[k] {
      RefsOfDropped(op, h, k);
      assert Needs(th.pc)[k] <= th.held[k];
    }
  }

  lemma NeedsStoring(op: Op, c: nat, h: Handle)
    ensures Needs(Storing(op, c, h)) == if Replaces(op, h) then Given(op) else Given(op) + Ref(h)
  {
  }

  lemma RefsOfDropped(op: Op, h: Handle, k: Handle)
    ensures Replaces(op, h) ==> Refs(Dropped(op, h))[k] + Ref(NewValue(op, h))[k] <= Given(op)[k] + Ref(h)[k]
    ensures Replaces(op, h) ==> Ref(NewValue(op, h))[k] <= Given(op)[k]
    ensures !Replaces(op, h) ==> Refs(Dropped(op, h))[k] <= Given(op)[k]
  {
    RefsOne(h);
    if op.CasOp? {
      RefsOne(op.desired);
      assert Refs([op.expected, op.desired]) == Ref(op.expected) + Refs([op.expected, op.desired][1..]);
    }
  }

  lemma ProvidedByDrop(s: State, t: nat, drops: seq<Handle>)
    requires Provided(s) && Placed(s) && t < |s.threads| && s.threads[t].pc == Drop(drops)
    ensures Provided(Proceed(s, t, false)) && Provided(Proceed(s, t, true))
  {
    hide Provided, Placed, Has, Refs, Needs;
    var n := Proceed(s, t, false);
    Needed(s, t);
    NeedsDrop(drops);
    if drops == [] {
      NeedsIdle();
      ProvidedByCall(s, n, t, multiset{});
    } else {
      HasReleased(s.threads[t], drops, n.threads[t]);
      ProvidedStep(s, n, t);
    }
  }

  lemma NeedsIdle()
    ensures Needs(Idle) == multiset{}
  {
  }

  lemma NeedsDrop(drops: seq<Handle>)
    ensures Needs(Drop(drops)) == Refs(drops)
    ensures drops != [] ==> Refs(drops) == Ref(drops[0]) + Refs(drops[1..])
  {
  }

  lemma HasReleased(th: Thread, drops: seq<Handle>, after: Thread)
    requires drops != [] && Has(th) && th.pc == Drop(drops)
    requires after.pc == Drop(drops[1..]) || after.pc == Delete(drops[0], drops[1..])
    requires after.held == th.held - Ref(drops[0])
    ensures Has(after)
  {
    hide Refs;
    NeedsDrop(drops);
    assert Needs(after.pc) == Refs(drops[1..]);
    hide Needs, Ref;
    forall k: Handle ensures Needs(after.pc)[k] <= after.held[k] {
      assert Needs(th.pc)[k] <= th.held[k];
    }
  }

  lemma ProvidedByNotify(s: State, t: nat, c: nat, drops: seq<Handle>)
    requires Provided(s) && t < |s.threads| && s.threads[t].pc == Notify(c, drops)
    ensures Provided(At(s.(threads := Woken(s.threads, c)), t, Drop(drops)))
  {
    hide Refs;
    var n := At(s.(threads := Woken(s.threads, c)), t, Drop(drops));
    forall i | 0 <= i < |n.threads| ensures Has(n.threads[i]) {
      assert Has(s.threads[i]);
      assert Needs(n.threads[i].pc) == Needs(s.threads[i].pc);
    }
  }
}

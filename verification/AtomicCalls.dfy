/**
 What each operation on an object or a cell does when no other thread comes in between, from any state.
 */
module AtomicCalls {
  import opened AtomicSteps

  /** Thread t takes up to n steps, until it is out of its call, holds a lock or sleeps. */
  function Undisturbed(s: State, t: nat, n: nat): State
    decreases n
  {
    if n > 0 && Placed(s) && Enabled(s, t, Go(false)) then Undisturbed(Proceed(s, t, false), t, n - 1) else s
  }

  lemma Onward(s: State, t: nat, n: nat)
    requires Placed(s) && Enabled(s, t, Go(false)) && n > 0
    ensures Undisturbed(s, t, n) == Undisturbed(Proceed(s, t, false), t, n - 1)
  {
    hide Placed, Enabled, Proceed;
  }

  predicate Rests(pc: Pc) { pc == Idle || pc.Holding? || pc.Blocked? }

  lemma Out(s: State, t: nat, n: nat)
    requires n == 0 || (t < |s.threads| && Rests(s.threads[t].pc))
    ensures Undisturbed(s, t, n) == s
  {
  }

  /** A step of one thread on cells that stay in number. */
  lemma StaysPlaced(s: State, n: State, t: nat)
    requires Placed(s) && t < |s.threads| == |n.threads| && |n.cells| == |s.cells|
    requires n.threads == s.threads[t := n.threads[t]] && InRange(n, n.threads[t].pc)
    ensures Placed(n)
  {
  }

  /** Thread t, out of any call, with a cell that nobody has locked. */
  predicate Ready(s: State, t: nat, c: nat) {
    && Placed(s) && t < |s.threads| && s.threads[t].pc == Idle && c < |s.cells| && s.cells[c].word.Free()
    && s.cells[c].owner == Nobody
  }

  /** The thread has changed, and nobody else has. */
  function Changed(s: State, t: nat, th: Thread): seq<Thread>
    requires t < |s.threads|
  {
    s.threads[t := th]
  }

  /** The state in which t has the lock. */
  function Within(s: State, t: nat, c: nat, pc: Pc, begun: nat): State
    requires t < |s.threads| && c < |s.cells|
  {
    var cell, th := s.cells[c], s.threads[t];
    s.(cells := s.cells[c := Cell(Word(cell.word.ptr, true, false), By(t), cell.log)],
       threads := Changed(s, t, Thread(pc, th.held, begun, th.answers)))
  }

  /** A free cell is locked in two steps after the call. */
  lemma TakesLock(s: State, t: nat, op: Op, c: nat, n: nat)
    requires Ready(s, t, c) && Given(op) <= s.threads[t].held
    ensures Enabled(s, t, Call(op, c))
    ensures var h, b := s.cells[c].word.ptr, s.threads[t].begun;
      Undisturbed(Next(s, t, Call(op, c)), t, n + 2) == Undisturbed(
        Within(s, t, c, if op == LockOp then Holding(c) else Locked(op, c, h), if op == LockOp then b else b + 1), t, n)
  {
    hide Undisturbed, Placed;
    var a := Next(s, t, Call(op, c));
    StaysPlaced(s, a, t);
    Onward(a, t, n + 2);
    var b := Proceed(a, t, false);
    StaysPlaced(a, b, t);
    Onward(b, t, n + 1);
    assert s.cells[c].log + [] == s.cells[c].log;
    var d := Proceed(b, t, false);
    var e := Within(s, t, c, if op == LockOp then Holding(c) else Locked(op, c, s.cells[c].word.ptr),
      if op == LockOp then s.threads[t].begun else s.threads[t].begun + 1);
    assert d.threads == e.threads;
    assert d.cells == e.cells;
  }

  lemma WithinIsPlaced(s: State, t: nat, c: nat, pc: Pc, begun: nat)
    requires Ready(s, t, c) && InRange(s, pc)
    ensures var n := Within(s, t, c, pc, begun);
      && Placed(n) && |n.threads| == |s.threads| && |n.cells| == |s.cells| && n.threads[t].pc == pc
      && !n.cells[c].word.waiting
  {
    hide Placed;
    StaysPlaced(s, Within(s, t, c, pc, begun), t);
  }

  /** The exchange of an operation that has found h, and the steps up to its destructors. */
  lemma Stores(s: State, t: nat, op: Op, c: nat, h: Handle, n: nat)
    requires Placed(s) && t < |s.threads| && c < |s.cells| && s.threads[t].pc == Storing(op, c, h)
    requires !s.cells[c].word.waiting
    ensures var th, e, v := s.threads[t], Entry(op, h), NewValue(op, h);
      var held := if Replaces(op, h) then th.held - Ref(v) + Ref(h) else th.held;
      Undisturbed(s, t, n + 1) == Undisturbed(
        s.(cells := s.cells[c := Cell(Word(v, false, false), Nobody, s.cells[c].log + [e])],
           threads := Changed(s, t, Thread(Drop(Dropped(op, h)), held, th.begun, th.answers + [e]))), t, n)
  {
    hide Undisturbed, Placed, Ref, NewValue, Dropped, Replaces;
    Onward(s, t, n + 1);
    var th, e, v := s.threads[t], Entry(op, h), NewValue(op, h);
    var held := if Replaces(op, h) then th.held - Ref(v) + Ref(h) else th.held;
    assert Proceed(s, t, false).threads
      == Changed(s, t, Thread(Drop(Dropped(op, h)), held, th.begun, th.answers + [e]));
  }

  lemma NothingToDrop(s: State, t: nat, n: nat)
    requires Placed(s) && t < |s.threads| && s.threads[t].pc == Drop([])
    ensures Undisturbed(s, t, n + 1) == s.(threads := Changed(s, t, s.threads[t].(pc := Idle)))
  {
    hide Undisturbed, Placed;
    Onward(s, t, n + 1);
    Out(Proceed(s, t, false), t, n);
  }

  /** A register operation has taken effect and only has to destroy what it drops. */
  function Effected(s: State, t: nat, op: Op, c: nat): State
    requires t < |s.threads| && c < |s.cells|
  {
    var th, h := s.threads[t], s.cells[c].word.ptr;
    var v, e := NewValue(op, h), Entry(op, h);
    var held := if Replaces(op, h) then th.held - Ref(v) + Ref(h) else th.held + Ref(h);
    s.(cells := s.cells[c := Cell(Word(v, false, false), Nobody, s.cells[c].log + [e])],
       threads := Changed(s, t, Thread(Drop(Dropped(op, h)), held, th.begun + 1, th.answers + [e])),
       counts := if Replaces(op, h) then s.counts else Add(s, h, 1))
  }

  lemma TakesEffectAlone(s: State, t: nat, op: Op, c: nat, n: nat)
    requires Ready(s, t, c) && Given(op) <= s.threads[t].held && op != LockOp
    ensures Placed(Effected(s, t, op, c))
    ensures Undisturbed(Next(s, t, Call(op, c)), t, n + 4) == Undisturbed(Effected(s, t, op, c), t, n)
  {
    var h, begun := s.cells[c].word.ptr, s.threads[t].begun + 1;
    hide Undisturbed, Placed, Given, Within, Effected, Borrow, Changed;
    TakesLock(s, t, op, c, n + 2);
    WithinIsPlaced(s, t, c, Locked(op, c, h), begun);
    var a := Within(s, t, c, Locked(op, c, h), begun);
    Borrows(a, t, op, c, h, n + 1);
    Stores(Borrow(a, t, op, c, h), t, op, c, h, n);
    EffectedIs(s, t, op, c, Borrow(a, t, op, c, h));
    EffectedIsPlaced(s, t, op, c);
  }

  lemma EffectedIsPlaced(s: State, t: nat, op: Op, c: nat)
    requires Placed(s) && t < |s.threads| && c < |s.cells|
    ensures Placed(Effected(s, t, op, c))
  {
    hide Placed, Ref, NewValue, Dropped, Replaces;
    StaysPlaced(s, Effected(s, t, op, c), t);
  }

  lemma Borrows(s: State, t: nat, op: Op, c: nat, h: Handle, n: nat)
    requires Placed(s) && t < |s.threads| && c < |s.cells| && s.threads[t].pc == Locked(op, c, h)
    ensures var b := Borrow(s, t, op, c, h);
      && Undisturbed(s, t, n + 1) == Undisturbed(b, t, n)
      && Placed(b) && |b.threads| == |s.threads| && b.threads[t].pc == Storing(op, c, h) && b.cells == s.cells
  {
    hide Undisturbed, Placed, Ref, Replaces;
    Onward(s, t, n + 1);
    StaysPlaced(s, Borrow(s, t, op, c, h), t);
  }

  /** That state, reached over the state b in which the operation is about to store. */
  lemma EffectedIs(s: State, t: nat, op: Op, c: nat, b: State)
    requires t < |s.threads| && c < |s.cells| && s.cells[c].word.Free() && s.cells[c].owner == Nobody
    requires var h := s.cells[c].word.ptr;
      b == Borrow(Within(s, t, c, Locked(op, c, h), s.threads[t].begun + 1), t, op, c, h)
    ensures var th, h, e := b.threads[t], s.cells[c].word.ptr, Entry(op, s.cells[c].word.ptr);
      var v := NewValue(op, h);
      var held := if Replaces(op, h) then th.held - Ref(v) + Ref(h) else th.held;
      Effected(s, t, op, c) == b.(cells := b.cells[c := Cell(Word(v, false, false), Nobody, b.cells[c].log + [e])],
        threads := Changed(b, t, Thread(Drop(Dropped(op, h)), held, th.begun, th.answers + [e])))
  {
    hide Ref, NewValue, Dropped, Replaces;
  }

  // ---- the register operations ----

  /** load() leaves the cell as it was and gives the caller one more reference to what is there. */
  lemma LoadAlone(s: State, t: nat, c: nat)
    requires Ready(s, t, c)
    ensures var th, cell, n := s.threads[t], s.cells[c], Undisturbed(Next(s, t, Call(LoadOp, c)), t, 5);
      var h := cell.word.ptr;
      && n.threads == Changed(s, t, Thread(Idle, th.held + Ref(h), th.begun + 1, th.answers + [Entry(LoadOp, h)]))
      && n.cells == s.cells[c := Cell(cell.word, Nobody, cell.log + [Entry(LoadOp, h)])]
      && n.counts == Add(s, h, 1) && n.deleted == s.deleted
  {
    hide Undisturbed, Placed, Ref;
    TakesEffectAlone(s, t, LoadOp, c, 1);
    NothingToDrop(Effected(s, t, LoadOp, c), t, 0);
  }

  /** exchange(d) puts d in and gives the caller the reference the cell had, in place of that to d. */
  lemma ExchangeAlone(s: State, t: nat, c: nat, d: Handle)
    requires Ready(s, t, c) && Ref(d) <= s.threads[t].held
    ensures var th, cell, n := s.threads[t], s.cells[c], Undisturbed(Next(s, t, Call(ExchangeOp(d), c)), t, 5);
      var h := cell.word.ptr; var e := Entry(ExchangeOp(d), h);
      && n.threads == Changed(s, t, Thread(Idle, th.held - Ref(d) + Ref(h), th.begun + 1, th.answers + [e]))
      && n.cells == s.cells[c := Cell(Word(d, false, false), Nobody, cell.log + [e])]
      && n.counts == s.counts && n.deleted == s.deleted
  {
    hide Undisturbed, Placed, Ref;
    TakesEffectAlone(s, t, ExchangeOp(d), c, 1);
    NothingToDrop(Effected(s, t, ExchangeOp(d), c), t, 0);
  }

  // ---- destroying objects ----

  /** A thread that is out after three steps is where it is after four. */
  lemma Further(s: State, t: nat, n: nat)
    requires n >= 3 && t < |s.threads| && |Undisturbed(s, t, 3).threads| == |s.threads|
    requires Undisturbed(s, t, 3).threads[t].pc == Idle
    ensures Undisturbed(s, t, n) == Undisturbed(s, t, 3)
  {
    Longer(s, t, 3, n);
  }

  lemma {:induction false} Longer(s: State, t: nat, m: nat, n: nat)
    requires m <= n && t < |Undisturbed(s, t, m).threads| && Undisturbed(s, t, m).threads[t].pc == Idle
    ensures Undisturbed(s, t, n) == Undisturbed(s, t, m)
    decreases m
  {
    hide Placed, Enabled, Proceed;
    if m > 0 && Placed(s) && Enabled(s, t, Go(false)) {
      Longer(Proceed(s, t, false), t, m - 1, n - 1);
    } else {
      IdleStays(s, t, n);
    }
  }

  lemma IdleStays(s: State, t: nat, n: nat)
    requires (t < |s.threads| && s.threads[t].pc == Idle) || !(Placed(s) && Enabled(s, t, Go(false)))
    ensures Undisturbed(s, t, n) == s
  {
  }

  /** One destructor: the reference goes; with the last one goes the holder. */
  function Rid(s: State, t: nat, h: Handle, more: seq<Handle>): State
    requires t < |s.threads|
  {
    var th, last := s.threads[t], h != NULL && Count(s, h) == 1;
    s.(threads := Changed(s, t, Thread(Drop(more), th.held - Ref(h), th.begun, th.answers)),
       counts := Add(s, h, -1), deleted := s.deleted + (if last then multiset{h} else multiset{}),
       deleters := if last then s.deleters - {h} else s.deleters)
  }

  lemma DropsOne(s: State, t: nat, h: Handle, more: seq<Handle>, n: nat)
    requires Placed(s) && t < |s.threads| && s.threads[t].pc == Drop([h] + more)
    ensures Placed(Rid(s, t, h, more))
    ensures Undisturbed(s, t, n + if h != NULL && Count(s, h) == 1 then 2 else 1)
      == Undisturbed(Rid(s, t, h, more), t, n)
  {
    hide Undisturbed, Placed, Rid;
    RidIsPlaced(s, t, h, more);
    if h != NULL && Count(s, h) == 1 { DropsTheLast(s, t, h, more, n); } else { DropsNotTheLast(s, t, h, more, n); }
  }

  lemma RidIsPlaced(s: State, t: nat, h: Handle, more: seq<Handle>)
    requires Placed(s) && t < |s.threads|
    ensures Placed(Rid(s, t, h, more))
  {
    hide Placed, Ref;
    StaysPlaced(s, Rid(s, t, h, more), t);
  }

  lemma DropsNotTheLast(s: State, t: nat, h: Handle, more: seq<Handle>, n: nat)
    requires Placed(s) && t < |s.threads| && s.threads[t].pc == Drop([h] + more) && (h == NULL || Count(s, h) != 1)
    ensures Undisturbed(s, t, n + 1) == Undisturbed(Rid(s, t, h, more), t, n)
  {
    hide Undisturbed, Placed;
    assert ([h] + more)[0] == h && ([h] + more)[1..] == more;
    Onward(s, t, n + 1);
    assert s.threads[t].held - multiset{} == s.threads[t].held;
    assert s.deleted + multiset{} == s.deleted;
    assert Proceed(s, t, false).threads == Rid(s, t, h, more).threads;
  }

  lemma DropsTheLast(s: State, t: nat, h: Handle, more: seq<Handle>, n: nat)
    requires Placed(s) && t < |s.threads| && s.threads[t].pc == Drop([h] + more) && h != NULL && Count(s, h) == 1
    ensures Undisturbed(s, t, n + 2) == Undisturbed(Rid(s, t, h, more), t, n)
  {
    hide Undisturbed, Placed, Count;
    assert ([h] + more)[0] == h && ([h] + more)[1..] == more;
    var a := Release(s, t, h, more);
    assert Proceed(s, t, false) == a;
    StaysPlaced(s, a, t);
    Onward(s, t, n + 2);
    Onward(a, t, n + 1);
    assert s.deleters[h := t] - {h} == s.deleters - {h};
    assert Proceed(a, t, false).threads == Rid(s, t, h, more).threads;
  }

  /** The end of a call that has one object to destroy, in three steps or less. */
  lemma DropsLast(s: State, t: nat, h: Handle)
    requires Placed(s) && t < |s.threads| && s.threads[t].pc == Drop([h])
    ensures var th, n := s.threads[t], Undisturbed(s, t, 3);
      && n.threads == Changed(s, t, Thread(Idle, th.held - Ref(h), th.begun, th.answers)) && n.cells == s.cells
      && n.counts == Add(s, h, -1)
      && n.deleted == s.deleted + if h != NULL && Count(s, h) == 1 then multiset{h} else multiset{}
  {
    hide Undisturbed, Placed, Ref;
    var last := h != NULL && Count(s, h) == 1;
    assert [h] + [] == [h];
    DropsOne(s, t, h, [], if last then 1 else 2);
    NothingToDrop(Rid(s, t, h, []), t, if last then 0 else 1);
  }

  /** Copying an object counts, destroying one takes the count back. */
  lemma CopyAndDestroy(s: State, t: nat, h: Handle)
    requires Placed(s) && t < |s.threads| && s.threads[t].pc == Idle && h in s.threads[t].held && h != NULL
    ensures var n := Next(s, t, Copy(h));
      n.threads == Changed(s, t, s.threads[t].(held := s.threads[t].held + multiset{h}))
        && Count(n, h) == Count(s, h) + 1
    ensures var n := Undisturbed(Next(s, t, Destroy(h)), t, 3);
      && n.threads == Changed(s, t, s.threads[t].(held := s.threads[t].held - multiset{h}))
      && Count(n, h) == Count(s, h) - 1 && n.cells == s.cells
      && n.deleted == s.deleted + if Count(s, h) == 1 then multiset{h} else multiset{}
  {
    hide Undisturbed, Placed;
    var a := Next(s, t, Destroy(h));
    StaysPlaced(s, a, t);
    Onward(a, t, 3);
    var b := Proceed(a, t, false);
    StaysPlaced(a, b, t);
    assert [h][1..] == [];
    if Count(s, h) == 1 {
      Onward(b, t, 2);
      var d := Proceed(b, t, false);
      StaysPlaced(b, d, t);
      NothingToDrop(d, t, 0);
    } else {
      NothingToDrop(b, t, 1);
      assert s.deleted + multiset{} == s.deleted;
    }
  }

  /** store(d) puts d in, and the reference the cell had goes; with the last one goes its holder. */
  lemma StoreAlone(s: State, t: nat, c: nat, d: Handle)
    requires Ready(s, t, c) && Ref(d) <= s.threads[t].held
    ensures Replaced(s, Undisturbed(Next(s, t, Call(StoreOp(d), c)), t, 7), t, StoreOp(d), c)
  {
    ReplacesAlone(s, t, c, StoreOp(d));
  }

  /** compare_exchange that finds what it expects does the same, and leaves the caller what it expected. */
  lemma CasSucceedsAlone(s: State, t: nat, c: nat, d: Handle)
    requires Ready(s, t, c) && Ref(s.cells[c].word.ptr) + Ref(d) <= s.threads[t].held
    ensures var op := CasOp(s.cells[c].word.ptr, d);
      Replaced(s, Undisturbed(Next(s, t, Call(op, c)), t, 7), t, op, c)
  {
    ReplacesAlone(s, t, c, CasOp(s.cells[c].word.ptr, d));
  }

  /** n is where t's operation op on cell c, which puts in its desired handle and destroys the old one, ends. */
  predicate Replaced(s: State, n: State, t: nat, op: Op, c: nat)
    requires t < |s.threads| && c < |s.cells| && (op.StoreOp? || op.CasOp?)
  {
    var th, h := s.threads[t], s.cells[c].word.ptr;
    var e := Entry(op, h);
    && n.threads == Changed(s, t, Thread(Idle, th.held - Ref(op.desired), th.begun + 1, th.answers + [e]))
    && n.cells == s.cells[c := Cell(Word(op.desired, false, false), Nobody, s.cells[c].log + [e])]
    && n.counts == Add(s, h, -1)
    && n.deleted == s.deleted + if h != NULL && Count(s, h) == 1 then multiset{h} else multiset{}
  }

  lemma ReplacesAlone(s: State, t: nat, c: nat, op: Op)
    requires Ready(s, t, c) && Given(op) <= s.threads[t].held
    requires var h := s.cells[c].word.ptr; op.StoreOp? || (op.CasOp? && op.expected == h)
    ensures Replaced(s, Undisturbed(Next(s, t, Call(op, c)), t, 7), t, op, c)
  {
    hide Undisturbed, Placed, Given, Effected, Next, Enabled, Proceed, Replaced;
    TakesEffectAlone(s, t, op, c, 3);
    var a := Effected(s, t, op, c);
    EffectedHas(s, t, op, c);
    DropsLast(a, t, s.cells[c].word.ptr);
    ReplacedIs(s, a, Undisturbed(a, t, 3), t, op, c);
  }

  lemma ReplacedIs(s: State, a: State, n: State, t: nat, op: Op, c: nat)
    requires t < |s.threads| && c < |s.cells| && (op.StoreOp? || op.CasOp?) && a.counts == s.counts
    requires var th, h := s.threads[t], s.cells[c].word.ptr; var e := Entry(op, h);
      && a.threads ==
           Changed(s, t, Thread(Drop([h]), th.held - Ref(op.desired) + Ref(h), th.begun + 1, th.answers + [e]))
      && a.cells == s.cells[c := Cell(Word(op.desired, false, false), Nobody, s.cells[c].log + [e])]
      && a.deleted == s.deleted
    requires var th, h := a.threads[t], s.cells[c].word.ptr;
      && n.threads == Changed(a, t, Thread(Idle, th.held - Ref(h), th.begun, th.answers)) && n.cells == a.cells
      && n.counts == Add(a, h, -1)
      && n.deleted == a.deleted + if h != NULL && Count(a, h) == 1 then multiset{h} else multiset{}
    ensures Replaced(s, n, t, op, c)
  {
    var th, h := s.threads[t], s.cells[c].word.ptr;
    TakenBack(th.held - Ref(op.desired), h);
    SameCounts(s, a, h);
    Rechanged(s, a, t, n.threads[t]);
    hide Add, Count, Changed, Ref;
  }

  lemma TakenBack(held: multiset<Handle>, h: Handle)
    ensures held + Ref(h) - Ref(h) == held
  {
  }

  lemma SameCounts(s: State, n: State, h: Handle)
    requires n.counts == s.counts
    ensures Count(n, h) == Count(s, h) && Add(n, h, -1) == Add(s, h, -1)
  {
  }

  lemma Rechanged(s: State, n: State, t: nat, th: Thread)
    requires t < |s.threads| == |n.threads| && n.threads == Changed(s, t, n.threads[t])
    ensures Changed(n, t, th) == Changed(s, t, th) && Changed(s, t, th)[t] == th
  {
  }

  /** The fields of that state, for an operation that stores and for one that does not. */
  lemma EffectedHas(s: State, t: nat, op: Op, c: nat)
    requires t < |s.threads| && c < |s.cells|
    ensures var n, h := Effected(s, t, op, c), s.cells[c].word.ptr; var e := Entry(op, h);
      && n.deleted == s.deleted && |n.threads| == |s.threads|
      && n.cells == s.cells[c := Cell(Word(NewValue(op, h), false, false), Nobody, s.cells[c].log + [e])]
    ensures op.StoreOp? || (op.CasOp? && op.expected == s.cells[c].word.ptr) ==>
      var n, th, h := Effected(s, t, op, c), s.threads[t], s.cells[c].word.ptr; var e := Entry(op, h);
      && n.counts == s.counts && NewValue(op, h) == op.desired
      && n.threads ==
           Changed(s, t, Thread(Drop([h]), th.held - Ref(op.desired) + Ref(h), th.begun + 1, th.answers + [e]))
    ensures op.CasOp? && op.expected != s.cells[c].word.ptr ==>
      var n, th, h := Effected(s, t, op, c), s.threads[t], s.cells[c].word.ptr; var e := Entry(op, h);
      && n.counts == Add(s, h, 1) && NewValue(op, h) == h
      && n.threads ==
           Changed(s, t, Thread(Drop([op.expected, op.desired]), th.held + Ref(h), th.begun + 1, th.answers + [e]))
  {
    hide Ref, Count, Add;
  }

  /**
   n is where a compare_exchange ends that has found h, not the e expected: the cell is as it was, what
   the call was given is destroyed, and the caller has what was found in place of what it expected.
   */
  ghost predicate Missed(s: State, n: State, t: nat, c: nat, e: Handle, d: Handle)
    requires t < |s.threads| && c < |s.cells|
  {
    var th, h := s.threads[t], s.cells[c].word.ptr;
    var x := Entry(CasOp(e, d), h);
    && n.threads == Changed(s, t, Thread(Idle, th.held + Ref(h) - Ref(e) - Ref(d), th.begun + 1, th.answers + [x]))
    && n.cells == s.cells[c := Cell(Word(h, false, false), Nobody, s.cells[c].log + [x])]
    && forall k: Handle :: k != NULL ==> Count(n, k) == Count(s, k) + Ref(h)[k] - Ref(e)[k] - Ref(d)[k]
  }

  lemma CasFailsAlone(s: State, t: nat, c: nat, e: Handle, d: Handle)
    requires Ready(s, t, c) && Given(CasOp(e, d)) <= s.threads[t].held && e != s.cells[c].word.ptr
    ensures Missed(s, Undisturbed(Next(s, t, Call(CasOp(e, d), c)), t, 9), t, c, e, d)
  {
    hide Undisturbed, Placed, Given, Effected, Next, Enabled, Proceed, Missed;
    var op := CasOp(e, d);
    EffectedHas(s, t, op, c);
    TakesEffectAlone(s, t, op, c, 5);
    var a := Effected(s, t, op, c);
    DropsTwo(a, t, e, d);
    MissedIs(s, a, Undisturbed(a, t, 5), t, c, e, d);
  }

  lemma MissedIs(s: State, a: State, n: State, t: nat, c: nat, e: Handle, d: Handle)
    requires t < |s.threads| && c < |s.cells| && a.counts == Add(s, s.cells[c].word.ptr, 1)
    requires var th, h := s.threads[t], s.cells[c].word.ptr; var x := Entry(CasOp(e, d), h);
      && a.threads == Changed(s, t, Thread(Drop([e, d]), th.held + Ref(h), th.begun + 1, th.answers + [x]))
      && a.cells == s.cells[c := Cell(Word(h, false, false), Nobody, s.cells[c].log + [x])]
    requires var th := a.threads[t];
      && n.threads == Changed(a, t, Thread(Idle, th.held - Ref(e) - Ref(d), th.begun, th.answers)) && n.cells == a.cells
      && forall k: Handle :: k != NULL ==> Count(n, k) == Count(a, k) - Ref(e)[k] - Ref(d)[k]
    ensures Missed(s, n, t, c, e, d)
  {
    var h := s.cells[c].word.ptr;
    Rechanged(s, a, t, n.threads[t]);
    hide Changed, Ref, Count, Add;
    forall k: Handle | k != NULL ensures Count(n, k) == Count(s, k) + Ref(h)[k] - Ref(e)[k] - Ref(d)[k] {
      CountAdds(s, a, h, 1, k);
    }
  }

  lemma CountAdds(s: State, n: State, h: Handle, delta: int, k: Handle)
    requires n.counts == Add(s, h, delta) && k != NULL
    ensures Count(n, k) == Count(s, k) + delta * Ref(h)[k]
  {
  }

  /** The end of a call that has two objects to destroy, in five steps or less. */
  lemma DropsTwo(s: State, t: nat, e: Handle, d: Handle)
    requires Placed(s) && t < |s.threads| && s.threads[t].pc == Drop([e, d])
    ensures var th, n := s.threads[t], Undisturbed(s, t, 5);
      && n.threads == Changed(s, t, Thread(Idle, th.held - Ref(e) - Ref(d), th.begun, th.answers)) && n.cells == s.cells
      && forall k: Handle :: k != NULL ==> Count(n, k) == Count(s, k) - Ref(e)[k] - Ref(d)[k]
  {
    hide Undisturbed, Placed, Ref, Count, Add;
    assert [e] + [d] == [e, d];
    var k := if e != NULL && Count(s, e) == 1 then 3 else 4;
    var b := Rid(s, t, e, [d]);
    DropsOne(s, t, e, [d], k);
    RidHas(s, t, e, [d]);
    hide Rid;
    DropsLast(b, t, d);
    Further(b, t, k);
    var n := Undisturbed(s, t, 5);
    forall k: Handle | k != NULL ensures Count(n, k) == Count(s, k) - Ref(e)[k] - Ref(d)[k] {
      CountAdds(s, b, e, -1, k);
      CountAdds(b, n, d, -1, k);
    }
  }

  lemma RidHas(s: State, t: nat, h: Handle, more: seq<Handle>)
    requires t < |s.threads|
    ensures var n, th := Rid(s, t, h, more), s.threads[t];
      && n.threads == Changed(s, t, Thread(Drop(more), th.held - Ref(h), th.begun, th.answers)) && n.cells == s.cells
      && n.counts == Add(s, h, -1)
  {
    hide Ref, Count, Add;
  }

  // ---- the lock ----

  /** lock() on a free cell takes the lock and leaves the pointer. */
  lemma LockAlone(s: State, t: nat, c: nat)
    requires Ready(s, t, c)
    ensures Undisturbed(Next(s, t, Call(LockOp, c)), t, 2) == Within(s, t, c, Holding(c), s.threads[t].begun)
  {
    hide Undisturbed, Placed;
    TakesLock(s, t, LockOp, c, 0);
    Out(Within(s, t, c, Holding(c), s.threads[t].begun), t, 0);
  }

  /** try_lock() on a free cell takes the lock; on any other it changes nothing. */
  lemma TryLockAlone(s: State, t: nat, c: nat)
    requires Placed(s) && t < |s.threads| && s.threads[t].pc == Idle && c < |s.cells|
    ensures var n := Undisturbed(Next(s, t, CallTryLock(c)), t, 1);
      n == if s.cells[c].word.Free() then Within(s, t, c, Holding(c), s.threads[t].begun) else s
  {
    hide Undisturbed, Placed;
    var a := Next(s, t, CallTryLock(c));
    StaysPlaced(s, a, t);
    Onward(a, t, 1);
    Out(Proceed(a, t, false), t, 0);
    assert s.cells[c].log + [] == s.cells[c].log;
    assert s.threads[t := s.threads[t].(pc := Idle)] == s.threads;
    assert s.threads[t := a.threads[t]][t := s.threads[t]] == s.threads;
  }

  /** get() gives the holder of the lock one more reference to what is there. */
  lemma GetAlone(s: State, t: nat, c: nat)
    requires Placed(s) && t < |s.threads| && s.threads[t].pc == Holding(c)
    ensures c < |s.cells|
    ensures var th, h := s.threads[t], s.cells[c].word.ptr;
      var n, e := Undisturbed(Next(s, t, CallGet), t, 1), Entry(LoadOp, h);
      && n.threads == Changed(s, t, Thread(Holding(c), th.held + Ref(h), th.begun + 1, th.answers + [e]))
      && n.cells == s.cells[c := s.cells[c].(log := s.cells[c].log + [e])] && n.counts == Add(s, h, 1)
  {
    assert InRange(s, s.threads[t].pc);
    hide Undisturbed, Placed, Ref;
    var a := Next(s, t, CallGet);
    StaysPlaced(s, a, t);
    Onward(a, t, 1);
    Out(Proceed(a, t, false), t, 0);
  }

  /** set(d) puts d in under the lock and gives the holder the reference the cell had. */
  lemma SetAlone(s: State, t: nat, c: nat, d: Handle)
    requires Placed(s) && t < |s.threads| && s.threads[t].pc == Holding(c) && Ref(d) <= s.threads[t].held
    ensures c < |s.cells|
    ensures var th, w := s.threads[t], s.cells[c].word;
      var n, e := Undisturbed(Next(s, t, CallSet(d)), t, 1), Entry(ExchangeOp(d), w.ptr);
      && n.threads ==
           Changed(s, t, Thread(Holding(c), th.held - Ref(d) + Ref(w.ptr), th.begun + 1, th.answers + [e]))
      && n.cells == s.cells[c := Cell(Word(d, w.locked, w.waiting), s.cells[c].owner, s.cells[c].log + [e])]
      && n.counts == s.counts
  {
    assert InRange(s, s.threads[t].pc);
    hide Undisturbed, Placed, Ref;
    var a := Next(s, t, CallSet(d));
    StaysPlaced(s, a, t);
    Onward(a, t, 1);
    Out(Proceed(a, t, false), t, 0);
  }

  /** Of the other threads, those that sleep on c look again. */
  predicate WokenOthers(before: seq<Thread>, after: seq<Thread>, t: nat, c: nat) {
    && |after| == |before|
    && forall i :: 0 <= i < |before| && i != t ==>
         after[i] == if Asleep(before[i].pc, c) then before[i].(pc := Wait(before[i].pc.op, c, before[i].pc.v))
           else before[i]
  }

  /** unlock() frees the cell and leaves the pointer; it wakes all that sleep on it, if any has said so. */
  lemma UnlockAlone(s: State, t: nat, c: nat)
    requires Placed(s) && t < |s.threads| && s.threads[t].pc == Holding(c)
    ensures c < |s.cells|
    ensures var w, n := s.cells[c].word, Undisturbed(Next(s, t, CallUnlock), t, 3);
      && n.cells == s.cells[c := Cell(Word(w.ptr, false, false), Nobody, s.cells[c].log)] && n.counts == s.counts
      && t < |n.threads| && n.threads[t] == s.threads[t].(pc := Idle)
      && if w.waiting then WokenOthers(s.threads, n.threads, t, c) else n.threads == Changed(s, t, n.threads[t])
  {
    assert InRange(s, s.threads[t].pc);
    var b := Freed(s, t, c);
    Unlocks(s, t, c, 2);
    hide Undisturbed, Placed, Next, WokenOthers;
    if s.cells[c].word.waiting {
      WakesOthers(b, t, c);
      StillOthers(s.threads, b.threads, Undisturbed(b, t, 2).threads, t, c);
    } else {
      NothingToDrop(b, t, 1);
      Rechanged(s, b, t, s.threads[t].(pc := Idle));
    }
  }

  lemma StillOthers(before: seq<Thread>, middle: seq<Thread>, after: seq<Thread>, t: nat, c: nat)
    requires t < |before| == |middle| && middle == before[t := middle[t]] && WokenOthers(middle, after, t, c)
    ensures WokenOthers(before, after, t, c)
  {
  }

  lemma WakesOthers(s: State, t: nat, c: nat)
    requires Placed(s) && t < |s.threads| && c < |s.cells| && s.threads[t].pc == Notify(c, [])
    ensures var n := Undisturbed(s, t, 2);
      && n.cells == s.cells && n.counts == s.counts && t < |n.threads|
      && n.threads[t] == s.threads[t].(pc := Idle) && WokenOthers(s.threads, n.threads, t, c)
  {
    hide Undisturbed, Placed;
    Onward(s, t, 2);
    WokenPlaced(s, t, c, []);
    NothingToDrop(Proceed(s, t, false), t, 0);
  }

  /** The exchange of unlock() is over. */
  function Freed(s: State, t: nat, c: nat): State
    requires t < |s.threads| && c < |s.cells|
  {
    var w := s.cells[c].word;
    s.(cells := s.cells[c := Cell(Word(w.ptr, false, false), Nobody, s.cells[c].log)],
       threads := Changed(s, t, s.threads[t].(pc := Leave(w, c, []))))
  }

  lemma Unlocks(s: State, t: nat, c: nat, n: nat)
    requires Placed(s) && t < |s.threads| && s.threads[t].pc == Holding(c) && c < |s.cells|
    ensures Placed(Freed(s, t, c)) && Undisturbed(Next(s, t, CallUnlock), t, n + 1) == Undisturbed(Freed(s, t, c), t, n)
  {
    hide Undisturbed, Placed;
    var a, b := Next(s, t, CallUnlock), Freed(s, t, c);
    StaysPlaced(s, a, t);
    StaysPlaced(s, b, t);
    Onward(a, t, n + 1);
    assert s.cells[c].log + [] == s.cells[c].log;
    assert Proceed(a, t, false).threads == b.threads;
  }

  lemma WokenPlaced(s: State, t: nat, c: nat, drops: seq<Handle>)
    requires Placed(s) && t < |s.threads| && c < |s.cells|
    ensures Placed(At(s.(threads := Woken(s.threads, c)), t, Drop(drops)))
  {
    var n := At(s.(threads := Woken(s.threads, c)), t, Drop(drops));
    forall i | 0 <= i < |n.threads| ensures InRange(n, n.threads[i].pc) { assert InRange(s, s.threads[i].pc); }
  }

  /** A weak compare-and-swap that fails for no reason is tried again, but for that of try_lock(). */
  lemma SpuriousTriesAgain(s: State, t: nat, c: nat)
    requires Placed(s) && t < |s.threads| && c < |s.cells|
    ensures var pc, w := s.threads[t].pc, s.cells[c].word;
      && (pc.Try? && pc.c == c && pc.v == w && !w.waiting ==> Proceed(s, t, true) == At(s, t, Try(pc.op, c, w)))
      && (pc.Setting? && pc.c == c && pc.v == w ==> Proceed(s, t, true) == s)
      && (pc.TryLocking? && pc.c == c ==> Proceed(s, t, true) == At(s, t, Idle))
  {
    hide Placed;
    assert s.threads[t := s.threads[t]] == s.threads;
  }

  /** A thread that finds the cell locked says so in the word and goes to sleep. */
  lemma ContendedSleeps(s: State, t: nat, op: Op, c: nat)
    requires Placed(s) && t < |s.threads| && s.threads[t].pc == Idle && Given(op) <= s.threads[t].held
    requires c < |s.cells| && s.cells[c].word.locked != s.cells[c].word.waiting
    ensures var n, v := Undisturbed(Next(s, t, Call(op, c)), t, 3), Word(s.cells[c].word.ptr, false, true);
      && n.cells == s.cells[c := Cell(v, s.cells[c].owner, s.cells[c].log)]
      && n.threads == Changed(s, t, s.threads[t].(pc := Blocked(op, c, v), begun := n.threads[t].begun))
      && n.counts == s.counts
  {
    hide Undisturbed, Placed, Given;
    var a := Next(s, t, Call(op, c));
    StaysPlaced(s, a, t);
    Onward(a, t, 3);
    var b := Proceed(a, t, false);
    StaysPlaced(a, b, t);
    Onward(b, t, 2);
    var d := Proceed(b, t, false);
    assert s.cells[c].log + [] == s.cells[c].log;
    StaysPlaced(b, d, t);
    Onward(d, t, 1);
    Out(Proceed(d, t, false), t, 0);
  }
}

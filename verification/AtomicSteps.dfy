/**
 Reference-counted objects and atomic cells that hold one, as many threads use them. A cell is one
 word: the pointer, and in its two low bits a lock and a mark that somebody waits for it. Every atomic
 operation on a word or on a count is one step of one thread.
 */
module AtomicSteps {
  /** The address of a holder; 0 is the null handle. */
  type Handle = nat
  const NULL: Handle := 0

  datatype Word = Word(ptr: Handle, locked: bool, waiting: bool) {
    predicate Free() { !locked && !waiting }
  }

  /** The word as it is stored: holders are aligned to 4, so the low bits of a pointer are free. */
  function Pack(w: Word): nat {
    w.ptr + (if w.locked then 1 else 0) + (if w.waiting then 2 else 0)
  }

  function Unpack(v: nat): Word {
    var bits := v % 4;
    Word(v - bits, bits == 1 || bits == 3, bits >= 2)
  }

  lemma PackRoundTrip(w: Word)
    requires w.ptr % 4 == 0
    ensures Unpack(Pack(w)) == w
    ensures Pack(Word(w.ptr, false, false)) == w.ptr
    ensures Pack(Word(w.ptr, true, false)) == w.ptr + 1 && Pack(Word(w.ptr, false, true)) == w.ptr + 2
  {
    LowBits(w.ptr, (if w.locked then 1 else 0) + (if w.waiting then 2 else 0));
  }

  lemma LowBits(ptr: nat, bits: nat)
    requires ptr % 4 == 0 && bits < 4
    ensures (ptr + bits) % 4 == bits
  {
  }

  /** The operations that take the lock of a cell. */
  datatype Op =
    | LoadOp
    | StoreOp(desired: Handle)
    | ExchangeOp(desired: Handle)
    | CasOp(expected: Handle, desired: Handle)
    | LockOp

  /** What a thread is about to do. */
  datatype Pc =
    | Idle
    | Seek(op: Op, c: nat)                            // lock_and_load: load the word
    | Try(op: Op, c: nat, v: Word)                    // lock_and_load: compare-and-swap, as v says
    | Wait(op: Op, c: nat, v: Word)                   // storage.wait(v): compare
    | Blocked(op: Op, c: nat, v: Word)                // storage.wait(v): asleep
    | Locked(op: Op, c: nat, h: Handle)               // lock_and_load returned h
    | Storing(op: Op, c: nat, h: Handle)              // store_and_unlock: exchange
    | Notify(c: nat, drops: seq<Handle>)              // store_and_unlock: notify_all
    | Drop(drops: seq<Handle>)                        // destructors of objects
    | Delete(h: Handle, drops: seq<Handle>)           // the count fell to 0
    | Holding(c: nat)                                 // between lock() and unlock()
    | Getting(c: nat, h: Handle)                      // get(): add the reference
    | Setting(c: nat, desired: Handle, v: Word)       // set(): compare-and-swap
    | Unlocking(c: nat, h: Handle)                    // unlock(): exchange
    | TryLocking(c: nat, v: Word)                     // try_lock(): compare-and-swap
    | Crashed                                         // std::terminate()

  /** An operation that took effect, and the handle it found. */
  datatype Entry = Entry(op: Op, seen: Handle)

  /**
   A thread and the objects it has: how many of its variables, temporaries included, own each handle.
   begun and answers are records: how many operations on registers it has called, and what it was told.
   */
  datatype Thread = Thread(pc: Pc, held: multiset<Handle>, begun: nat, answers: seq<Entry>)

  datatype Owner = Nobody | By(t: nat)

  /** owner and log are records: who has the lock, and the operations in the order of their effect. */
  datatype Cell = Cell(word: Word, owner: Owner, log: seq<Entry>)

  /** counts are the reference counts of all holders ever made; deleted and deleters are records. */
  datatype State = State(cells: seq<Cell>, threads: seq<Thread>, counts: map<Handle, int>,
    deleted: multiset<Handle>, deleters: map<Handle, nat>)

  function Ref(h: Handle): multiset<Handle> { if h == NULL then multiset{} else multiset{h} }

  function Refs(l: seq<Handle>): multiset<Handle> {
    if l == [] then multiset{} else Ref(l[0]) + Refs(l[1..])
  }

  /** The objects an operation was given. */
  function Given(op: Op): multiset<Handle> {
    match op
    case LoadOp => multiset{}
    case StoreOp(d) => Ref(d)
    case ExchangeOp(d) => Ref(d)
    case CasOp(e, d) => Ref(e) + Ref(d)
    case LockOp => multiset{}
  }

  /** Whether the operation replaces the handle h it found, and by what. */
  predicate Replaces(op: Op, h: Handle) {
    match op
    case StoreOp(_) => true
    case ExchangeOp(_) => true
    case CasOp(e, _) => h == e
    case _ => false
  }

  function NewValue(op: Op, h: Handle): Handle {
    if !Replaces(op, h) then h else match op
      case StoreOp(d) => d
      case ExchangeOp(d) => d
      case CasOp(_, d) => d
      case _ => h
  }

  /** The objects destroyed when the operation returns. */
  function Dropped(op: Op, h: Handle): seq<Handle> {
    match op
    case StoreOp(_) => [h]
    case CasOp(e, d) => if h == e then [h] else [e, d]
    case _ => []
  }

  // ---- steps ----

  datatype Action =
    | Call(op: Op, c: nat)
    | CallTryLock(c: nat)
    | CallGet
    | CallSet(desired: Handle)
    | CallUnlock
    | New(h: Handle)           // a holder, with one reference
    | Copy(h: Handle)
    | Destroy(h: Handle)
    | Give(h: Handle, to: nat) // an object moves to another thread, in a callback for instance
    | WakeUp                   // a blocked thread wakes for no reason
    | Go(spurious: bool)       // the next step of a call; a weak compare-and-swap may fail for no reason

  predicate Enabled(s: State, t: nat, a: Action) {
    && t < |s.threads|
    && var th := s.threads[t];
       match a
       case Call(op, c) => th.pc == Idle && c < |s.cells| && Given(op) <= th.held
       case CallTryLock(c) => th.pc == Idle && c < |s.cells|
       case CallGet => th.pc.Holding?
       case CallSet(d) => th.pc.Holding? && Ref(d) <= th.held
       case CallUnlock => th.pc.Holding?
       case New(h) => th.pc == Idle && h != NULL && h !in s.counts
       case Copy(h) => th.pc == Idle && h in th.held
       case Destroy(h) => th.pc == Idle && h in th.held
       case Give(h, to) => th.pc == Idle && h in th.held && to < |s.threads| && to != t
       case WakeUp => th.pc.Blocked?
       case Go(_) => th.pc != Idle && !th.pc.Holding? && !th.pc.Blocked? && th.pc != Crashed
  }

  function Count(s: State, h: Handle): int { if h in s.counts then s.counts[h] else 0 }

  function Add(s: State, h: Handle, n: int): map<Handle, int> {
    if h == NULL then s.counts else s.counts[h := Count(s, h) + n]
  }

  function At(s: State, t: nat, pc: Pc): State
    requires t < |s.threads|
  {
    s.(threads := s.threads[t := s.threads[t].(pc := pc)])
  }

  function With(s: State, t: nat, pc: Pc, held: multiset<Handle>): State
    requires t < |s.threads|
  {
    s.(threads := s.threads[t := s.threads[t].(pc := pc, held := held)])
  }

  function Swap(s: State, c: nat, word: Word, owner: Owner, entries: seq<Entry>): State
    requires c < |s.cells|
  {
    s.(cells := s.cells[c := Cell(word, owner, s.cells[c].log + entries)])
  }

  /** Another operation of thread t on a register begins. */
  function Begun(s: State, t: nat): State
    requires t < |s.threads|
  {
    s.(threads := s.threads[t := s.threads[t].(begun := s.threads[t].begun + 1)])
  }

  /** An operation of thread t is answered. */
  function Told(s: State, t: nat, e: Entry): State
    requires t < |s.threads|
  {
    s.(threads := s.threads[t := s.threads[t].(answers := s.threads[t].answers + [e])])
  }

  /** One of thread t's objects that own h is another thread's now. */
  function Moved(s: State, t: nat, h: Handle, to: nat): State
    requires t < |s.threads| && to < |s.threads| && t != to
  {
    var from, dest := s.threads[t], s.threads[to];
    s.(threads := s.threads[t := from.(held := from.held - multiset{h})][to := dest.(held := dest.held + multiset{h})])
  }

  /** Only who has what changes. */
  lemma MovedOnly(s: State, t: nat, h: Handle, to: nat)
    requires t < |s.threads| && to < |s.threads| && t != to
    ensures var n := Moved(s, t, h, to);
      && n == s.(threads := n.threads) && |n.threads| == |s.threads|
      && forall i :: 0 <= i < |s.threads| ==> n.threads[i] == s.threads[i].(held := n.threads[i].held)
  {
  }

  /** A thread sleeps on cell c. */
  predicate Asleep(pc: Pc, c: nat) { pc.Blocked? && pc.c == c }

  /** notify_all: the threads asleep on c look again. */
  function Woken(threads: seq<Thread>, c: nat): (woken: seq<Thread>)
    ensures |woken| == |threads|
    ensures forall i :: 0 <= i < |threads| ==> woken[i] == threads[i].(pc := woken[i].pc)
    ensures forall i :: 0 <= i < |threads| ==>
      woken[i].pc == if Asleep(threads[i].pc, c) then Wait(threads[i].pc.op, c, threads[i].pc.v) else threads[i].pc
  {
    seq(|threads|, i requires 0 <= i < |threads| =>
      if Asleep(threads[i].pc, c) then threads[i].(pc := Wait(threads[i].pc.op, c, threads[i].pc.v)) else threads[i])
  }

  /** The cell a thread is working on exists. */
  predicate InRange(s: State, pc: Pc) {
    match pc
    case Idle => true
    case Drop(_) => true
    case Delete(_, _) => true
    case Crashed => true
    case _ => pc.c < |s.cells|
  }

  predicate Placed(s: State) { forall i :: 0 <= i < |s.threads| ==> InRange(s, s.threads[i].pc) }

  function Next(s: State, t: nat, a: Action): State
    requires Placed(s) && Enabled(s, t, a)
  {
    var th := s.threads[t];
    match a
    case Call(op, c) => At(if op == LockOp then s else Begun(s, t), t, Seek(op, c))
    case CallTryLock(c) => At(s, t, TryLocking(c, Word(s.cells[c].word.ptr, false, false)))
    case CallGet => Get(s, t, th.pc.c)
    case CallSet(d) => At(Begun(s, t), t, Setting(th.pc.c, d, s.cells[th.pc.c].word))
    case CallUnlock => At(s, t, Unlocking(th.pc.c, s.cells[th.pc.c].word.ptr))
    case New(h) => With(s, t, Idle, th.held + multiset{h}).(counts := s.counts[h := 1])
    case Copy(h) => With(s, t, Idle, th.held + multiset{h}).(counts := Add(s, h, 1))
    case Destroy(h) => At(s, t, Drop([h]))
    case Give(h, to) => Moved(s, t, h, to)
    case WakeUp => At(s, t, Wait(th.pc.op, th.pc.c, th.pc.v))
    case Go(spurious) => Proceed(s, t, spurious)
  }

  function Get(s: State, t: nat, c: nat): State
    requires t < |s.threads| && c < |s.cells|
  {
    var cell, e := s.cells[c], Entry(LoadOp, s.cells[c].word.ptr);
    At(Told(Begun(Swap(s, c, cell.word, cell.owner, [e]), t), t, e), t, Getting(c, cell.word.ptr))
  }

  function Proceed(s: State, t: nat, spurious: bool): State
    requires Placed(s) && Enabled(s, t, Go(spurious))
  {
    var th := s.threads[t];
    match th.pc
    case Seek(op, c) => At(s, t, Try(op, c, s.cells[c].word))
    case Try(op, c, v) => TryLock(s, t, op, c, v, spurious)
    case Wait(op, c, v) => At(s, t, if s.cells[c].word == v then Blocked(op, c, v) else Seek(op, c))
    case Locked(op, c, h) => Borrow(s, t, op, c, h)
    case Storing(op, c, h) => StoreAndUnlock(s, t, op, c, h)
    case Notify(c, drops) => At(s.(threads := Woken(s.threads, c)), t, Drop(drops))
    case Drop(drops) => if drops == [] then At(s, t, Idle) else Release(s, t, drops[0], drops[1..])
    case Delete(h, drops) =>
      At(s, t, Drop(drops)).(deleted := s.deleted + multiset{h}, deleters := s.deleters - {h})
    case Getting(c, h) => With(s, t, Holding(c), th.held + Ref(h)).(counts := Add(s, h, 1))
    case Setting(c, d, v) => Set(s, t, c, d, v, spurious)
    case Unlocking(c, h) => Unlock(s, t, c, h)
    case TryLocking(c, v) =>
      if spurious || s.cells[c].word != v then At(s, t, Idle)
      else At(Swap(s, c, v.(locked := true), By(t), []), t, Holding(c))
  }

  /** One turn of the loop in lock_and_load. */
  function TryLock(s: State, t: nat, op: Op, c: nat, v: Word, spurious: bool): State
    requires t < |s.threads| && c < |s.cells|
  {
    var word := s.cells[c].word;
    if v.locked && v.waiting then At(s, t, Crashed)
    else if v.waiting then At(s, t, Wait(op, c, v))
    else if spurious || word != v then At(s, t, Try(op, c, word))
    else if v.locked then
      At(Swap(s, c, Word(v.ptr, false, true), s.cells[c].owner, []), t, Wait(op, c, Word(v.ptr, false, true)))
    else
      At(Swap(s, c, v.(locked := true), By(t), []), t, if op == LockOp then Holding(c) else Locked(op, c, v.ptr))
  }

  /** With the lock, the handle found needs no reference of its own, until it is to outlive the lock. */
  function Borrow(s: State, t: nat, op: Op, c: nat, h: Handle): State
    requires t < |s.threads|
  {
    if Replaces(op, h) then At(s, t, Storing(op, c, h))
    else With(s, t, Storing(op, c, h), s.threads[t].held + Ref(h)).(counts := Add(s, h, 1))
  }

  /** The exchange: a new value brings its reference into the cell and the old one leaves with its own. */
  function StoreAndUnlock(s: State, t: nat, op: Op, c: nat, h: Handle): State
    requires t < |s.threads| && c < |s.cells|
  {
    var n := NewValue(op, h);
    var held := s.threads[t].held;
    var after := if Replaces(op, h) then held - Ref(n) + Ref(h) else held;
    var e := Entry(op, h);
    With(Told(Swap(s, c, Word(n, false, false), Nobody, [e]), t, e), t, Leave(s.cells[c].word, c, Dropped(op, h)),
      after)
  }

  /** notify_all only if somebody waits. */
  function Leave(before: Word, c: nat, drops: seq<Handle>): Pc {
    if before.waiting then Notify(c, drops) else Drop(drops)
  }

  function Release(s: State, t: nat, h: Handle, drops: seq<Handle>): State
    requires t < |s.threads|
  {
    if h == NULL then At(s, t, Drop(drops))
    else
      var after := With(s, t, Drop(drops), s.threads[t].held - multiset{h}).(counts := Add(s, h, -1));
      if Count(s, h) - 1 == 0 then At(after, t, Delete(h, drops)).(deleters := s.deleters[h := t]) else after
  }

  /** The lock bits may change under a set(), the pointer may not. */
  function Set(s: State, t: nat, c: nat, d: Handle, v: Word, spurious: bool): State
    requires t < |s.threads| && c < |s.cells|
  {
    var word := s.cells[c].word;
    if spurious || word != v then At(s, t, Setting(c, d, word))
    else
      var e := Entry(ExchangeOp(d), v.ptr);
      With(Told(Swap(s, c, v.(ptr := d), s.cells[c].owner, [e]), t, e), t, Holding(c),
        s.threads[t].held - Ref(d) + Ref(v.ptr))
  }

  function Unlock(s: State, t: nat, c: nat, h: Handle): State
    requires t < |s.threads| && c < |s.cells|
  {
    At(Swap(s, c, Word(h, false, false), Nobody, []), t, Leave(s.cells[c].word, c, []))
  }

  // ---- the lock ----

  /** Thread pc is between taking and giving up the lock of c. */
  predicate Owns(pc: Pc, c: nat) {
    match pc
    case Locked(_, d, _) => c == d
    case Storing(_, d, _) => c == d
    case Holding(d) => c == d
    case Getting(d, _) => c == d
    case Setting(d, _, _) => c == d
    case Unlocking(d, _) => c == d
    case _ => false
  }

  /** What an entry does to a register. */
  function Value(log: seq<Entry>): Handle {
    if log == [] then NULL
    else var e := log[|log| - 1]; NewValue(e.op, Value(log[..|log| - 1]))
  }

  /** Every operation found what a plain register would have held. */
  predicate Linear(log: seq<Entry>) {
    forall i :: 0 <= i < |log| ==> log[i].seen == Value(log[..i])
  }

  predicate CellOk(cell: Cell, threads: nat) {
    && !(cell.word.locked && cell.word.waiting)
    && (cell.owner == Nobody <==> cell.word.Free())
    && (cell.owner.By? ==> cell.owner.t < threads)
    && Linear(cell.log) && Value(cell.log) == cell.word.ptr
  }

  /** What is known where a thread is: it never sees both bits, and with the lock the pointer stands still. */
  predicate Sound(cells: seq<Cell>, pc: Pc) {
    match pc
    case Seek(_, c) => c < |cells|
    case Try(_, c, v) => c < |cells| && !(v.locked && v.waiting)
    case Wait(_, c, v) => c < |cells| && v.waiting && !v.locked
    case Blocked(_, c, v) => c < |cells| && v.waiting && !v.locked
    case Locked(op, c, h) => c < |cells| && cells[c].word.ptr == h && op != LockOp
    case Storing(op, c, h) => c < |cells| && cells[c].word.ptr == h && op != LockOp
    case Notify(c, _) => c < |cells|
    case Holding(c) => c < |cells|
    case Getting(c, h) => c < |cells| && cells[c].word.ptr == h
    case Setting(c, _, v) => c < |cells| && !v.Free() && !(v.locked && v.waiting)
    case Unlocking(c, h) => c < |cells| && cells[c].word.ptr == h
    case TryLocking(c, v) => c < |cells| && v.Free()
    case Crashed => false
    case _ => true
  }

  predicate ThreadOk(cells: seq<Cell>, pc: Pc, t: nat) {
    Sound(cells, pc) && forall c :: 0 <= c < |cells| ==> (cells[c].owner == By(t) <==> Owns(pc, c))
  }

  /** At most one thread has the lock of a cell, the bits say whether one has, and the log explains the pointer. */
  predicate Guarded(s: State) {
    && (forall c :: 0 <= c < |s.cells| ==> CellOk(s.cells[c], |s.threads|))
    && (forall i :: 0 <= i < |s.threads| ==> ThreadOk(s.cells, s.threads[i].pc, i))
  }

  /** How thread t may change a cell: lock it, unlock it if it is t's, and only then move the pointer. */
  predicate Entitled(before: Cell, after: Cell, t: nat) {
    && (after.owner == before.owner || (before.owner == Nobody && after.owner == By(t))
         || (before.owner == By(t) && after.owner == Nobody))
    && (after.word.ptr == before.word.ptr || before.owner == By(t))
  }

  /** The step of one thread on one cell. */
  lemma CellStep(s: State, n: State, t: nat, c: nat)
    requires Guarded(s) && t < |s.threads| == |n.threads| && c < |s.cells| == |n.cells|
    requires n.threads == s.threads[t := n.threads[t]] && n.cells == s.cells[c := n.cells[c]]
    requires Entitled(s.cells[c], n.cells[c], t) && CellOk(n.cells[c], |s.threads|)
    requires ThreadOk(n.cells, n.threads[t].pc, t)
    ensures Guarded(n)
  {
    hide Linear, Value;
    forall i | 0 <= i < |s.threads| && i != t ensures ThreadOk(n.cells, n.threads[i].pc, i) {
      assert ThreadOk(s.cells, s.threads[i].pc, i);
    }
  }

  /** The step of one thread on no cell. */
  lemma ThreadStep(s: State, n: State, t: nat)
    requires Guarded(s) && t < |s.threads| == |n.threads|
    requires n.cells == s.cells && n.threads == s.threads[t := n.threads[t]]
    requires ThreadOk(n.cells, n.threads[t].pc, t)
    ensures Guarded(n)
  {
    hide Linear, Value, CellOk, ThreadOk;
  }

  lemma LogGrows(log: seq<Entry>, e: Entry)
    requires Linear(log) && e.seen == Value(log)
    ensures Linear(log + [e]) && Value(log + [e]) == NewValue(e.op, e.seen)
  {
    var more := log + [e];
    assert more[..|log|] == log;
    forall i | 0 <= i < |more| ensures more[i].seen == Value(more[..i]) {
      if i < |log| { assert more[..i] == log[..i]; }
    }
  }

  lemma GuardedIsPlaced(s: State)
    requires Guarded(s)
    ensures Placed(s)
  {
  }

  lemma GuardedKept(s: State, t: nat, a: Action)
    requires Guarded(s) && Placed(s) && Enabled(s, t, a)
    ensures Guarded(Next(s, t, a))
  {
    hide Guarded, Placed, CellOk, Proceed, Get, Moved;
    Here(s, t);
    if a.Give? {
      GuardedByGive(s, t, a.h, a.to);
    } else if a.Go? {
      GuardedBySteps(s, t, a.spurious);
    } else if a == CallGet {
      GuardedByGet(s, t, s.threads[t].pc.c);
    } else if s.threads[t].pc.Holding? || s.threads[t].pc.Blocked? {
      GuardedByUser(s, t, a);
    } else {
      ThreadStep(s, Next(s, t, a), t);
    }
  }

  lemma GuardedByGive(s: State, t: nat, h: Handle, to: nat)
    requires Guarded(s) && t < |s.threads| && to < |s.threads| && t != to
    ensures Guarded(Moved(s, t, h, to))
  {
    hide CellOk, ThreadOk, Moved;
    MovedOnly(s, t, h, to);
  }

  /** The lock holder calls on, or a sleeper wakes up. */
  lemma GuardedByUser(s: State, t: nat, a: Action)
    requires Guarded(s) && Placed(s) && Enabled(s, t, a) && (a == CallUnlock || a == WakeUp || a.CallSet?)
    ensures Guarded(Next(s, t, a))
  {
    hide Guarded, Placed, CellOk, Sound, Owns;
    Here(s, t);
    BitsHere(s, t);
    SoundUser(s.cells, s.threads[t].pc, Next(s, t, a).threads[t].pc);
    ThreadStep(s, Next(s, t, a), t);
  }

  lemma SoundUser(cells: seq<Cell>, pc: Pc, after: Pc)
    requires Sound(cells, pc)
      && (pc.Holding? ==> !cells[pc.c].word.Free() && !(cells[pc.c].word.locked && cells[pc.c].word.waiting))
    requires match pc
      case Holding(c) => after == Unlocking(c, cells[c].word.ptr)
        || (after.Setting? && after.c == c && after.v == cells[c].word)
      case Blocked(op, c, v) => after == Wait(op, c, v)
      case _ => false
    ensures Sound(cells, after) && forall c :: Owns(after, c) == Owns(pc, c)
  {
  }

  /** The lock holder finds one of the bits set, and not both. */
  lemma BitsHere(s: State, t: nat)
    requires Guarded(s) && t < |s.threads|
    ensures s.threads[t].pc.Holding? ==>
      var c := s.threads[t].pc.c;
        c < |s.cells| && !s.cells[c].word.Free() && !(s.cells[c].word.locked && s.cells[c].word.waiting)
  {
    hide Linear, Value;
    assert ThreadOk(s.cells, s.threads[t].pc, t);
    if s.threads[t].pc.Holding? { assert CellOk(s.cells[s.threads[t].pc.c], |s.threads|); }
  }

  /** What Guarded says of one thread and its cell. */
  lemma Here(s: State, t: nat)
    requires Guarded(s) && t < |s.threads|
    ensures ThreadOk(s.cells, s.threads[t].pc, t)
    ensures forall c :: 0 <= c < |s.cells| ==> CellOk(s.cells[c], |s.threads|)
  {
  }

  lemma GuardedByGet(s: State, t: nat, c: nat)
    requires Guarded(s) && t < |s.threads| && s.threads[t].pc == Holding(c) && c < |s.cells|
    ensures Guarded(Get(s, t, c))
  {
    hide Guarded;
    Here(s, t);
    LogGrows(s.cells[c].log, Entry(LoadOp, s.cells[c].word.ptr));
    CellStep(s, Get(s, t, c), t, c);
  }

  lemma GuardedBySteps(s: State, t: nat, spurious: bool)
    requires Guarded(s) && Placed(s) && Enabled(s, t, Go(spurious))
    ensures Guarded(Proceed(s, t, spurious))
  {
    hide Guarded, Placed, TryLock, Borrow, StoreAndUnlock, Release, Set, Unlock;
    Here(s, t);
    match s.threads[t].pc {
      case Try(op, c, v) => GuardedByTry(s, t, op, c, v, spurious);
      case Locked(op, c, h) => GuardedByBorrow(s, t, op, c, h);
      case Storing(op, c, h) => GuardedByStore(s, t, op, c, h);
      case Notify(c, drops) => GuardedByNotify(s, t, c, drops);
      case Drop(drops) => GuardedByDrop(s, t, drops);
      case Setting(c, d, v) => GuardedBySet(s, t, c, d, v, spurious);
      case Unlocking(c, h) => GuardedByUnlock(s, t, c, h);
      case TryLocking(c, v) => GuardedByTryLock(s, t, c, v, spurious);
      case Seek(_, _) => ThreadStep(s, Proceed(s, t, spurious), t);
      case Wait(_, _, _) => ThreadStep(s, Proceed(s, t, spurious), t);
      case Delete(_, _) => ThreadStep(s, Proceed(s, t, spurious), t);
      case Getting(_, _) => ThreadStep(s, Proceed(s, t, spurious), t);
      case _ =>
    }
  }

  lemma GuardedByTry(s: State, t: nat, op: Op, c: nat, v: Word, spurious: bool)
    requires Guarded(s) && t < |s.threads| && s.threads[t].pc == Try(op, c, v) && c < |s.cells|
    ensures Guarded(TryLock(s, t, op, c, v, spurious))
  {
    hide Guarded, Linear, Value;
    Here(s, t);
    var n := TryLock(s, t, op, c, v, spurious);
    assert s.cells[c].log + [] == s.cells[c].log;
    if n.cells == s.cells { ThreadStep(s, n, t); } else { CellStep(s, n, t, c); }
  }

  lemma GuardedByBorrow(s: State, t: nat, op: Op, c: nat, h: Handle)
    requires Guarded(s) && t < |s.threads| && s.threads[t].pc == Locked(op, c, h)
    ensures Guarded(Borrow(s, t, op, c, h))
  {
    hide Guarded;
    Here(s, t);
    ThreadStep(s, Borrow(s, t, op, c, h), t);
  }

  lemma GuardedByStore(s: State, t: nat, op: Op, c: nat, h: Handle)
    requires Guarded(s) && t < |s.threads| && s.threads[t].pc == Storing(op, c, h) && c < |s.cells|
    ensures Guarded(StoreAndUnlock(s, t, op, c, h))
  {
    hide Guarded, Linear, Value, Ref, NewValue, Dropped;
    Here(s, t);
    LogGrows(s.cells[c].log, Entry(op, h));
    CellStep(s, StoreAndUnlock(s, t, op, c, h), t, c);
  }

  lemma GuardedByUnlock(s: State, t: nat, c: nat, h: Handle)
    requires Guarded(s) && t < |s.threads| && s.threads[t].pc == Unlocking(c, h) && c < |s.cells|
    ensures Guarded(Unlock(s, t, c, h))
  {
    hide Guarded, Linear, Value;
    Here(s, t);
    assert s.cells[c].log + [] == s.cells[c].log;
    CellStep(s, Unlock(s, t, c, h), t, c);
  }

  lemma GuardedBySet(s: State, t: nat, c: nat, d: Handle, v: Word, spurious: bool)
    requires Guarded(s) && t < |s.threads| && s.threads[t].pc == Setting(c, d, v) && c < |s.cells|
    ensures Guarded(Set(s, t, c, d, v, spurious))
  {
    hide Guarded, Linear, Value, Ref;
    Here(s, t);
    var n := Set(s, t, c, d, v, spurious);
    if spurious || s.cells[c].word != v {
      ThreadStep(s, n, t);
    } else {
      LogGrows(s.cells[c].log, Entry(ExchangeOp(d), v.ptr));
      CellStep(s, n, t, c);
    }
  }

  lemma GuardedByTryLock(s: State, t: nat, c: nat, v: Word, spurious: bool)
    requires Guarded(s) && Placed(s) && t < |s.threads| && s.threads[t].pc == TryLocking(c, v) && c < |s.cells|
    ensures Guarded(Proceed(s, t, spurious))
  {
    hide Guarded, Placed, Linear, Value;
    Here(s, t);
    var n := Proceed(s, t, spurious);
    assert s.cells[c].log + [] == s.cells[c].log;
    if n.cells == s.cells { ThreadStep(s, n, t); } else { CellStep(s, n, t, c); }
  }

  lemma GuardedByDrop(s: State, t: nat, drops: seq<Handle>)
    requires Guarded(s) && Placed(s) && t < |s.threads| && s.threads[t].pc == Drop(drops)
    ensures Guarded(Proceed(s, t, false)) && Guarded(Proceed(s, t, true))
  {
    hide Guarded, Placed;
    Here(s, t);
    ThreadStep(s, Proceed(s, t, false), t);
  }

  lemma GuardedByNotify(s: State, t: nat, c: nat, drops: seq<Handle>)
    requires Guarded(s) && t < |s.threads| && s.threads[t].pc == Notify(c, drops)
    ensures Guarded(At(s.(threads := Woken(s.threads, c)), t, Drop(drops)))
  {
    hide Linear, Value, CellOk;
    var n := At(s.(threads := Woken(s.threads, c)), t, Drop(drops));
    forall i | 0 <= i < |s.threads| ensures ThreadOk(n.cells, n.threads[i].pc, i) {
      assert ThreadOk(s.cells, s.threads[i].pc, i);
    }
  }
}

/**
 The life of a session and its output, as many threads run it: every atomic operation on the status
 and every locked section of the write queue is one step of one thread, and any thread may take the
 next step. A call made from inside a handler is a call of another thread that finishes before the
 caller moves on, so it is among the interleavings.
 */
module SessionSteps {
  import opened Wrappers
  import opened WriteQueue

  /** A buffer, by name. */
  type Buffer = nat

  type Status = s: nat | s <= 4
  const CONNECTING: Status := 0
  const CONNECTED: Status := 1
  const READING: Status := 2
  const CLOSING: Status := 3
  const CLOSED: Status := 4

  /** What a thread is about to do. */
  datatype Pc =
    | Idle
    | WriteEntry(list: seq<Buffer>)   // write(list): the test of the status
    | Splicing(list: seq<Buffer>)     // manage(): the buffers are copied, the splice comes
    | WriteTest                       // write(): the test of the status
    | Marking
    | Starting                        // mark() was positive
    | ClosingTest                     // mark() was zero
    | CloseLoad(now: bool)
    | CloseCas(now: bool, current: Status)
    | HandlerClose                    // this thread made the session closed
    | Reporting                       // the write is complete: handler::write
    | Clearing

  /** Who answers for the marked batch. */
  datatype Owner = NoOwner | InFlight | Held(t: nat) | Broken(t: nat)

  /**
   status, queue, inFlight (writes handed to the operating system) and pcs are the program's. The
   rest records what happened: the lists of all manage() calls in splice order and how many of them
   are taken and cleared, the batches sent and those reported to the handler, whose the batch is,
   runs of handler::close and threads about to run it, stores of connected over closed and over
   closing or closed, closings won, and the number of buffers queued when closing began; the lists that
   write() was called with, and of those the ones turned away, with the status at which they were.
   */
  datatype Session = Session(status: Status, queue: Queue<Buffer>, inFlight: nat, pcs: seq<Pc>,
    calls: seq<seq<Buffer>>, cleared: nat, taken: nat, sent: seq<seq<Buffer>>, reported: seq<seq<Buffer>>,
    owner: Owner, closes: nat, closers: set<nat>, reopened: nat, lowered: nat, shuts: nat, line: nat,
    offered: seq<seq<Buffer>>, refused: seq<seq<Buffer>>, refusedAt: seq<Status>)

  function Init(threads: nat): Session {
    Session(CONNECTING, Queue([], [], 0), 0, seq(threads, i => Idle), [], 0, 0, [], [], NoOwner, 0, {}, 0, 0, 0, 0,
      [], [], [])
  }

  datatype Action =
    | CallWrite(list: seq<Buffer>)
    | CallClose(now: bool)     // also a failed connect (true) and a failed read (false)
    | ConnectDone
    | CallRead
    | ReadNone                 // read() under protocol none gives reading back
    | WriteDone                // the operating system has sent the batch
    | WriteFailed
    | Go(spurious: bool)       // the next step of a call; a weak compare-and-swap may fail for no reason

  predicate Enabled(s: Session, t: nat, a: Action) {
    && t < |s.pcs|
    && match a
       case Go(_) => s.pcs[t] != Idle
       case WriteDone => s.pcs[t] == Idle && s.inFlight > 0
       case WriteFailed => s.pcs[t] == Idle && s.inFlight > 0
       case _ => s.pcs[t] == Idle
  }

  function At(s: Session, t: nat, pc: Pc): Session
    requires t < |s.pcs|
  {
    s.(pcs := s.pcs[t := pc])
  }

  function Next(s: Session, t: nat, a: Action): Session
    requires Enabled(s, t, a)
  {
    match a
    case CallWrite(list) => At(s, t, WriteEntry(list)).(offered := s.offered + [list])
    case CallClose(now) => At(s, t, CloseLoad(now))
    case ConnectDone =>
      s.(status := CONNECTED,
         reopened := s.reopened + (if s.status == CLOSED then 1 else 0),
         lowered := s.lowered + (if s.status >= CLOSING then 1 else 0))
    case CallRead => s.(status := if s.status == CONNECTED then READING else s.status)
    case ReadNone => s.(status := if s.status == READING then CONNECTED else s.status)
    case WriteDone => At(s, t, Reporting).(inFlight := s.inFlight - 1, owner := Held(t))
    case WriteFailed => At(s, t, CloseLoad(true)).(inFlight := s.inFlight - 1, owner := Broken(t))
    case Go(spurious) => Proceed(s, t, spurious)
  }

  function Target(now: bool): Status { if now then CLOSED else CLOSING }

  /** Where close() goes once it has seen a status: out, or to the compare-and-swap. */
  function Closing(now: bool, current: Status): Pc {
    if current >= Target(now) then Idle else CloseCas(now, current)
  }

  function Proceed(s: Session, t: nat, spurious: bool): Session
    requires t < |s.pcs| && s.pcs[t] != Idle
  {
    match s.pcs[t]
    case WriteEntry(list) =>
      if s.status >= CLOSING then
        At(s, t, Idle).(refused := s.refused + [list], refusedAt := s.refusedAt + [s.status])
      else At(s, t, Splicing(list))
    case Splicing(list) => At(s, t, WriteTest).(queue := s.queue.Manage(list), calls := s.calls + [list])
    case WriteTest => At(s, t, if s.status >= CLOSED then Idle else Marking)
    case Marking => Take(s, t)
    case Starting => At(s, t, Idle).(inFlight := s.inFlight + 1, owner := InFlight)
    case ClosingTest => At(s, t, if s.status == CLOSING then CloseLoad(true) else Idle)
    case CloseLoad(now) => At(s, t, Closing(now, s.status))
    case CloseCas(now, current) =>
      if spurious || s.status != current then At(s, t, Closing(now, s.status)) else Win(s, t, now)
    case HandlerClose => At(s, t, Idle).(closes := s.closes + 1, closers := s.closers - {t})
    case Reporting => At(s, t, Clearing).(reported := s.reported + [s.queue.marked])
    case Clearing =>
      At(s, t, WriteTest).(queue := s.queue.Clear(), sent := s.sent + [s.queue.marked], cleared := s.taken,
        owner := NoOwner)
  }

  /** mark() and the branch on its result. Calls of an empty list count as sent when nothing is left. */
  function Take(s: Session, t: nat): Session
    requires t < |s.pcs|
  {
    var (queue, r) := s.queue.Mark();
    if r > 0 then At(s, t, Starting).(queue := queue, taken := |s.calls|, owner := Held(t))
    else if r == 0 then At(s, t, ClosingTest).(taken := |s.calls|, cleared := |s.calls|)
    else At(s, t, Idle)
  }

  function Win(s: Session, t: nat, now: bool): Session
    requires t < |s.pcs|
  {
    if now then At(s, t, HandlerClose).(status := CLOSED, closers := s.closers + {t})
    else At(s, t, WriteTest).(status := CLOSING, shuts := s.shuts + 1, line := |Flat(s.calls)|)
  }

  // ---- runs ----

  /** The session as a system of threads. */
  function Move(s: Session, t: nat, a: Action): Option<Session> {
    if Enabled(s, t, a) then Some(Next(s, t, a)) else None
  }

  // ---- one batch, one owner ----

  predicate Owns(pc: Pc) { pc == Starting || pc == Reporting || pc == Clearing }

  /** The marked batch belongs to exactly one of: a thread, the operating system, a failed write. */
  predicate OneOwner(s: Session) {
    && s.queue.Valid()
    && (s.queue.marked == [] <==> s.owner == NoOwner)
    && s.inFlight == (if s.owner == InFlight then 1 else 0)
    && (s.owner.Held? ==> s.owner.t < |s.pcs|)
    && forall i :: 0 <= i < |s.pcs| ==> (Owns(s.pcs[i]) <==> s.owner == Held(i))
  }

  lemma OneOwnerKept(s: Session, t: nat, a: Action)
    requires OneOwner(s) && Enabled(s, t, a)
    ensures OneOwner(Next(s, t, a))
  {
    if a.Go? { OwnerKeptBySteps(s, t, a.spurious); }
  }

  lemma OwnerKeptBySteps(s: Session, t: nat, spurious: bool)
    requires OneOwner(s) && t < |s.pcs| && s.pcs[t] != Idle
    ensures OneOwner(Proceed(s, t, spurious))
  {
    hide Take, Win;
    if s.pcs[t] == Marking { OwnerKeptByTake(s, t); }
    if s.pcs[t].CloseCas? { OwnerKeptByWin(s, t, s.pcs[t].now); }
  }

  lemma OwnerKeptByTake(s: Session, t: nat)
    requires OneOwner(s) && t < |s.pcs| && s.pcs[t] == Marking
    ensures OneOwner(Take(s, t))
  {
    MarkSign(s.queue);
  }

  lemma OwnerKeptByWin(s: Session, t: nat, now: bool)
    requires OneOwner(s) && t < |s.pcs| && s.pcs[t].CloseCas?
    ensures OneOwner(Win(s, t, now))
  {
  }

  // ---- order of output ----

  /** Calls are sent in the order of their splices, each batch being made of whole calls. */
  predicate InOrder(s: Session) {
    && s.cleared <= s.taken <= |s.calls|
    && (s.queue.marked == [] ==> s.cleared == s.taken)
    && Flat(s.sent) == Flat(s.calls[..s.cleared])
    && s.queue.marked == Flat(s.calls[s.cleared..s.taken])
    && s.queue.managed == Flat(s.calls[s.taken..])
  }

  lemma InOrderKept(s: Session, t: nat, a: Action)
    requires InOrder(s) && OneOwner(s) && Enabled(s, t, a)
    ensures InOrder(Next(s, t, a))
  {
    hide Flat;
    if a.Go? {
      match s.pcs[t] {
        case Splicing(list) => SplicedInOrder(s, list);
        case Marking => if s.queue.marked == [] { TakenInOrder(s); }
        case Clearing => ClearedInOrder(s);
        case _ =>
      }
    }
  }

  lemma SplicedInOrder(s: Session, list: seq<Buffer>)
    requires InOrder(s)
    ensures InOrder(s.(queue := s.queue.Manage(list), calls := s.calls + [list]))
  {
    hide Flat;
    var calls := s.calls + [list];
    FlatSnoc(s.calls[s.taken..], list);
    assert calls[s.taken..] == s.calls[s.taken..] + [list];
    assert calls[..s.cleared] == s.calls[..s.cleared];
    assert calls[s.cleared..s.taken] == s.calls[s.cleared..s.taken];
  }

  lemma TakenInOrder(s: Session)
    requires InOrder(s) && s.queue.marked == []
    ensures s.queue.managed == [] ==> InOrder(s.(taken := |s.calls|, cleared := |s.calls|))
    ensures s.queue.managed != [] ==> InOrder(s.(queue := s.queue.Mark().0, taken := |s.calls|))
  {
    var n := |s.calls|;
    FlatCut(s.calls, s.taken, n);
    assert s.calls[s.taken..n] == s.calls[s.taken..];
    assert s.calls[n..] == [] && s.calls[n..n] == [];
    assert s.cleared == s.taken;
  }

  lemma ClearedInOrder(s: Session)
    requires InOrder(s)
    ensures InOrder(s.(queue := s.queue.Clear(), sent := s.sent + [s.queue.marked], cleared := s.taken))
  {
    FlatSnoc(s.sent, s.queue.marked);
    FlatCut(s.calls, s.cleared, s.taken);
  }

  /** The handler hears of every batch once, in order, just before it is cleared. */
  predicate Told(s: Session) {
    if s.owner.Held? && s.owner.t < |s.pcs| && s.pcs[s.owner.t] == Clearing then s.reported == s.sent + [s.queue.marked]
    else s.reported == s.sent
  }

  lemma ToldKept(s: Session, t: nat, a: Action)
    requires Told(s) && OneOwner(s) && Enabled(s, t, a)
    ensures Told(Next(s, t, a))
  {
    MarkSign(s.queue);
  }

  // ---- what becomes of the lists ----

  /** How many threads are about to test the status for a list, or about to queue it. */
  function InHand(pcs: seq<Pc>, list: seq<Buffer>): nat {
    if pcs == [] then 0 else InHand(pcs[..|pcs| - 1], list) + Carries(pcs[|pcs| - 1], list)
  }

  function Carries(pc: Pc, list: seq<Buffer>): nat {
    if pc == WriteEntry(list) || pc == Splicing(list) then 1 else 0
  }

  lemma {:induction false} InHandUpdate(pcs: seq<Pc>, t: nat, pc: Pc, list: seq<Buffer>)
    requires t < |pcs|
    ensures InHand(pcs[t := pc], list) + Carries(pcs[t], list) == InHand(pcs, list) + Carries(pc, list)
  {
    var n, after := |pcs| - 1, pcs[t := pc];
    if t == n {
      assert after[..n] == pcs[..n];
    } else {
      assert after[..n] == pcs[..n][t := pc];
      InHandUpdate(pcs[..n], t, pc, list);
    }
  }

  /** Of each list, as many calls are queued, turned away or still in hand as write() was called with it. */
  ghost predicate Accounts(s: Session, list: seq<Buffer>) {
    multiset(s.offered)[list] == multiset(s.calls)[list] + multiset(s.refused)[list] + InHand(s.pcs, list)
  }

  /** No list is lost on the way to the queue, and only a closing or closed session turns one away. */
  ghost predicate NoListLost(s: Session) {
    && (forall list :: Accounts(s, list))
    && |s.refusedAt| == |s.refused| && (forall i :: 0 <= i < |s.refusedAt| ==> s.refusedAt[i] >= CLOSING)
    && (s.refused != [] ==> s.status >= CLOSING || s.lowered > 0)
  }

  /** A step of thread t that leaves the records alone. */
  lemma ListsMove(s: Session, n: Session, t: nat)
    requires NoListLost(s) && t < |s.pcs| == |n.pcs| && n.pcs == s.pcs[t := n.pcs[t]]
    requires n.offered == s.offered && n.calls == s.calls && n.refused == s.refused && n.refusedAt == s.refusedAt
    requires forall list :: Carries(n.pcs[t], list) == Carries(s.pcs[t], list)
    requires s.status >= CLOSING || s.lowered > 0 ==> n.status >= CLOSING || n.lowered > 0
    ensures NoListLost(n)
  {
    hide InHand, Carries;
    forall list ensures Accounts(n, list) {
      assert Accounts(s, list);
      InHandUpdate(s.pcs, t, n.pcs[t], list);
    }
  }

  /** A list changes hands. */
  lemma ListMoves(s: Session, n: Session, t: nat, moved: seq<Buffer>)
    requires NoListLost(s) && t < |s.pcs| == |n.pcs| && n.pcs == s.pcs[t := n.pcs[t]]
    requires |n.refusedAt| == |n.refused| && forall i :: 0 <= i < |n.refusedAt| ==> n.refusedAt[i] >= CLOSING
    requires n.status == s.status && n.lowered == s.lowered && (n.refused != s.refused ==> n.status >= CLOSING)
    requires forall list :: Carries(n.pcs[t], list) == if list == moved && n.offered != s.offered then 1 else 0
    requires forall list :: Carries(s.pcs[t], list) == if list == moved && n.offered == s.offered then 1 else 0
    requires
      || (n.offered == s.offered + [moved] && n.calls == s.calls && n.refused == s.refused)
      || (n.offered == s.offered && n.calls == s.calls + [moved] && n.refused == s.refused)
      || (n.offered == s.offered && n.calls == s.calls && n.refused == s.refused + [moved])
    ensures NoListLost(n)
  {
    hide InHand, Carries;
    forall list ensures Accounts(n, list) {
      assert Accounts(s, list);
      InHandUpdate(s.pcs, t, n.pcs[t], list);
      assert multiset(s.offered + [moved]) == multiset(s.offered) + multiset{moved};
      assert multiset(s.calls + [moved]) == multiset(s.calls) + multiset{moved};
      assert multiset(s.refused + [moved]) == multiset(s.refused) + multiset{moved};
    }
  }

  lemma NoListLostKept(s: Session, t: nat, a: Action)
    requires NoListLost(s) && Aims(s) && Enabled(s, t, a)
    ensures NoListLost(Next(s, t, a))
  {
    hide NoListLost, Proceed, Aims;
    match a {
      case CallWrite(list) => ListOffered(s, t, list);
      case Go(spurious) => ListsBySteps(s, t, spurious);
      case _ => ListsMove(s, Next(s, t, a), t);
    }
  }

  lemma ListOffered(s: Session, t: nat, list: seq<Buffer>)
    requires NoListLost(s) && t < |s.pcs| && s.pcs[t] == Idle
    ensures NoListLost(Next(s, t, CallWrite(list)))
  {
    assert s.offered + [list] != s.offered by { assert |s.offered + [list]| == |s.offered| + 1; }
    hide InHand, Accounts;
    ListMoves(s, Next(s, t, CallWrite(list)), t, list);
  }

  lemma ListsBySteps(s: Session, t: nat, spurious: bool)
    requires NoListLost(s) && Aims(s) && t < |s.pcs| && s.pcs[t] != Idle
    ensures NoListLost(Proceed(s, t, spurious))
  {
    if s.pcs[t].CloseCas? { AimsHere(s, t); }
    hide Aims, InHand, Accounts, Queue.Mark, Queue.Manage, Queue.Clear, Flat;
    var n := Proceed(s, t, spurious);
    match s.pcs[t] {
      case WriteEntry(list) => if s.status >= CLOSING { ListMoves(s, n, t, list); } else { ListsMove(s, n, t); }
      case Splicing(list) => ListMoves(s, n, t, list);
      case _ => ListsMove(s, n, t);
    }
  }

  // ---- closing ----

  /** A compare-and-swap is tried only from a status below the target. */
  predicate Aims(s: Session) {
    forall i :: 0 <= i < |s.pcs| && s.pcs[i].CloseCas? ==> s.pcs[i].current < Target(s.pcs[i].now)
  }

  lemma AimsKept(s: Session, t: nat, a: Action)
    requires Aims(s) && Enabled(s, t, a)
    ensures Aims(Next(s, t, a))
  {
    hide Aims, Queue.Mark, Queue.Manage, Queue.Clear, Proceed;
    if a.Go? { AimsBySteps(s, t, a.spurious); } else { AimsHeld(s, Next(s, t, a), t); }
  }

  lemma AimsBySteps(s: Session, t: nat, spurious: bool)
    requires Aims(s) && t < |s.pcs| && s.pcs[t] != Idle
    ensures Aims(Proceed(s, t, spurious))
  {
    hide Aims, Queue.Mark, Queue.Manage, Queue.Clear, Take, Win;
    match s.pcs[t] {
      case Idle =>
      case Marking => AimsByTake(s, t);
      case CloseCas(now, _) =>
        AimsByWin(s, t, now);
        AimsHeld(s, At(s, t, Closing(now, s.status)), t);
      case _ => AimsHeld(s, Proceed(s, t, spurious), t);
    }
  }

  lemma AimsHeld(s: Session, n: Session, t: nat)
    requires Aims(s) && t < |s.pcs| == |n.pcs| && n.pcs == s.pcs[t := n.pcs[t]]
    requires n.pcs[t].CloseCas? ==> n.pcs[t].current < Target(n.pcs[t].now)
    ensures Aims(n)
  {
  }

  lemma AimsByTake(s: Session, t: nat)
    requires Aims(s) && t < |s.pcs|
    ensures Aims(Take(s, t))
  {
    hide Aims, Queue.Mark;
    AimsHeld(s, Take(s, t), t);
  }

  lemma AimsByWin(s: Session, t: nat, now: bool)
    requires Aims(s) && t < |s.pcs|
    ensures Aims(Win(s, t, now))
  {
    hide Aims, Flat;
    AimsHeld(s, Win(s, t, now), t);
  }

  /** Each store of closed leads to one run of handler::close; only a store of connected allows another. */
  predicate ClosesCounted(s: Session) {
    && (forall i :: 0 <= i < |s.pcs| ==> (s.pcs[i] == HandlerClose <==> i in s.closers))
    && (forall i :: i in s.closers ==> i < |s.pcs|)
    && s.closes + |s.closers| == (if s.status == CLOSED then 1 else 0) + s.reopened
    && s.shuts <= (if s.status >= CLOSING then 1 else 0) + s.lowered
  }

  lemma ClosesCountedKept(s: Session, t: nat, a: Action)
    requires ClosesCounted(s) && Aims(s) && Enabled(s, t, a)
    ensures ClosesCounted(Next(s, t, a))
  {
    hide ClosesCounted, Proceed;
    if a == ConnectDone {
      StoreCounted(s);
    } else if a.Go? {
      CountedBySteps(s, t, a.spurious);
    } else {
      OthersCounted(s, t, Next(s, t, a));
    }
  }

  lemma CountedBySteps(s: Session, t: nat, spurious: bool)
    requires ClosesCounted(s) && Aims(s) && t < |s.pcs| && s.pcs[t] != Idle
    ensures ClosesCounted(Proceed(s, t, spurious))
  {
    if s.pcs[t].CloseCas? { AimsHere(s, t); }
    hide ClosesCounted, Aims, Queue.Mark, Queue.Manage, Queue.Clear, Take, Win;
    if s.pcs[t].CloseCas? && s.status == s.pcs[t].current && !spurious {
      WinCounted(s, t, s.pcs[t].now);
    } else if s.pcs[t] == HandlerClose {
      RunCounted(s, t);
    } else if s.pcs[t] == Marking {
      TakeCounted(s, t);
    } else {
      OthersCounted(s, t, Proceed(s, t, spurious));
    }
  }

  lemma StoreCounted(s: Session)
    requires ClosesCounted(s)
    ensures forall t :: Enabled(s, t, ConnectDone) ==> ClosesCounted(Next(s, t, ConnectDone))
  {
  }

  lemma RunCounted(s: Session, t: nat)
    requires ClosesCounted(s) && t < |s.pcs| && s.pcs[t] == HandlerClose
    ensures ClosesCounted(Proceed(s, t, false)) && ClosesCounted(Proceed(s, t, true))
  {
  }

  lemma TakeCounted(s: Session, t: nat)
    requires ClosesCounted(s) && t < |s.pcs| && s.pcs[t] == Marking
    ensures ClosesCounted(Take(s, t))
  {
    hide Queue.Mark, ClosesCounted;
    OthersCounted(s, t, Take(s, t));
  }

  lemma OthersCounted(s: Session, t: nat, n: Session)
    requires ClosesCounted(s) && t < |s.pcs| && s.pcs[t] != HandlerClose
    requires |n.pcs| == |s.pcs| && n.pcs == s.pcs[t := n.pcs[t]] && n.pcs[t] != HandlerClose
    requires (n.closes, n.closers, n.reopened, n.lowered, n.shuts)
      == (s.closes, s.closers, s.reopened, s.lowered, s.shuts)
    requires (n.status == CLOSED) == (s.status == CLOSED) && (n.status >= CLOSING) == (s.status >= CLOSING)
    ensures ClosesCounted(n)
  {
  }

  lemma WinCounted(s: Session, t: nat, now: bool)
    requires ClosesCounted(s) && t < |s.pcs| && s.pcs[t].CloseCas? && s.status < Target(now)
    ensures ClosesCounted(Win(s, t, now))
  {
  }

  /** The status goes up, but for two stores of connected: over reading, and at the end of connecting. */
  lemma StatusRises(s: Session, t: nat, a: Action)
    requires Aims(s) && Enabled(s, t, a)
    ensures var after := Next(s, t, a).status;
      after >= s.status || a == ConnectDone || (a == ReadNone && s.status == READING && after == CONNECTED)
  {
    hide Queue.Mark, Queue.Manage, Queue.Clear;
  }

  // ---- nothing is stranded ----

  predicate ClosesNow(pc: Pc) { (pc.CloseLoad? || pc.CloseCas?) && pc.now }

  /** A failed write leaves its batch marked, but the thread that saw it closes the session. */
  predicate FailureCloses(s: Session) {
    s.owner.Broken? ==>
      s.reopened > 0 || s.status == CLOSED || (s.owner.t < |s.pcs| && ClosesNow(s.pcs[s.owner.t]))
  }

  lemma FailureClosesKept(s: Session, t: nat, a: Action)
    requires FailureCloses(s) && Aims(s) && OneOwner(s) && Enabled(s, t, a)
    ensures FailureCloses(Next(s, t, a))
  {
    MarkSign(s.queue);
  }

  predicate Marks(pc: Pc) { pc == WriteTest || pc == Marking }

  /** Somebody will look at the managed list again. */
  predicate Attended(s: Session) {
    s.owner != NoOwner || exists i :: 0 <= i < |s.pcs| && Marks(s.pcs[i])
  }

  predicate NothingStranded(s: Session) {
    s.queue.managed != [] && s.status < CLOSED && s.reopened == 0 ==> Attended(s)
  }

  lemma AttendedHere(n: Session, t: nat)
    requires t < |n.pcs| && Marks(n.pcs[t])
    ensures Attended(n)
  {
  }

  /** Whoever attended still does, or thread t, having marked, leaves it to the owner of a batch. */
  lemma AttendedMoves(s: Session, n: Session, t: nat)
    requires Attended(s) && t < |s.pcs| == |n.pcs| && n.pcs == s.pcs[t := n.pcs[t]]
    requires Marks(s.pcs[t]) || s.owner != NoOwner ==> Marks(n.pcs[t]) || n.owner != NoOwner
    ensures Attended(n)
  {
    if n.owner == NoOwner && !Marks(n.pcs[t]) {
      var i :| 0 <= i < |s.pcs| && Marks(s.pcs[i]);
      assert n.pcs[i] == s.pcs[i];
    }
  }

  lemma NothingStrandedKept(s: Session, t: nat, a: Action)
    requires NothingStranded(s) && Aims(s) && OneOwner(s) && Enabled(s, t, a)
    ensures NothingStranded(Next(s, t, a))
  {
    hide Attended, Flat, Proceed, OneOwner;
    if a.Go? {
      StrandedBySteps(s, t, a.spurious);
    } else {
      var n := Next(s, t, a);
      if n.queue.managed != [] && n.status < CLOSED && n.reopened == 0 { AttendedMoves(s, n, t); }
    }
  }

  lemma StrandedBySteps(s: Session, t: nat, spurious: bool)
    requires NothingStranded(s) && Aims(s) && OneOwner(s) && t < |s.pcs| && s.pcs[t] != Idle
    ensures NothingStranded(Proceed(s, t, spurious))
  {
    if s.pcs[t].CloseCas? { AimsHere(s, t); }
    hide Attended, Flat, Take, Queue.Mark, Aims;
    var n := Proceed(s, t, spurious);
    if s.pcs[t] == Marking {
      StrandedByTake(s, t);
    } else if n.queue.managed != [] && n.status < CLOSED && n.reopened == 0 {
      if s.pcs[t].Splicing? { AttendedHere(n, t); } else { AttendedMoves(s, n, t); }
    }
  }

  lemma StrandedByTake(s: Session, t: nat)
    requires NothingStranded(s) && OneOwner(s) && t < |s.pcs| && s.pcs[t] == Marking
    ensures NothingStranded(Take(s, t))
  {
    hide Attended, Flat;
    var n := Take(s, t);
    MarkSign(s.queue);
    if n.queue.managed != [] && n.status < CLOSED && n.reopened == 0 { AttendedMoves(s, n, t); }
  }

  predicate Finishes(pc: Pc) { Marks(pc) || pc == ClosingTest || ClosesNow(pc) }

  /** Somebody will close a closing session. */
  predicate ClosingEnds(s: Session) {
    s.status == CLOSING ==> InGoodHands(s)
  }

  predicate InGoodHands(s: Session) {
    s.owner != NoOwner || exists i :: 0 <= i < |s.pcs| && Finishes(s.pcs[i])
  }

  lemma GoodHandsHere(n: Session, t: nat)
    requires t < |n.pcs| && Finishes(n.pcs[t])
    ensures InGoodHands(n)
  {
  }

  lemma GoodHandsMove(s: Session, n: Session, t: nat)
    requires InGoodHands(s) && t < |s.pcs| == |n.pcs| && n.pcs == s.pcs[t := n.pcs[t]]
    requires Finishes(s.pcs[t]) || s.owner != NoOwner ==> Finishes(n.pcs[t]) || n.owner != NoOwner
    ensures InGoodHands(n)
  {
    if n.owner == NoOwner && !Finishes(n.pcs[t]) {
      var i :| 0 <= i < |s.pcs| && Finishes(s.pcs[i]);
      assert n.pcs[i] == s.pcs[i];
    }
  }

  lemma ClosingEndsKept(s: Session, t: nat, a: Action)
    requires ClosingEnds(s) && Aims(s) && OneOwner(s) && Enabled(s, t, a)
    ensures ClosingEnds(Next(s, t, a))
  {
    hide InGoodHands, Flat, Queue.Mark;
    var n := Next(s, t, a);
    MarkSign(s.queue);
    if n.status == CLOSING {
      if s.status == CLOSING { GoodHandsMove(s, n, t); } else { GoodHandsHere(n, t); }
    }
  }

  // ---- closing drains the queue ----

  /** No write fails, nobody asks to close at once, no connection is made on a closing session. */
  predicate Benign(s: Session, t: nat, a: Action) {
    a != WriteFailed && a != CallClose(true) && (a == ConnectDone ==> s.status < CLOSING)
  }

  /** Thread t is about to win close(false), so that closing begins. */
  predicate Begins(s: Session, t: nat) {
    t < |s.pcs| && s.pcs[t] == CloseCas(false, s.status)
  }

  /** Nothing is queued, or no thread stands between a mark() that found nothing and its look at the status. */
  predicate Settled(s: Session) {
    ClosingTest !in s.pcs || s.queue.Pending() == []
  }

  /** What a graceful close needs of a step: closing begins in a settled session. */
  predicate Careful(s: Session, t: nat, a: Action) {
    Benign(s, t, a) && (a == Go(false) && Begins(s, t) ==> Settled(s))
  }

  /** One call or callback at a time: the others are out, or inside a handler that makes this call. */
  predicate Alone(s: Session, t: nat) {
    forall i :: 0 <= i < |s.pcs| && i != t ==> s.pcs[i] == Idle || s.pcs[i] == Reporting || s.pcs[i] == HandlerClose
  }

  /** Only a closing session is being closed at once. */
  predicate Unrushed(s: Session) {
    forall i :: 0 <= i < |s.pcs| && ClosesNow(s.pcs[i]) ==> s.status >= CLOSING
  }

  lemma UnrushedKept(s: Session, t: nat, a: Action)
    requires Unrushed(s) && Aims(s) && Enabled(s, t, a) && Benign(s, t, a)
    ensures Unrushed(Next(s, t, a))
  {
    hide Unrushed, Flat, Queue.Mark, Queue.Manage, Queue.Clear, Take, Proceed;
    if a.Go? { UnrushedBySteps(s, t, a.spurious); } else { UnrushedHeld(s, Next(s, t, a), t); }
  }

  lemma UnrushedBySteps(s: Session, t: nat, spurious: bool)
    requires Unrushed(s) && Aims(s) && t < |s.pcs| && s.pcs[t] != Idle
    ensures Unrushed(Proceed(s, t, spurious))
  {
    RushHere(s, t);
    hide Unrushed, Aims, Flat, Queue.Mark, Queue.Manage, Queue.Clear;
    UnrushedHeld(s, Proceed(s, t, spurious), t);
  }

  lemma RushHere(s: Session, t: nat)
    requires Unrushed(s) && Aims(s) && t < |s.pcs|
    ensures ClosesNow(s.pcs[t]) ==> s.status >= CLOSING
    ensures s.pcs[t].CloseCas? ==> s.pcs[t].current < Target(s.pcs[t].now)
  {
  }

  lemma UnrushedHeld(s: Session, n: Session, t: nat)
    requires Unrushed(s) && t < |s.pcs| == |n.pcs| && n.pcs == s.pcs[t := n.pcs[t]]
    requires s.status >= CLOSING ==> n.status >= CLOSING
    requires ClosesNow(n.pcs[t]) ==> n.status >= CLOSING
    ensures Unrushed(n)
  {
  }

  /** What was queued when closing began has been sent. */
  predicate LineSent(s: Session) { s.line <= |Flat(s.sent)| }

  /** Whoever may close the session, or has, may do so. */
  predicate Drained(s: Session) {
    && s.status >= CLOSING
    && (s.status == CLOSED ==> LineSent(s))
    && (forall i :: 0 <= i < |s.pcs| && (s.pcs[i] == ClosingTest || ClosesNow(s.pcs[i])) ==> LineSent(s))
  }

  /** With nothing queued everything has been sent. */
  lemma AllSent(s: Session)
    requires InOrder(s)
    ensures Flat(s.sent) + s.queue.Pending() == Flat(s.calls)
  {
    hide Flat;
    FlatCut(s.calls, s.cleared, s.taken);
    FlatCut(s.calls, s.taken, |s.calls|);
    assert s.calls[..|s.calls|] == s.calls && s.calls[s.taken..|s.calls|] == s.calls[s.taken..];
  }

  /** Once closing has begun, every benign step keeps it. The line is at most what was queued. */
  lemma DrainedKept(s: Session, t: nat, a: Action)
    requires Drained(s) && s.line <= |Flat(s.calls)| && s.queue.Valid() && InOrder(s) && Aims(s) && Enabled(s, t, a)
      && Benign(s, t, a)
    ensures Drained(Next(s, t, a)) && Next(s, t, a).line <= |Flat(Next(s, t, a).calls)|
  {
    hide LineSent, Proceed, Flat, InOrder;
    if a.Go? { DrainedBySteps(s, t, a.spurious); } else { DrainedByOthers(s, Next(s, t, a), t); }
  }

  lemma DrainedBySteps(s: Session, t: nat, spurious: bool)
    requires Drained(s) && s.line <= |Flat(s.calls)| && s.queue.Valid() && InOrder(s) && Aims(s) && t < |s.pcs|
      && s.pcs[t] != Idle
    ensures var n := Proceed(s, t, spurious); Drained(n) && n.line <= |Flat(n.calls)|
  {
    hide Drained, Flat, InOrder, Take, Queue.Manage, Queue.Clear;
    var n := Proceed(s, t, spurious);
    match s.pcs[t] {
      case Marking => DrainedByTake(s, t);
      case Splicing(list) =>
        FlatSnoc(s.calls, list);
        DrainedByOthers(s, n, t);
      case Clearing =>
        FlatSnoc(s.sent, s.queue.marked);
        DrainedByOthers(s, n, t);
      case CloseCas(now, current) =>
        AimsHere(s, t);
        if spurious || s.status != current { DrainedByOthers(s, n, t); } else { DrainedByWin(s, t, now); }
      case _ => DrainedByOthers(s, n, t);
    }
  }

  lemma AimsHere(s: Session, t: nat)
    requires Aims(s) && t < |s.pcs| && s.pcs[t].CloseCas?
    ensures s.pcs[t].current < Target(s.pcs[t].now)
  {
  }

  lemma DrainedByTake(s: Session, t: nat)
    requires Drained(s) && s.line <= |Flat(s.calls)| && s.queue.Valid() && InOrder(s) && t < |s.pcs|
      && s.pcs[t] == Marking
    ensures var n := Take(s, t); Drained(n) && n.line <= |Flat(n.calls)|
  {
    AllSent(s);
    MarkSign(s.queue);
    assert |Flat(s.sent)| + |s.queue.Pending()| == |Flat(s.calls)|;
    hide Flat, InOrder;
  }

  lemma DrainedByWin(s: Session, t: nat, now: bool)
    requires Drained(s) && s.line <= |Flat(s.calls)| && t < |s.pcs| && s.pcs[t] == CloseCas(now, s.status)
      && s.status < Target(now)
    ensures var n := Win(s, t, now); Drained(n) && n.line <= |Flat(n.calls)|
  {
    hide Flat;
  }

  lemma DrainedByOthers(s: Session, n: Session, t: nat)
    requires Drained(s) && t < |s.pcs| && |n.pcs| == |s.pcs| && n.pcs == s.pcs[t := n.pcs[t]]
    requires n.status == s.status && n.line == s.line && |Flat(n.sent)| >= |Flat(s.sent)|
    requires n.pcs[t] == ClosingTest ==> s.pcs[t] == ClosingTest
    requires ClosesNow(n.pcs[t]) ==> ClosesNow(s.pcs[t]) || s.pcs[t] == ClosingTest
    ensures Drained(n)
  {
    hide Flat;
  }
}

/**
 What one call does to a session when no other thread comes in between, from any state.
 */
module SessionCalls {
  import opened WriteQueue
  import opened SessionSteps

  /** Thread t takes up to n steps of its call. */
  function Undisturbed(s: Session, t: nat, n: nat): (after: Session)
    requires t < |s.pcs|
    ensures |after.pcs| == |s.pcs|
    decreases n
  {
    if n == 0 || s.pcs[t] == Idle then s else Undisturbed(Proceed(s, t, false), t, n - 1)
  }

  lemma Stepwise(s: Session, t: nat, n: nat)
    requires t < |s.pcs|
    ensures n > 0 && s.pcs[t] != Idle ==>
      |Proceed(s, t, false).pcs| == |s.pcs| && Undisturbed(s, t, n) == Undisturbed(Proceed(s, t, false), t, n - 1)
    ensures n == 0 || s.pcs[t] == Idle ==> Undisturbed(s, t, n) == s
  {
  }

  /**
   write(list): a session that is not closing or closed, whether connecting, connected or reading, takes
   the whole list behind all that waits, and the thread goes on to write(). Any other turns it away.
   */
  lemma WriteIsTaken(s: Session, t: nat, list: seq<Buffer>)
    requires t < |s.pcs| && s.pcs[t] == Idle
    ensures var n, offered := Undisturbed(Next(s, t, CallWrite(list)), t, 2), s.offered + [list];
      n == if s.status in {CONNECTING, CONNECTED, READING} then
        s.(queue := Queue(s.queue.managed + list, s.queue.marked, s.queue.marker), calls := s.calls + [list],
           offered := offered, pcs := s.pcs[t := WriteTest])
      else s.(offered := offered, refused := s.refused + [list], refusedAt := s.refusedAt + [s.status])
  {
    hide Flat, Undisturbed;
    var a := Next(s, t, CallWrite(list));
    var b := Proceed(a, t, false);
    Stepwise(a, t, 2);
    Stepwise(b, t, 1);
    if b.pcs[t] != Idle { Stepwise(Proceed(b, t, false), t, 0); }
    assert s.pcs[t := Idle] == s.pcs;
    assert b.pcs[t] == Idle ==> b.pcs == s.pcs;
  }

  /** What it leaves to be sent. */
  lemma WriteIsPending(s: Session, t: nat, list: seq<Buffer>)
    requires t < |s.pcs| && s.pcs[t] == Idle
    ensures Undisturbed(Next(s, t, CallWrite(list)), t, 2).queue.Pending() ==
      s.queue.Pending() + if s.status < CLOSING then list else []
  {
    hide Undisturbed;
    WriteIsTaken(s, t, list);
    assert s.queue.marked + (s.queue.managed + list) == s.queue.marked + s.queue.managed + list;
  }

  /**
   write(): all that waits becomes the batch, and its write is started, if the session is not closed, no
   batch is being written and something waits.
   */
  lemma WriteIsStarted(s: Session, t: nat)
    requires t < |s.pcs| && s.pcs[t] == WriteTest && s.status < CLOSED && s.queue.marked == [] && s.queue.managed != []
    ensures var n := Undisturbed(s, t, 3);
      && n.queue.marked == s.queue.managed && n.queue.managed == [] && n.inFlight == s.inFlight + 1
      && n.pcs == s.pcs[t := Idle] && n.status == s.status && n.calls == s.calls && n.closes == s.closes
  {
    hide Flat, Undisturbed;
    var a := Proceed(s, t, false);
    var b := Proceed(a, t, false);
    Stepwise(s, t, 3);
    Stepwise(a, t, 2);
    Stepwise(b, t, 1);
    Stepwise(Proceed(b, t, false), t, 0);
  }

  /** Otherwise it leaves the queue alone; and a closing session with nothing more to send it closes. */
  lemma WriteStartsNothing(s: Session, t: nat)
    requires t < |s.pcs| && s.pcs[t] == WriteTest
    requires s.queue.Valid() && (s.status == CLOSED || s.queue.marked != [] || s.queue.managed == [])
    ensures var n := Undisturbed(s, t, 6);
      && n.queue == s.queue && n.inFlight == s.inFlight && n.pcs == s.pcs[t := Idle] && n.calls == s.calls
      && if s.status == CLOSING && s.queue.Pending() == [] then n.status == CLOSED && n.closes == s.closes + 1
         else n.status == s.status && n.closes == s.closes
  {
    hide Flat, Undisturbed;
    Stepwise(s, t, 6);
    var a := Proceed(s, t, false);
    Stepwise(a, t, 5);
    if s.status < CLOSED {
      var b := Proceed(a, t, false);
      Stepwise(b, t, 4);
      if s.queue.marked == [] {
        var c := Proceed(b, t, false);
        Stepwise(c, t, 3);
        if s.status == CLOSING { ClosesSoon(c, t); }
      }
    }
  }

  /** The rest of close(true), in a session that is not closed. */
  lemma ClosesSoon(s: Session, t: nat)
    requires t < |s.pcs| && s.pcs[t] == CloseLoad(true) && s.status < CLOSED
    ensures var n := Undisturbed(s, t, 3);
      && n.status == CLOSED && n.closes == s.closes + 1 && n.pcs == s.pcs[t := Idle]
      && n.queue == s.queue && n.inFlight == s.inFlight && n.calls == s.calls
  {
    hide Flat, Undisturbed;
    var a := Proceed(s, t, false);
    var b := Proceed(a, t, false);
    Stepwise(s, t, 3);
    Stepwise(a, t, 2);
    Stepwise(b, t, 1);
    Stepwise(Proceed(b, t, false), t, 0);
  }

  /** The look at the status after mark() found nothing, and a compare-and-swap that fails for no reason. */
  lemma LooksOnce(s: Session, t: nat)
    requires t < |s.pcs|
    ensures s.pcs[t] == ClosingTest ==>
      Undisturbed(s, t, 1) == s.(pcs := s.pcs[t := if s.status == CLOSING then CloseLoad(true) else Idle])
    ensures s.pcs[t].CloseCas? && s.status < (if s.pcs[t].now then CLOSED else CLOSING) ==>
      Proceed(s, t, true) == s.(pcs := s.pcs[t := CloseCas(s.pcs[t].now, s.status)])
  {
    hide Flat, Undisturbed;
    Stepwise(s, t, 1);
    if s.pcs[t] != Idle { Stepwise(Proceed(s, t, false), t, 0); }
  }

  /** close(true) closes a session that is not closed, and runs handler::close; else it does nothing. */
  lemma CloseNowCloses(s: Session, t: nat)
    requires t < |s.pcs| && s.pcs[t] == Idle
    ensures var n := Undisturbed(Next(s, t, CallClose(true)), t, 3);
      if s.status == CLOSED then n == s
      else
        && n.status == CLOSED && n.closes == s.closes + 1 && n.pcs == s.pcs && n.queue == s.queue
        && n.inFlight == s.inFlight
  {
    hide Flat, Undisturbed;
    var a := Next(s, t, CallClose(true));
    assert s.pcs[t := Idle] == s.pcs && s.pcs[t := CloseLoad(true)][t := Idle] == s.pcs;
    if s.status == CLOSED {
      Stepwise(a, t, 3);
      Stepwise(Proceed(a, t, false), t, 2);
    } else {
      ClosesSoon(a, t);
    }
  }

  /** close(false) begins closing and goes on to write(), unless closing has begun already. */
  lemma CloseGentlyBegins(s: Session, t: nat)
    requires t < |s.pcs| && s.pcs[t] == Idle
    ensures var n := Undisturbed(Next(s, t, CallClose(false)), t, 2);
      if s.status >= CLOSING then n == s
      else n == s.(status := CLOSING, pcs := s.pcs[t := WriteTest], shuts := s.shuts + 1, line := |Flat(s.calls)|)
  {
    hide Flat, Undisturbed;
    var a := Next(s, t, CallClose(false));
    var b := Proceed(a, t, false);
    Stepwise(a, t, 2);
    Stepwise(b, t, 1);
    if b.pcs[t] != Idle { Stepwise(Proceed(b, t, false), t, 0); }
    assert s.pcs[t := Idle] == s.pcs;
    assert b.pcs[t] == Idle ==> b.pcs == s.pcs;
  }

  /** A write that is complete: the handler hears of its batch, the batch is cleared, write() comes next. */
  lemma DoneIsReported(s: Session, t: nat)
    requires t < |s.pcs| && s.pcs[t] == Idle && s.inFlight > 0
    ensures var n := Undisturbed(Next(s, t, WriteDone), t, 2);
      && n.reported == s.reported + [s.queue.marked] && n.sent == s.sent + [s.queue.marked]
      && n.queue.marked == [] && n.queue.managed == s.queue.managed && n.inFlight == s.inFlight - 1
      && n.pcs == s.pcs[t := WriteTest] && n.status == s.status
  {
    hide Flat, Undisturbed;
    var a := Next(s, t, WriteDone);
    var b := Proceed(a, t, false);
    Stepwise(a, t, 2);
    Stepwise(b, t, 1);
    Stepwise(Proceed(b, t, false), t, 0);
  }

  /** A write that failed: nothing is reported as sent, and the session is closed. */
  lemma FailureIsClosing(s: Session, t: nat)
    requires t < |s.pcs| && s.pcs[t] == Idle && s.inFlight > 0
    ensures var n := Undisturbed(Next(s, t, WriteFailed), t, 3);
      && n.status == CLOSED && n.inFlight == s.inFlight - 1 && n.queue == s.queue && n.pcs == s.pcs
      && n.closes == s.closes + (if s.status == CLOSED then 0 else 1)
  {
    hide Flat, Undisturbed;
    var a := Next(s, t, WriteFailed);
    assert s.pcs[t := Idle] == s.pcs && s.pcs[t := CloseLoad(true)][t := Idle] == s.pcs;
    if s.status == CLOSED {
      Stepwise(a, t, 3);
      Stepwise(Proceed(a, t, false), t, 2);
    } else {
      ClosesSoon(a, t);
    }
  }

  /**
   The status under connect() and read(): a connection makes any session connected; reading starts in a
   connected one only, and under protocol none it is given back; a closing or closed one stays.
   */
  lemma StatusOfReading(s: Session, t: nat)
    requires t < |s.pcs| && s.pcs[t] == Idle
    ensures Next(s, t, ConnectDone).status == CONNECTED
    ensures Next(s, t, CallRead) == if s.status == CONNECTED then s.(status := READING) else s
    ensures Next(s, t, ReadNone) == if s.status == READING then s.(status := CONNECTED) else s
  {
  }
}

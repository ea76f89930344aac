/**
 Runs of systems of threads. A system says what a step of a thread leads to, if it can be taken.
 */
module Runs {
  import opened Wrappers

  /** Thread t takes step a. */
  datatype Event<A> = Event(t: nat, a: A)

  /** Every step of the run can be taken. */
  predicate Legal<S, A>(system: (S, nat, A) -> Option<S>, s: S, run: seq<Event<A>>)
    decreases |run|
  {
    run == [] ||
    var n := system(s, run[0].t, run[0].a);
    n.Some? && Legal(system, n.value, run[1..])
  }

  function After<S, A>(system: (S, nat, A) -> Option<S>, s: S, run: seq<Event<A>>): S
    requires Legal(system, s, run)
    decreases |run|
  {
    if run == [] then s else After(system, system(s, run[0].t, run[0].a).value, run[1..])
  }

  /** Every step of the run, where it is taken, is one of those allowed. */
  predicate Always<S, A>(system: (S, nat, A) -> Option<S>, allowed: (S, nat, A) -> bool, s: S, run: seq<Event<A>>)
    requires Legal(system, s, run)
    decreases |run|
  {
    run == [] ||
    (allowed(s, run[0].t, run[0].a) && Always(system, allowed, system(s, run[0].t, run[0].a).value, run[1..]))
  }

  lemma EmptyRun<S, A>(system: (S, nat, A) -> Option<S>, s: S)
    ensures Legal(system, s, []) && After(system, s, []) == s
  {
  }

  /** A run goes on with one more step. */
  lemma {:induction false} OneMore<S, A>(system: (S, nat, A) -> Option<S>, s: S, run: seq<Event<A>>, t: nat, a: A)
    requires Legal(system, s, run) && system(After(system, s, run), t, a).Some?
    ensures Legal(system, s, run + [Event(t, a)])
    ensures After(system, s, run + [Event(t, a)]) == system(After(system, s, run), t, a).value
    decreases |run|
  {
    var more := run + [Event(t, a)];
    if run == [] {
      assert more[1..] == [];
    } else {
      assert more[1..] == run[1..] + [Event(t, a)];
      OneMore(system, system(s, run[0].t, run[0].a).value, run[1..], t, a);
    }
  }

  /** What every step keeps, every run keeps. */
  lemma {:induction false} KeptByRun<S(!new), A(!new)>(system: (S, nat, A) -> Option<S>, kept: S -> bool,
        s: S, run: seq<Event<A>>)
    requires Legal(system, s, run) && kept(s)
    requires forall v, t, a :: kept(v) && system(v, t, a).Some? ==> kept(system(v, t, a).value)
    ensures kept(After(system, s, run))
    decreases |run|
  {
    if run != [] {
      KeptByRun(system, kept, system(s, run[0].t, run[0].a).value, run[1..]);
    }
  }

  /** What every allowed step keeps, a run of allowed steps keeps. */
  lemma {:induction false} KeptByAllowed<S(!new), A(!new)>(system: (S, nat, A) -> Option<S>,
        allowed: (S, nat, A) -> bool, kept: S -> bool, s: S, run: seq<Event<A>>)
    requires Legal(system, s, run) && Always(system, allowed, s, run) && kept(s)
    requires forall v, t, a :: kept(v) && allowed(v, t, a) && system(v, t, a).Some? ==> kept(system(v, t, a).value)
    ensures kept(After(system, s, run))
    decreases |run|
  {
    if run != [] {
      KeptByAllowed(system, allowed, kept, system(s, run[0].t, run[0].a).value, run[1..]);
    }
  }

  lemma {:induction false} AllowedToo<S(!new), A(!new)>(system: (S, nat, A) -> Option<S>,
        allowed: (S, nat, A) -> bool, wider: (S, nat, A) -> bool, s: S, run: seq<Event<A>>)
    requires Legal(system, s, run) && Always(system, allowed, s, run)
    requires forall v, t, a :: allowed(v, t, a) ==> wider(v, t, a)
    ensures Always(system, wider, s, run)
    decreases |run|
  {
    if run != [] {
      AllowedToo(system, allowed, wider, system(s, run[0].t, run[0].a).value, run[1..]);
    }
  }
}

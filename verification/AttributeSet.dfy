/**
 The attribute set: a map kept in key order behind a lock, and the iteration that gives the lock up
 around every callback.
 */
module Attributes {
  import opened Bits

  /** A key is a string of bytes; a value is a handle, 0 being the null object. */
  type Key = seq<Byte>
  type Value = nat
  type Attrs = map<Key, Value>

  // ---- the order of keys ----

  /** std::string_view::compare: the sign of the first difference, a proper prefix being less. */
  function Compare(a: Key, b: Key): (r: int)
    ensures r == 0 <==> a == b
    ensures r > 0 <==> Less(b, a)
    ensures r < 0 <==> Less(a, b)
  {
    if a == [] && b == [] then 0
    else if a == [] then -1
    else if b == [] then 1
    else if a[0] < b[0] then -1
    else if a[0] > b[0] then 1
    else (assert a == [a[0]] + a[1..] && b == [b[0]] + b[1..]; Compare(a[1..], b[1..]))
  }

  predicate Less(a: Key, b: Key) {
    b != [] && (a == [] || a[0] < b[0] || (a[0] == b[0] && Less(a[1..], b[1..])))
  }

  /** a and b agree up to position i, where b has a byte. */
  predicate AgreeTo(a: Key, b: Key, i: int) {
    0 <= i <= |a| && i < |b| && forall k :: 0 <= k < i ==> a[k] == b[k]
  }

  /**
   The order in other words: where they first differ, the lesser string has ended or has the smaller
   byte.
   */
  lemma {:induction false} LessIsLexicographic(a: Key, b: Key)
    ensures Less(a, b) <==> exists i :: AgreeTo(a, b, i) && (i == |a| || a[i] < b[i])
  {
    if a != [] && b != [] && a[0] == b[0] {
      LessIsLexicographic(a[1..], b[1..]);
      if i :| AgreeTo(a[1..], b[1..], i) && (i == |a| - 1 || a[1..][i] < b[1..][i]) {
        assert AgreeTo(a, b, i + 1) by { AgreeBehind(a, b, i); }
      }
      if i :| AgreeTo(a, b, i) && (i == |a| || a[i] < b[i]) {
        assert i > 0;
        AgreeBehind(a, b, i - 1);
      }
    } else if Less(a, b) {
      assert AgreeTo(a, b, 0);
    }
  }

  lemma AgreeBehind(a: Key, b: Key, i: int)
    requires a != [] && b != [] && a[0] == b[0] && 0 <= i
    ensures AgreeTo(a[1..], b[1..], i) <==> AgreeTo(a, b, i + 1)
  {
    if AgreeTo(a, b, i + 1) {
      forall k | 0 <= k < i ensures a[1..][k] == b[1..][k] { assert a[k + 1] == b[k + 1]; }
    }
    if AgreeTo(a[1..], b[1..], i) {
      forall k | 0 <= k < i + 1 ensures a[k] == b[k] {
        if k > 0 { assert a[1..][k - 1] == b[1..][k - 1]; }
      }
    }
  }

  lemma {:induction false} LessTransitive(a: Key, b: Key, c: Key)
    requires Less(a, b) && Less(b, c)
    ensures Less(a, c)
  {
    if a != [] && a[0] == b[0] == c[0] { LessTransitive(a[1..], b[1..], c[1..]); }
  }

  lemma {:induction false} LessIrreflexive(a: Key)
    ensures !Less(a, a)
  {
    if a != [] { LessIrreflexive(a[1..]); }
  }

  /** Strings with a prefix follow the prefix with no other string in between. */
  lemma {:induction false} PrefixContiguous(p: Key, a: Key, b: Key)
    requires !Less(a, p) && !(p <= a) && Less(a, b)
    ensures !(p <= b)
  {
    if a != [] && p != [] && a[0] == p[0] && b[0] == a[0] {
      PrefixContiguous(p[1..], a[1..], b[1..]);
      assert p[1..] <= a[1..] ==> p <= a;
    }
  }

  lemma {:induction false} PrefixNotLess(p: Key, a: Key)
    requires p <= a
    ensures !Less(a, p)
  {
    if p != [] { PrefixNotLess(p[1..], a[1..]); }
  }

  // ---- ranges ----

  datatype Range =
    | All
    | Prefix(prefix: Key)
    | Between(min: Key, max: Key, includeMin: bool, includeMax: bool)

  /** The keys a range means. */
  predicate InRange(r: Range, k: Key) {
    match r
    case All => true
    case Prefix(p) => p <= k
    case Between(min, max, includeMin, includeMax) =>
      (Less(min, k) || (includeMin && k == min)) && (Less(k, max) || (includeMax && k == max))
  }

  /** Where the loops begin: begin(), lower_bound or upper_bound. */
  predicate FromStart(r: Range, k: Key) {
    match r
    case All => true
    case Prefix(p) => !Less(k, p)
    case Between(min, _, includeMin, _) => if includeMin then !Less(k, min) else Less(min, k)
  }

  /** Where the loops break. */
  predicate Beyond(r: Range, k: Key) {
    match r
    case All => false
    case Prefix(p) => (if |k| < |p| then k else k[..|p|]) != p
    case Between(_, max, _, includeMax) => Compare(k, max) >= if includeMax then 1 else 0
  }

  /**
   What the ranges mean, end by end: all keys; the keys with a prefix; the keys strictly between the
   ends, and an end that is included and not cut off by the other.
   */
  lemma RangeMeans(r: Range, k: Key)
    ensures r.All? ==> InRange(r, k)
    ensures r.Prefix? ==> (InRange(r, k) <==> exists rest: Key :: r.prefix + rest == k)
    ensures r.Between? && k != r.min && k != r.max ==> (InRange(r, k) <==> Less(r.min, k) && Less(k, r.max))
    ensures r.Between? && k == r.min != r.max ==> (InRange(r, k) <==> r.includeMin && Less(k, r.max))
    ensures r.Between? && k == r.max != r.min ==> (InRange(r, k) <==> r.includeMax && Less(r.min, k))
    ensures r.Between? && k == r.min == r.max ==> (InRange(r, k) <==> r.includeMin && r.includeMax)
  {
    LessIrreflexive(k);
    if r.Prefix? && r.prefix <= k { assert r.prefix + k[|r.prefix|..] == k; }
  }

  /** Start and break together are the range. */
  lemma RangeCut(r: Range, k: Key)
    ensures InRange(r, k) <==> FromStart(r, k) && !Beyond(r, k)
  {
    match r {
      case All =>
      case Prefix(p) =>
        assert p <= k <==> |p| <= |k| && k[..|p|] == p;
        if p <= k { PrefixNotLess(p, k); }
      case Between(min, max, _, _) =>
        var c, d := Compare(k, min), Compare(k, max);
        LessIrreflexive(k);
    }
  }

  /** Once a loop may break, no greater key is in range: nothing is missed. */
  lemma BreakIsFinal(r: Range, k: Key, greater: Key)
    requires FromStart(r, k) && Beyond(r, k) && Less(k, greater)
    ensures !InRange(r, greater)
  {
    match r {
      case All =>
      case Prefix(p) =>
        PrefixContiguous(p, k, greater);
      case Between(_, max, _, includeMax) =>
        var c := Compare(k, max);
        if Less(greater, max) {
          LessTransitive(k, greater, max);
          LessTwice(k, max);
        }
        if greater == max { LessTwice(k, max); }
    }
  }

  lemma LessTwice(a: Key, b: Key)
    requires Less(a, b)
    ensures !Less(b, a) && a != b
  {
    if Less(b, a) { LessTransitive(a, b, a); LessIrreflexive(a); }
    LessIrreflexive(a);
  }

  // ---- operations, each under the lock ----

  datatype Op =
    | Set(key: Key, value: Value)
    | Emplace(key: Key, value: Value)
    | Replace(key: Key, value: Value)
    | ReplaceIf(key: Key, expected: Value, value: Value)
    | Remove(key: Key)
    | RemoveIf(key: Key, expected: Value)
    | Compute(key: Key, f: Value -> Value)

  function Get(m: Attrs, k: Key): Value { if k in m then m[k] else 0 }

  /** What an operation makes of the map. */
  function Apply(m: Attrs, op: Op): Attrs {
    match op
    case Set(k, v) => m[k := v]
    case Emplace(k, v) => if k in m then m else m[k := v]
    case Replace(k, v) => if k in m then m[k := v] else m
    case ReplaceIf(k, e, v) => if k in m && m[k] == e then m[k := v] else m
    case Remove(k) => m - {k}
    case RemoveIf(k, e) => if k in m && m[k] == e then m - {k} else m
    case Compute(k, f) => var v := f(Get(m, k)); if v != 0 then m[k := v] else m - {k}
  }

  /** Every entry but that of k is as it was. */
  ghost predicate OthersKept(m: Attrs, n: Attrs, k: Key) {
    forall o :: o != k ==> (o in n <==> o in m) && (o in m ==> n[o] == m[o])
  }

  /** The entry of k holds v. */
  predicate Holds(m: Attrs, k: Key, v: Value) { k in m && m[k] == v }

  /** An operation touches the entry of its own key only. */
  lemma ApplyIsLocal(m: Attrs, op: Op, k: Key)
    requires k != op.key
    ensures (k in Apply(m, op)) == (k in m) && Get(Apply(m, op), k) == Get(m, k)
  {
  }

  /**
   No update is lost: computing f and then g is computing both at once, because each sees what the
   other left, null standing for no entry. On different keys the order does not matter either.
   */
  lemma ComputesCompose(m: Attrs, k: Key, f: Value -> Value, g: Value -> Value)
    ensures Apply(Apply(m, Compute(k, f)), Compute(k, g)) == Apply(m, Compute(k, v => g(f(v))))
    ensures Get(Apply(m, Compute(k, f)), k) == f(Get(m, k))
  {
    var once := Apply(m, Compute(k, f));
    assert Get(once, k) == f(Get(m, k));
    var v := g(f(Get(m, k)));
    if v != 0 { assert once[k := v] == m[k := v]; } else { assert once - {k} == m - {k}; }
  }

  lemma ComputesCommute(m: Attrs, k: Key, f: Value -> Value, l: Key, g: Value -> Value)
    requires k != l
    ensures Apply(Apply(m, Compute(k, f)), Compute(l, g)) == Apply(Apply(m, Compute(l, g)), Compute(k, f))
  {
    var a, b := Apply(Apply(m, Compute(k, f)), Compute(l, g)), Apply(Apply(m, Compute(l, g)), Compute(k, f));
    ApplyIsLocal(m, Compute(k, f), l);
    ApplyIsLocal(m, Compute(l, g), k);
    forall o ensures (o in a) == (o in b) && Get(a, o) == Get(b, o) {
      if o != k { ApplyIsLocal(m, Compute(k, f), o); ApplyIsLocal(Apply(m, Compute(l, g)), Compute(k, f), o); }
      if o != l { ApplyIsLocal(m, Compute(l, g), o); ApplyIsLocal(Apply(m, Compute(k, f)), Compute(l, g), o); }
    }
    assert forall o :: o in a ==> a[o] == b[o];
  }

  function ApplyAll(m: Attrs, ops: seq<Op>): Attrs
    decreases |ops|
  {
    if ops == [] then m else ApplyAll(Apply(m, ops[0]), ops[1..])
  }

  // ---- iteration ----

  /** One callback: what happened to the set while the lock was free, and what the callback returned. */
  datatype Turn = Turn(ops: seq<Op>, goOn: bool)

  datatype Visit = Visit(key: Key, value: Value)

  /** k is the first key of m at or after the start of a range, or after the key last visited. */
  predicate IsNext(m: Attrs, r: Range, last: seq<Visit>, k: Key) {
    k in m && Ahead(r, last, k) && forall o :: o in m && Ahead(r, last, o) ==> o == k || Less(k, o)
  }

  predicate Ahead(r: Range, last: seq<Visit>, k: Key) {
    if last == [] then FromStart(r, k) else Less(last[|last| - 1].key, k)
  }

  /** The least element of a finite set of keys. */
  lemma LeastExists(keys: set<Key>) returns (least: Key)
    requires keys != {}
    ensures least in keys && forall o :: o in keys ==> o == least || Less(least, o)
  {
    var k :| k in keys;
    var rest := keys - {k};
    if rest == {} {
      least := k;
      assert keys == {k};
    } else {
      var l := LeastExists(rest);
      var c := Compare(k, l);
      if c < 0 {
        least := k;
        forall o | o in keys ensures o == k || Less(k, o) {
          if o != k {
            assert o in rest;
            if o != l { LessTransitive(k, l, o); }
          }
        }
      } else {
        least := l;
        assert forall o :: o in keys ==> o == k || o in rest;
      }
    }
  }

  predicate Ascending(visits: seq<Visit>) {
    forall i, j :: 0 <= i < j < |visits| ==> Less(visits[i].key, visits[j].key)
  }

  /** Each visit found its entry in the set as it was when the lock was held for it. */
  ghost predicate Honest(r: Range, visits: seq<Visit>, maps: seq<Attrs>) {
    && |visits| <= |maps|
    && forall i :: 0 <= i < |visits| ==>
         visits[i].key in maps[i] && maps[i][visits[i].key] == visits[i].value && InRange(r, visits[i].key)
  }

  ghost predicate Visited(visits: seq<Visit>, k: Key) {
    exists i :: 0 <= i < |visits| && visits[i].key == k
  }

  /** A key that was there all the time has been visited or is still ahead. */
  ghost predicate NoneSkipped(r: Range, visits: seq<Visit>, maps: seq<Attrs>) {
    forall k {:trigger Visited(visits, k)} ::
      InRange(r, k) && (forall i :: 0 <= i < |maps| ==> k in maps[i]) ==> Visited(visits, k) || Ahead(r, visits, k)
  }

  ghost predicate AllVisited(r: Range, visits: seq<Visit>, maps: seq<Attrs>) {
    forall k {:trigger Visited(visits, k)} ::
      InRange(r, k) && (forall i :: 0 <= i < |maps| ==> k in maps[i]) ==> Visited(visits, k)
  }

  function TurnAt(script: seq<Turn>, i: nat): Turn {
    if i < |script| then script[i] else Turn([], true)
  }

  /** The set at each moment the iteration held the lock. */
  ghost predicate Evolved(maps: seq<Attrs>, script: seq<Turn>) {
    forall i :: 0 <= i < |maps| - 1 ==> maps[i + 1] == ApplyAll(maps[i], TurnAt(script, i).ops)
  }

  /** Between two turns: what the loop has established. */
  ghost predicate Progress(r: Range, visits: seq<Visit>, maps: seq<Attrs>, script: seq<Turn>) {
    && maps != [] && |maps| == |visits| + 1 && Evolved(maps, script) && Honest(r, visits, maps)
    && Ascending(visits) && NoneSkipped(r, visits, maps)
    && forall i :: 0 <= i < |visits| ==> TurnAt(script, i).goOn
  }

  lemma Begins(r: Range, m: Attrs, script: seq<Turn>)
    ensures Progress(r, [], [m], script)
  {
    forall k | InRange(r, k) ensures FromStart(r, k) { RangeCut(r, k); }
  }

  function KeysAhead(m: Attrs, r: Range, visits: seq<Visit>): set<Key> {
    set k | k in m && Ahead(r, visits, k)
  }

  /** A visit leaves fewer keys ahead. */
  lemma VisitShrinks(m: Attrs, r: Range, visits: seq<Visit>, v: Visit)
    requires IsNext(m, r, visits, v.key)
    ensures |KeysAhead(m, r, visits + [v])| < |KeysAhead(m, r, visits)|
  {
    var before, after := KeysAhead(m, r, visits), KeysAhead(m, r, visits + [v]);
    LessIrreflexive(v.key);
    if visits == [] {
      forall k | k in after ensures k in before { StartIsUpward(r, v.key, k); }
    } else {
      forall k | k in after ensures k in before { LessTransitive(visits[|visits| - 1].key, v.key, k); }
    }
    assert after <= before - {v.key};
    SubsetSize(after, before - {v.key});
  }

  lemma SubsetSize(a: set<Key>, b: set<Key>)
    requires a <= b
    ensures |a| <= |b|
  {
    assert b == a + (b - a);
  }

  lemma NextVisit(r: Range, visits: seq<Visit>, maps: seq<Attrs>, script: seq<Turn>, k: Key)
    requires Progress(r, visits, maps, script) && IsNext(maps[|visits|], r, visits, k) && !Beyond(r, k)
    ensures var v := visits + [Visit(k, maps[|visits|][k])];
      Honest(r, v, maps) && Ascending(v) && NoneSkipped(r, v, maps)
  {
    var v := visits + [Visit(k, maps[|visits|][k])];
    NextInRange(r, visits, maps, k);
    forall i, j | 0 <= i < j < |v| ensures Less(v[i].key, v[j].key) {
      if j == |visits| && i < j - 1 { LessTransitive(v[i].key, v[j - 1].key, k); }
    }
    forall o {:trigger Visited(v, o)} | InRange(r, o) && (forall i :: 0 <= i < |maps| ==> o in maps[i])
      ensures Visited(v, o) || Ahead(r, v, o)
    {
      if Visited(visits, o) {
        var i :| 0 <= i < |visits| && visits[i].key == o;
        assert v[i].key == o;
      } else {
        assert Ahead(r, visits, o);
        assert o in maps[|visits|];
        assert v[|visits|].key == k;
      }
    }
  }

  /** What the loop has established, for a caller of foreach. */
  lemma SoFar(r: Range, visits: seq<Visit>, maps: seq<Attrs>, script: seq<Turn>)
    requires Progress(r, visits, maps, script)
    ensures maps != [] && |maps| == |visits| + 1 && Evolved(maps, script) && Honest(r, visits, maps)
      && Ascending(visits)
    ensures forall i :: 0 <= i < |visits| ==> TurnAt(script, i).goOn
  {
  }

  lemma KeyIsThere(m: Attrs, r: Range, visits: seq<Visit>, k: Key)
    requires IsNext(m, r, visits, k)
    ensures k in m
  {
  }

  /** The callback has returned true: the set as it is now begins the next turn. */
  lemma TurnTaken(r: Range, visits: seq<Visit>, maps: seq<Attrs>, script: seq<Turn>, now: Attrs)
    requires visits != [] && |maps| == |visits| && Evolved(maps, script)
    requires Honest(r, visits, maps) && Ascending(visits) && NoneSkipped(r, visits, maps)
    requires forall i :: 0 <= i < |visits| ==> TurnAt(script, i).goOn
    requires now == ApplyAll(maps[|maps| - 1], TurnAt(script, |maps| - 1).ops)
    ensures Progress(r, visits, maps + [now], script)
  {
    var more := maps + [now];
    forall i | 0 <= i < |more| - 1 ensures more[i + 1] == ApplyAll(more[i], TurnAt(script, i).ops) {
      if i < |maps| - 1 { assert more[i] == maps[i] && more[i + 1] == maps[i + 1]; }
    }
    forall k {:trigger Visited(visits, k)} | InRange(r, k) && (forall i :: 0 <= i < |more| ==> k in more[i])
      ensures Visited(visits, k) || Ahead(r, visits, k)
    {
      forall i | 0 <= i < |maps| ensures k in maps[i] { assert more[i] == maps[i]; }
    }
    assert Honest(r, visits, more) by {
      forall i | 0 <= i < |visits| ensures more[i] == maps[i] {}
    }
  }

  lemma NextInRange(r: Range, visits: seq<Visit>, maps: seq<Attrs>, k: Key)
    requires Honest(r, visits, maps) && Ahead(r, visits, k) && !Beyond(r, k)
    ensures InRange(r, k) && FromStart(r, k)
  {
    RangeCut(r, k);
    if visits != [] {
      var last := visits[|visits| - 1].key;
      RangeCut(r, last);
      StartIsUpward(r, last, k);
    }
  }

  lemma StartIsUpward(r: Range, a: Key, b: Key)
    requires FromStart(r, a) && Less(a, b)
    ensures FromStart(r, b)
  {
    match r {
      case All =>
      case Prefix(p) => if Less(b, p) { LessTransitive(a, b, p); }
      case Between(min, _, _, _) =>
        if Less(b, min) { LessTransitive(a, b, min); }
        if Less(min, a) { LessTransitive(min, a, b); }
        var c, d := Compare(a, min), Compare(b, min);
        LessTwice(a, b);
    }
  }

  /** The loop ends: nothing of the range is ahead in the set as it is now. */
  lemma NothingAhead(r: Range, visits: seq<Visit>, maps: seq<Attrs>, script: seq<Turn>)
    requires Progress(r, visits, maps, script)
    requires forall k :: k in maps[|visits|] && Ahead(r, visits, k) ==> !InRange(r, k)
    ensures AllVisited(r, visits, maps)
  {
  }

  /** The first key ahead is past the range, so all keys ahead are. */
  lemma BreakEndsIt(m: Attrs, r: Range, visits: seq<Visit>, maps: seq<Attrs>, k: Key)
    requires Honest(r, visits, maps) && IsNext(m, r, visits, k) && Beyond(r, k)
    ensures forall o :: o in m && Ahead(r, visits, o) ==> !InRange(r, o)
  {
    if visits == [] {
    } else {
      var last := visits[|visits| - 1].key;
      RangeCut(r, last);
      StartIsUpward(r, last, k);
    }
    forall o | o in m && Ahead(r, visits, o) ensures !InRange(r, o) {
      if o == k { RangeCut(r, k); } else { BreakIsFinal(r, k, o); }
    }
  }

  lemma NextExists(m: Attrs, r: Range, visits: seq<Visit>)
    requires exists k :: k in m && Ahead(r, visits, k)
    ensures exists k :: IsNext(m, r, visits, k)
  {
    var keys := set k | k in m && Ahead(r, visits, k);
    var k :| k in m && Ahead(r, visits, k);
    assert k in keys;
    var least := LeastExists(keys);
    assert IsNext(m, r, visits, least);
  }

  // ---- without interference: the whole range in order ----

  predicate Sorted(keys: seq<Key>) {
    forall i, j :: 0 <= i < j < |keys| ==> Less(keys[i], keys[j])
  }

  /** A finite set of keys, listed in order. */
  ghost function Listed(keys: set<Key>): (l: seq<Key>)
    ensures Sorted(l) && forall k :: k in l <==> k in keys
  {
    if keys == {} then []
    else
      ghost var least := Least(keys);
      [least] + Listed(keys - {least})
  }

  ghost function Least(keys: set<Key>): (least: Key)
    requires keys != {}
    ensures least in keys && forall o :: o in keys ==> o == least || Less(least, o)
  {
    assert exists k :: k in keys && forall o :: o in keys ==> o == k || Less(k, o) by {
      var k := LeastExists(keys);
    }
    var k :| k in keys && forall o :: o in keys ==> o == k || Less(k, o);
    k
  }

  function Filtered(r: Range, keys: seq<Key>): (f: seq<Key>)
    ensures forall k :: k in f <==> k in keys && InRange(r, k)
  {
    if keys == [] then []
    else (if InRange(r, keys[0]) then [keys[0]] else []) + Filtered(r, keys[1..])
  }

  lemma {:induction false} FilteredSorted(r: Range, keys: seq<Key>)
    requires Sorted(keys)
    ensures Sorted(Filtered(r, keys))
  {
    if keys != [] {
      FilteredSorted(r, keys[1..]);
      var rest := Filtered(r, keys[1..]);
      forall k | k in rest ensures Less(keys[0], k) {
        var i :| 1 <= i < |keys| && keys[i] == k;
      }
    }
  }

  /** Order and elements determine a sorted list. */
  lemma {:induction false} SortedUnique(a: seq<Key>, b: seq<Key>)
    requires Sorted(a) && Sorted(b) && forall k :: k in a <==> k in b
    ensures a == b
    decreases |a|
  {
    if a != [] { NotEmpty(a, b); }
    if b != [] {
      NotEmpty(b, a);
      FirstIsLeast(a, b);
      assert a[0] == b[0];
      forall k ensures k in a[1..] <==> k in b[1..] {
        TailMember(a, k);
        TailMember(b, k);
      }
      SortedUnique(a[1..], b[1..]);
      assert a == [a[0]] + a[1..] && b == [b[0]] + b[1..];
    }
  }

  lemma NotEmpty(a: seq<Key>, b: seq<Key>)
    requires a != [] && forall k :: k in a ==> k in b
    ensures b != []
  {
    assert a[0] in b;
  }

  lemma FirstIsLeast(a: seq<Key>, b: seq<Key>)
    requires Sorted(a) && Sorted(b) && a != [] && b != [] && forall k :: k in a <==> k in b
    ensures a[0] == b[0]
  {
    assert a[0] in b && b[0] in a;
    if a[0] != b[0] {
      LessTwice(b[0], a[0]);
    }
  }

  lemma TailMember(a: seq<Key>, k: Key)
    requires Sorted(a) && a != []
    ensures k in a[1..] <==> k in a && k != a[0]
  {
    LessIrreflexive(a[0]);
  }

  function KeysOf(visits: seq<Visit>): (keys: seq<Key>)
    ensures |keys| == |visits| && forall i :: 0 <= i < |visits| ==> keys[i] == visits[i].key
  {
    seq(|visits|, i requires 0 <= i < |visits| => visits[i].key)
  }

  predicate Quiet(script: seq<Turn>) { forall i :: 0 <= i < |script| ==> script[i].ops == [] }

  lemma {:induction false} QuietMaps(maps: seq<Attrs>, script: seq<Turn>, i: nat)
    requires Evolved(maps, script) && Quiet(script) && i < |maps|
    ensures maps[i] == maps[0]
  {
    if i > 0 {
      QuietMaps(maps, script, i - 1);
      assert maps[(i - 1) + 1] == ApplyAll(maps[i - 1], TurnAt(script, i - 1).ops);
    }
  }

  /**
   With nobody interfering, an iteration that is not stopped visits exactly the entries of the range,
   in key order: the whole sorted map, filtered. (The hypotheses are what Foreach ensures.)
   */
  lemma QuietIsFilter(r: Range, visits: seq<Visit>, maps: seq<Attrs>, script: seq<Turn>)
    requires Ascending(visits) && Honest(r, visits, maps) && AllVisited(r, visits, maps)
    requires |maps| == |visits| + 1 && Evolved(maps, script) && Quiet(script)
    ensures KeysOf(visits) == Filtered(r, Listed(maps[0].Keys))
    ensures forall i :: 0 <= i < |visits| ==> visits[i].value == Get(maps[0], visits[i].key)
  {
    var m, keys, f := maps[0], KeysOf(visits), Filtered(r, Listed(maps[0].Keys));
    forall i | 0 <= i < |maps| ensures maps[i] == m { QuietMaps(maps, script, i); }
    FilteredSorted(r, Listed(m.Keys));
    forall k ensures k in keys <==> k in f {
      if k in keys {
        var i :| 0 <= i < |keys| && keys[i] == k;
      }
      if k in f {
        assert Visited(visits, k);
        var i :| 0 <= i < |visits| && visits[i].key == k;
        assert keys[i] == k;
      }
    }
    SortedUnique(keys, f);
  }

  /** No key is visited twice, whatever happens between the callbacks. */
  lemma VisitedOnce(visits: seq<Visit>, i: nat, j: nat)
    requires Ascending(visits) && i < |visits| && j < |visits| && visits[i].key == visits[j].key
    ensures i == j
  {
    LessIrreflexive(visits[i].key);
  }

  class AttributeSet {
    var attrs: Attrs

    constructor ()
      ensures attrs == map[]
    {
      attrs := map[];
    }

    method SetValue(key: Key, value: Value) returns (previous: Value)
      modifies this
      ensures attrs == Apply(old(attrs), Set(key, value)) && previous == Get(old(attrs), key)
      ensures Holds(attrs, key, value) && OthersKept(old(attrs), attrs, key)
      ensures if key in old(attrs) then previous == old(attrs)[key] else previous == 0
    {
      previous := if key in attrs then attrs[key] else 0;
      attrs := attrs[key := value];
    }

    method EmplaceValue(key: Key, value: Value) returns (current: Value)
      modifies this
      ensures attrs == Apply(old(attrs), Emplace(key, value)) && current == Get(old(attrs), key)
      ensures if key in old(attrs) then attrs == old(attrs) && current == old(attrs)[key]
        else Holds(attrs, key, value) && OthersKept(old(attrs), attrs, key) && current == 0
    {
      if key !in attrs {
        attrs := attrs[key := value];
        return 0;
      }
      return attrs[key];
    }

    method ReplaceValue(key: Key, value: Value) returns (previous: Value)
      modifies this
      ensures attrs == Apply(old(attrs), Replace(key, value)) && previous == Get(old(attrs), key)
      ensures if key !in old(attrs) then attrs == old(attrs) && previous == 0
        else Holds(attrs, key, value) && OthersKept(old(attrs), attrs, key) && previous == old(attrs)[key]
    {
      if key in attrs {
        previous := attrs[key];
        attrs := attrs[key := value];
      } else {
        previous := 0;
      }
    }

    method ReplaceExpected(key: Key, expected: Value, value: Value) returns (done: bool)
      modifies this
      ensures attrs == Apply(old(attrs), ReplaceIf(key, expected, value))
      ensures done <==> key in old(attrs) && old(attrs)[key] == expected
      ensures if done then Holds(attrs, key, value) && OthersKept(old(attrs), attrs, key) else attrs == old(attrs)
    {
      done := key in attrs && attrs[key] == expected;
      if done { attrs := attrs[key := value]; }
    }

    method RemoveKey(key: Key) returns (previous: Value)
      modifies this
      ensures attrs == Apply(old(attrs), Remove(key)) && previous == Get(old(attrs), key)
      ensures key !in attrs && OthersKept(old(attrs), attrs, key)
      ensures if key in old(attrs) then previous == old(attrs)[key] else previous == 0
    {
      previous := if key in attrs then attrs[key] else 0;
      attrs := attrs - {key};
    }

    method RemoveExpected(key: Key, expected: Value) returns (done: bool)
      modifies this
      ensures attrs == Apply(old(attrs), RemoveIf(key, expected))
      ensures done <==> key in old(attrs) && old(attrs)[key] == expected
      ensures if done then key !in attrs && OthersKept(old(attrs), attrs, key) else attrs == old(attrs)
    {
      done := key in attrs && attrs[key] == expected;
      if done { attrs := attrs - {key}; }
    }

    /** f runs once, on the value there was. */
    method ComputeValue(key: Key, f: Value -> Value) returns (ghost seen: seq<Value>)
      modifies this
      ensures attrs == Apply(old(attrs), Compute(key, f)) && seen == [Get(old(attrs), key)]
      ensures seen == [if key in old(attrs) then old(attrs)[key] else 0] && OthersKept(old(attrs), attrs, key)
      ensures if f(seen[0]) != 0 then Holds(attrs, key, f(seen[0])) else key !in attrs
    {
      seen := [];
      if key !in attrs {
        seen := seen + [0];
        var value := f(0);
        if value != 0 { attrs := attrs[key := value]; }
      } else {
        seen := seen + [attrs[key]];
        var value := f(attrs[key]);
        if value != 0 {
          attrs := attrs[key := value];
        } else {
          attrs := attrs - {key};
        }
      }
    }

    method Run(op: Op)
      modifies this
      ensures attrs == Apply(old(attrs), op)
    {
      match op {
        case Set(k, v) => var _ := SetValue(k, v);
        case Emplace(k, v) => var _ := EmplaceValue(k, v);
        case Replace(k, v) => var _ := ReplaceValue(k, v);
        case ReplaceIf(k, e, v) => var _ := ReplaceExpected(k, e, v);
        case Remove(k) => var _ := RemoveKey(k);
        case RemoveIf(k, e) => var _ := RemoveExpected(k, e);
        case Compute(k, f) => ghost var _ := ComputeValue(k, f);
      }
    }

    /** The lock is free: a callback runs, and with it whatever other threads do. */
    method Interfere(ops: seq<Op>)
      modifies this
      ensures attrs == ApplyAll(old(attrs), ops)
    {
      var i := 0;
      while i < |ops|
        invariant i <= |ops|
        invariant ApplyAll(attrs, ops[i..]) == ApplyAll(old(attrs), ops)
      {
        Run(ops[i]);
        assert ops[i..][1..] == ops[i + 1..];
        i := i + 1;
      }
      assert ops[i..] == [];
    }

    /** With the lock: where the iteration goes on, if it does. */
    method Advance(r: Range, visits: seq<Visit>, ghost maps: seq<Attrs>) returns (found: bool, key: Key)
      requires Honest(r, visits, maps)
      ensures found ==> IsNext(attrs, r, visits, key) && !Beyond(r, key)
      ensures !found ==> forall k :: k in attrs && Ahead(r, visits, k) ==> !InRange(r, k)
    {
      if !exists k :: k in attrs && Ahead(r, visits, k) { return false, []; }
      NextExists(attrs, r, visits);
      key :| key in attrs && IsNext(attrs, r, visits, key);
      found := !Beyond(r, key);
      if !found { BreakEndsIt(attrs, r, visits, maps, key); }
    }

    /**
     The three foreach loops, which differ only in where they start and where they break. script
     says what each callback returns and what happens to the set meanwhile; callbacks after the
     script do nothing and go on.
     */
    method Foreach(r: Range, script: seq<Turn>) returns (c: nat, visits: seq<Visit>, ghost maps: seq<Attrs>)
      modifies this
      ensures Ascending(visits) && Honest(r, visits, maps)
      ensures maps != [] && maps[0] == old(attrs) && Evolved(maps, script)
      ensures if c == |visits| then
          |maps| == |visits| + 1 && attrs == maps[|visits|] && AllVisited(r, visits, maps)
        else
          c == |visits| - 1 && |maps| == |visits| && !TurnAt(script, c).goOn
            && attrs == ApplyAll(maps[c], TurnAt(script, c).ops)
      ensures forall i :: 0 <= i < c ==> TurnAt(script, i).goOn
    {
      hide Progress, Honest, Ascending, Evolved, NoneSkipped, AllVisited, IsNext, Beyond, KeysAhead;
      c, visits, maps := 0, [], [attrs];
      Begins(r, attrs, script);
      while true
        invariant Progress(r, visits, maps, script) && c == |visits| && |maps| == |visits| + 1
        invariant maps[0] == old(attrs) && attrs == maps[|visits|]
        decreases if c < |script| then |script| - c else 0, |KeysAhead(attrs, r, visits)|
      {
        SoFar(r, visits, maps, script);
        var found, key := Advance(r, visits, maps);
        if !found {
          NothingAhead(r, visits, maps, script);
          break;
        }
        KeyIsThere(attrs, r, visits, key);
        NextVisit(r, visits, maps, script, key);
        VisitShrinks(attrs, r, visits, Visit(key, attrs[key]));
        visits := visits + [Visit(key, attrs[key])];
        var turn := TurnAt(script, c);
        Interfere(turn.ops);
        if !turn.goOn { return; }
        TurnTaken(r, visits, maps, script, attrs);
        c, maps := c + 1, maps + [attrs];
      }
    }
  }
}

/**
 Servlets: objects kept in an attribute set under a key made from their type and an instance name.
 The key can be undone, so different servlets never share an entry.
 */
module Servlets {
  import opened Bits
  import opened Attributes

  /** The bytes of a type index, a pointer. */
  type TypeIndex = t: seq<Byte> | |t| == 8 witness [0, 0, 0, 0, 0, 0, 0, 0]

  const LETTER_S: Byte := 83
  const COLON: Byte := 58

  // ---- the key ----

  /** Number of zero bytes at the front. */
  function LeadingZeros(s: seq<Byte>): (n: nat)
    ensures n <= |s| && s[..n] == Zeros(n) && (n < |s| ==> s[n] != 0)
  {
    if s == [] || s[0] != 0 then 0
    else
      assert s[..1 + LeadingZeros(s[1..])] == [0] + s[1..][..LeadingZeros(s[1..])];
      1 + LeadingZeros(s[1..])
  }

  /** Number of zero bytes at the back. */
  function TrailingZeros(s: seq<Byte>): (n: nat)
    ensures n <= |s| && s[|s| - n..] == Zeros(n) && (n < |s| ==> s[|s| - n - 1] != 0)
  {
    if s == [] || s[|s| - 1] != 0 then 0
    else
      var k := TrailingZeros(s[..|s| - 1]);
      assert s[|s| - 1 - k..] == s[..|s| - 1][|s| - 1 - k..] + [0];
      1 + k
  }

  /** The side on which the null type has more zeros is the side they are taken off. */
  predicate StripsFront(nullType: TypeIndex) { LeadingZeros(nullType) > TrailingZeros(nullType) }

  function Stripped(nullType: TypeIndex, t: TypeIndex): (b: seq<Byte>)
    ensures |b| <= 8
  {
    if StripsFront(nullType) then t[LeadingZeros(t)..] else t[..8 - TrailingZeros(t)]
  }

  /** What was stripped can be put back. */
  function Padded(nullType: TypeIndex, b: seq<Byte>): seq<Byte> {
    var pad := Zeros(if |b| <= 8 then 8 - |b| else 0);
    if StripsFront(nullType) then pad + b else b + pad
  }

  lemma StripPads(nullType: TypeIndex, t: TypeIndex)
    ensures Padded(nullType, Stripped(nullType, t)) == t
  {
    hide LeadingZeros, TrailingZeros;
    if StripsFront(nullType) {
      var n := LeadingZeros(t);
      assert t == t[..n] + t[n..];
    } else {
      var n := TrailingZeros(t);
      assert t == t[..8 - n] + t[8 - n..];
    }
  }

  function HexDigit(n: nat): (d: Byte)
    requires n < 16
    ensures d != COLON
  {
    if n < 10 then 48 + n else 55 + n
  }

  function FromHexDigit(d: Byte): nat {
    if d < 48 then 0 else if d < 58 then d - 48 else if d < 55 + 16 then d - 55 else 0
  }

  /** The table of digits. */
  lemma HexTable(n: nat)
    requires n < 16
    ensures HexDigit(n) as char == "0123456789ABCDEF"[n]
  {
  }

  function Hex(b: seq<Byte>): (h: Key)
    ensures |h| == 2 * |b| && COLON !in h
  {
    if b == [] then [] else [HexDigit(b[0] / 16), HexDigit(b[0] % 16)] + Hex(b[1..])
  }

  /** Each byte is two digits, the high one first. */
  lemma {:induction false} HexAt(b: seq<Byte>, i: nat)
    requires i < |b|
    ensures Hex(b)[2 * i] as char == "0123456789ABCDEF"[b[i] / 16]
    ensures Hex(b)[2 * i + 1] as char == "0123456789ABCDEF"[b[i] % 16]
  {
    if i == 0 {
      HexTable(b[0] / 16);
      HexTable(b[0] % 16);
    } else {
      HexAt(b[1..], i - 1);
    }
  }

  function UnHex(h: Key): seq<Byte>
  {
    if |h| < 2 then [] else [(16 * FromHexDigit(h[0]) + FromHexDigit(h[1])) % 256] + UnHex(h[2..])
  }

  lemma OneByte(x: Byte)
    ensures (16 * FromHexDigit(HexDigit(x / 16)) + FromHexDigit(HexDigit(x % 16))) % 256 == x
  {
  }

  lemma {:induction false} HexRoundTrip(b: seq<Byte>)
    ensures UnHex(Hex(b)) == b
  {
    if b != [] {
      HexRoundTrip(b[1..]);
      OneByte(b[0]);
      assert Hex(b)[2..] == Hex(b[1..]);
      assert b == [b[0]] + b[1..];
      hide HexDigit, FromHexDigit;
    }
  }

  /**
   Zeros are taken off the back, where a little-endian pointer has them, or off the front, where a
   big-endian one has them: all that there are.
   */
  lemma ZerosAreStripped(nullType: TypeIndex, t: TypeIndex)
    ensures nullType[0] != 0 ==> !StripsFront(nullType)
    ensures nullType[0] == 0 && nullType[7] != 0 ==> StripsFront(nullType)
    ensures !StripsFront(nullType) ==> var n := |Stripped(nullType, t)|;
      Stripped(nullType, t) == t[..n] && (n > 0 ==> t[n - 1] != 0) && forall i :: n <= i < 8 ==> t[i] == 0
    ensures StripsFront(nullType) ==> var n := 8 - |Stripped(nullType, t)|;
      Stripped(nullType, t) == t[n..] && (n < 8 ==> t[n] != 0) && forall i :: 0 <= i < n ==> t[i] == 0
  {
    FrontZeros(nullType);
    FrontZeros(t);
    BackZeros(nullType);
    BackZeros(t);
    hide LeadingZeros, TrailingZeros;
  }

  lemma FrontZeros(s: seq<Byte>)
    ensures var n := LeadingZeros(s); n <= |s| && (n < |s| ==> s[n] != 0) && forall i :: 0 <= i < n ==> s[i] == 0
  {
    var n := LeadingZeros(s);
    hide LeadingZeros;
    forall i | 0 <= i < n ensures s[i] == 0 { assert s[i] == s[..n][i] == Zeros(n)[i]; }
  }

  lemma BackZeros(s: seq<Byte>)
    ensures var n := TrailingZeros(s);
      n <= |s| && (n < |s| ==> s[|s| - n - 1] != 0) && forall i :: |s| - n <= i < |s| ==> s[i] == 0
  {
    var n := TrailingZeros(s);
    hide TrailingZeros;
    forall i | |s| - n <= i < |s| ensures s[i] == 0 {
      assert s[i] == s[|s| - n..][i - (|s| - n)] == Zeros(n)[i - (|s| - n)];
    }
  }

  function Suffix(instance: Key): Key { if instance == [] then [] else [COLON] + instance }

  /** servlets::id. */
  function Id(nullType: TypeIndex, t: TypeIndex, instance: Key): Key {
    [LETTER_S, COLON] + Hex(Stripped(nullType, t)) + Suffix(instance)
  }

  function Text(s: string): seq<int> { seq(|s|, i requires 0 <= i < |s| => s[i] as int) }

  /** Two keys, for a pointer in little-endian and one in big-endian memory. */
  lemma KeysInFull()
    ensures Id([16, 32, 0, 0, 0, 0, 0, 0], [58, 240, 18, 0, 0, 0, 0, 0], []) == Text("S:3AF012")
    ensures Id([0, 0, 0, 0, 0, 0, 32, 16], [0, 0, 0, 0, 0, 18, 240, 0], [120]) == Text("S:12F000:x")
  {
    StripTwo();
    HexOfThree(58, 240, 18);
    HexOfThree(18, 240, 0);
    hide Stripped, Hex, HexDigit, Text;
    TextOfKeys();
    DigitsOfKeys();
    var h, k := Hex([58, 240, 18]), Hex([18, 240, 0]);
    assert [LETTER_S, COLON] + h + [] == [83, 58] + h;
  }

  lemma TextOfKeys()
    ensures Text("S:3AF012") == [83, 58] + [51, 65, 70, 48, 49, 50]
    ensures Text("S:12F000:x") == [83, 58] + [49, 50, 70, 48, 48, 48] + [58, 120]
  {
  }

  lemma DigitsOfKeys()
    ensures [HexDigit(58 / 16), HexDigit(58 % 16), HexDigit(240 / 16), HexDigit(240 % 16)] == [51, 65, 70, 48]
    ensures [HexDigit(18 / 16), HexDigit(18 % 16), HexDigit(0 / 16), HexDigit(0 % 16)] == [49, 50, 48, 48]
  {
  }

  lemma StripTwo()
    ensures Stripped([16, 32, 0, 0, 0, 0, 0, 0], [58, 240, 18, 0, 0, 0, 0, 0]) == [58, 240, 18]
    ensures Stripped([0, 0, 0, 0, 0, 0, 32, 16], [0, 0, 0, 0, 0, 18, 240, 0]) == [18, 240, 0]
  {
    hide Stripped, StripsFront;
    var a: TypeIndex, b: TypeIndex := [16, 32, 0, 0, 0, 0, 0, 0], [58, 240, 18, 0, 0, 0, 0, 0];
    ZerosAreStripped(a, b);
    assert b[2] != 0;
    assert |Stripped(a, b)| == 3;
    var c: TypeIndex, d: TypeIndex := [0, 0, 0, 0, 0, 0, 32, 16], [0, 0, 0, 0, 0, 18, 240, 0];
    ZerosAreStripped(c, d);
    assert d[5] != 0;
    assert |Stripped(c, d)| == 3;
  }

  lemma HexOfThree(x: Byte, y: Byte, z: Byte)
    ensures Hex([x, y, z]) ==
      [HexDigit(x / 16), HexDigit(x % 16), HexDigit(y / 16), HexDigit(y % 16), HexDigit(z / 16), HexDigit(z % 16)]
  {
    assert [x, y, z][1..] == [y, z] && [y, z][1..] == [z] && [z][1..] == [];
    assert Hex([z]) == [HexDigit(z / 16), HexDigit(z % 16)];
    assert Hex([y, z]) == [HexDigit(y / 16), HexDigit(y % 16)] + Hex([z]);
  }

  // ---- undoing it ----

  function FindColon(s: Key): (n: nat)
    ensures n <= |s| && COLON !in s[..n] && (n < |s| ==> s[n] == COLON)
  {
    if s == [] || s[0] == COLON then 0
    else
      assert s[..1 + FindColon(s[1..])] == [s[0]] + s[1..][..FindColon(s[1..])];
      1 + FindColon(s[1..])
  }

  lemma {:induction false} FirstColon(h: Key, rest: Key)
    requires COLON !in h && (rest == [] || rest[0] == COLON)
    ensures FindColon(h + rest) == |h|
  {
    if h == [] {
      assert h + rest == rest;
    } else {
      assert (h + rest)[1..] == h[1..] + rest;
      FirstColon(h[1..], rest);
    }
  }

  /** The type and the instance a key was made from. */
  function Parse(nullType: TypeIndex, id: Key): (seq<Byte>, Key) {
    ParseBody(nullType, if |id| >= 2 then id[2..] else [])
  }

  function ParseBody(nullType: TypeIndex, body: Key): (seq<Byte>, Key) {
    var n := FindColon(body);
    (Padded(nullType, UnHex(body[..n])), if n < |body| then body[n + 1..] else [])
  }

  lemma BodyRoundTrip(nullType: TypeIndex, h: Key, instance: Key)
    requires COLON !in h
    ensures ParseBody(nullType, h + Suffix(instance)) == (Padded(nullType, UnHex(h)), instance)
  {
    hide Padded, UnHex, FindColon;
    var body := h + Suffix(instance);
    FirstColon(h, Suffix(instance));
    assert body[..|h|] == h;
    assert instance != [] ==> body[|h| + 1..] == instance;
  }

  lemma IdRoundTrip(nullType: TypeIndex, t: TypeIndex, instance: Key)
    ensures Parse(nullType, Id(nullType, t, instance)) == (t, instance)
  {
    hide Stripped, Padded, Hex, UnHex, ParseBody, Suffix;
    var h := Hex(Stripped(nullType, t));
    assert Id(nullType, t, instance)[2..] == h + Suffix(instance);
    BodyRoundTrip(nullType, h, instance);
    HexRoundTrip(Stripped(nullType, t));
    StripPads(nullType, t);
  }

  /** Different servlets have different keys. */
  lemma IdInjective(nullType: TypeIndex, t: TypeIndex, i: Key, u: TypeIndex, j: Key)
    requires Id(nullType, t, i) == Id(nullType, u, j)
    ensures t == u && i == j
  {
    IdRoundTrip(nullType, t, i);
    IdRoundTrip(nullType, u, j);
  }

  /** servlets::id as it is written: count, strip, print, append. */
  method MakeId(nullType: TypeIndex, t: TypeIndex, instance: Key) returns (name: Key)
    ensures name == Id(nullType, t, instance)
  {
    hide Stripped, Hex;
    var bin := Strip(nullType, t);
    name := [LETTER_S, COLON];
    var hex := ToHex(bin);
    name := name + hex;
    if instance != [] {
      name := name + [COLON] + instance;
      assert name == [LETTER_S, COLON] + hex + ([COLON] + instance);
    }
  }

  method Strip(nullType: TypeIndex, t: TypeIndex) returns (bin: seq<Byte>)
    ensures bin == Stripped(nullType, t)
  {
    hide LeadingZeros, TrailingZeros;
    var leading := CountLeading(nullType);
    var trailing := CountTrailing(nullType);
    bin := t;
    if leading > trailing {
      leading := CountLeading(t);
      bin := bin[leading..];
    } else {
      trailing := CountTrailing(t);
      bin := bin[..|bin| - trailing];
    }
  }

  method ToHex(bin: seq<Byte>) returns (hex: Key)
    ensures hex == Hex(bin)
  {
    hex := [];
    for i := 0 to |bin|
      invariant hex + Hex(bin[i..]) == Hex(bin)
    {
      ToHexStep(hex, bin[i..]);
      assert bin[i..][1..] == bin[i + 1..];
      hex := hex + [HexDigit(bin[i] / 16), HexDigit(bin[i] % 16)];
    }
    assert bin[|bin|..] == [];
  }

  lemma ToHexStep(done: Key, b: seq<Byte>)
    requires b != []
    ensures done + Hex(b) == done + [HexDigit(b[0] / 16), HexDigit(b[0] % 16)] + Hex(b[1..])
  {
  }

  method CountLeading(s: seq<Byte>) returns (n: nat)
    ensures n == LeadingZeros(s)
  {
    n := 0;
    while n < |s| && s[n] == 0
      invariant n <= |s| && LeadingZeros(s) == n + LeadingZeros(s[n..])
    {
      assert s[n..][1..] == s[n + 1..];
      n := n + 1;
    }
  }

  /** The zeros at the back, seen from a position with n zeros behind it. */
  lemma TrailingFrom(s: seq<Byte>, n: nat)
    requires n <= |s|
    ensures TrailingZeros(s[..|s| - n]) ==
      if n < |s| && s[|s| - n - 1] == 0 then 1 + TrailingZeros(s[..|s| - n - 1]) else 0
  {
    var t := s[..|s| - n];
    if n < |s| { assert t[..|t| - 1] == s[..|s| - n - 1]; }
  }

  method CountTrailing(s: seq<Byte>) returns (n: nat)
    ensures n == TrailingZeros(s)
  {
    hide TrailingZeros;
    n := 0;
    assert s[..|s|] == s;
    while n < |s| && s[|s| - n - 1] == 0
      invariant n <= |s| && TrailingZeros(s) == n + TrailingZeros(s[..|s| - n])
    {
      TrailingFrom(s, n);
      n := n + 1;
    }
    TrailingFrom(s, n);
  }

  // ---- the client: servlets::op ----

  datatype Kind = GetOp | SetOp | RetOp | AddOp | DelOp

  /** What the caller gets: an object, or one of the exceptions thrown inside compute(). */
  datatype Answer = Servlet(value: Value) | NotExists | AlreadyExists | ParamsError

  /** The object to keep and the answer, for the object there is (0 for none). */
  function Decide(val: Value, kind: Kind, made: Value, constructible: bool): (Value, Answer) {
    if kind.GetOp? then (val, if val != 0 then Servlet(val) else NotExists)
    else if kind.DelOp? then if val != 0 then (0, Servlet(val)) else (val, NotExists)
    else if val != 0 && kind.RetOp? then (val, Servlet(val))
    else if val != 0 && kind.AddOp? then (val, AlreadyExists)
    else if constructible then (made, Servlet(made))
    else (val, ParamsError)
  }

  predicate Exists(m: Attrs, name: Key) { name in m && m[name] != 0 }

  /**
   Operation by operation: what it makes of the set m and what it answers. get and del want a servlet
   that exists, add one that does not, and ret takes one that does; set, and add and ret without one,
   keep the new object.
   */
  predicate Meant(kind: Kind, m: Attrs, n: Attrs, name: Key, made: Value, constructible: bool, answer: Answer) {
    match kind
    case GetOp => n == m && answer == if Exists(m, name) then Servlet(m[name]) else NotExists
    case DelOp =>
      if Exists(m, name) then name !in n && answer == Servlet(m[name]) else n == m && answer == NotExists
    case SetOp => Created(m, n, name, made, constructible, answer)
    case AddOp =>
      if Exists(m, name) then n == m && answer == AlreadyExists
      else Created(m, n, name, made, constructible, answer)
    case RetOp =>
      if Exists(m, name) then n == m && answer == Servlet(m[name])
      else Created(m, n, name, made, constructible, answer)
  }

  predicate Created(m: Attrs, n: Attrs, name: Key, made: Value, constructible: bool, answer: Answer) {
    if constructible then Holds(n, name, made) && answer == Servlet(made) else n == m && answer == ParamsError
  }

  lemma EachOp(m: Attrs, nullType: TypeIndex, t: TypeIndex, instance: Key, kind: Kind, made: Value, constructible: bool)
    requires made != 0
    ensures var name := Id(nullType, t, instance);
      var n := AfterOp(m, nullType, t, instance, kind, made, constructible);
      && OthersKept(m, n, name)
      && Meant(kind, m, n, name, made, constructible, Decide(Get(m, name), kind, made, constructible).1)
  {
    hide Id;
    var name := Id(nullType, t, instance);
    if name in m { assert m[name := m[name]] == m; }
  }

  /** A servlet is deleted once: a second del finds nothing. */
  lemma DelDeletesOnce(m: Attrs, nullType: TypeIndex, t: TypeIndex, i: Key, made: Value)
    requires made != 0
    ensures var name := Id(nullType, t, i);
      var n := AfterOp(m, nullType, t, i, DelOp, made, true);
      && Get(n, name) == 0 && Decide(Get(n, name), DelOp, made, true).1 == NotExists
      && AfterOp(n, nullType, t, i, DelOp, made, true) == n
      && Decide(Get(m, name), DelOp, made, true).1 == if Exists(m, name) then Servlet(m[name]) else NotExists
  {
    hide Id;
    EachOp(m, nullType, t, i, DelOp, made, true);
    EachOp(AfterOp(m, nullType, t, i, DelOp, made, true), nullType, t, i, DelOp, made, true);
  }

  class ServletSet {
    const attributes: AttributeSet
    const nullType: TypeIndex

    constructor (nullType: TypeIndex)
      ensures fresh(attributes) && attributes.attrs == map[] && this.nullType == nullType
    {
      this.nullType := nullType;
      attributes := new AttributeSet();
    }

    /** An exception leaves compute() before it has changed anything. */
    method Op(kind: Kind, t: TypeIndex, instance: Key, made: Value, constructible: bool) returns (answer: Answer)
      requires made != 0
      modifies attributes
      ensures attributes.attrs == AfterOp(old(attributes.attrs), nullType, t, instance, kind, made, constructible)
      ensures answer == Decide(Get(old(attributes.attrs), Id(nullType, t, instance)), kind, made, constructible).1
      ensures var m, n, name := old(attributes.attrs), attributes.attrs, Id(nullType, t, instance);
        Meant(kind, m, n, name, made, constructible, answer) && OthersKept(m, n, name)
    {
      EachOp(attributes.attrs, nullType, t, instance, kind, made, constructible);
      var name := MakeId(nullType, t, instance);
      var val := if name in attributes.attrs then attributes.attrs[name] else 0;
      var (kept, a) := Decide(val, kind, made, constructible);
      answer := a;
      if answer.Servlet? {
        ghost var _ := attributes.ComputeValue(name, (v: Value) => kept);
      }
    }
  }

  function AfterOp(m: Attrs, nullType: TypeIndex, t: TypeIndex, instance: Key, kind: Kind, made: Value,
        constructible: bool): Attrs
  {
    var name := Id(nullType, t, instance);
    var (kept, answer) := Decide(Get(m, name), kind, made, constructible);
    if !answer.Servlet? then m else if kept != 0 then m[name := kept] else m - {name}
  }

  /** Working on one servlet leaves every other one alone, whatever the instance names look like. */
  lemma OthersUntouched(m: Attrs, nullType: TypeIndex, t: TypeIndex, i: Key, u: TypeIndex, j: Key,
      kind: Kind, made: Value, constructible: bool)
    requires t != u || i != j
    ensures Get(AfterOp(m, nullType, t, i, kind, made, constructible), Id(nullType, u, j)) == Get(m, Id(nullType, u, j))
  {
    if Id(nullType, t, i) == Id(nullType, u, j) { IdInjective(nullType, t, i, u, j); }
  }

  /** ret creates a servlet at most once: asked again, with whatever arguments, it gives the same one. */
  lemma RetCreatesOnce(m: Attrs, nullType: TypeIndex, t: TypeIndex, i: Key, first: Value, second: Value, c: bool)
    requires first != 0 && second != 0
    ensures var name := Id(nullType, t, i);
      var n := AfterOp(m, nullType, t, i, RetOp, first, true);
      && Decide(Get(n, name), RetOp, second, c).1 == Servlet(Get(n, name)) && Get(n, name) != 0
      && AfterOp(n, nullType, t, i, RetOp, second, c) == n
      && (Get(m, name) != 0 ==> n == m)
  {
    var name := Id(nullType, t, i);
    var n := AfterOp(m, nullType, t, i, RetOp, first, true);
    assert n[name := Get(n, name)] == n;
    assert Get(m, name) != 0 ==> m[name := Get(m, name)] == m;
  }
}

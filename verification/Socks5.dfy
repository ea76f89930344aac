/**
 The client side of the SOCKS5 server of test/socks5.cpp: a coroutine that parses the negotiation
 only by switching the session's protocol between frames. It is proved against the message formats
 of RFC 1928 (sections 3 and 4) and RFC 1929 (section 2).
 */
module Socks5 {
  import opened Bits
  import opened Framing
  import opened SessionRead
  import opened Wrappers
  import PrefixCodec
  import ReadTheorems
  import Tracing

  // ---- the messages of the two standards ----

  datatype Target =
    | V4(address: seq<Byte>, port: nat)
    | V6(address: seq<Byte>, port: nat)
    | Domain(name: seq<Byte>, port: nat)

  datatype Login = Login(user: seq<Byte>, password: seq<Byte>)

  /** What a client sends; the login only counts if it offers method 2. */
  datatype Client = Client(methods: seq<Byte>, login: Login, target: Target) {

    predicate Valid() {
      && |methods| <= 255 && |login.user| <= 255 && |login.password| <= 255
      && target.port < 65536
      && match target
         case V4(a, _) => |a| == 4
         case V6(a, _) => |a| == 16
         case Domain(n, _) => |n| <= 255
    }
  }

  /** VER NMETHODS METHODS, section 3 of RFC 1928. */
  function Hello(methods: seq<Byte>): seq<Byte>
    requires |methods| <= 255
  {
    [5, |methods|] + methods
  }

  /** VER ULEN UNAME PLEN PASSWD, section 2 of RFC 1929. */
  function Credentials(l: Login): seq<Byte>
    requires |l.user| <= 255 && |l.password| <= 255
  {
    [1] + ([|l.user|] + l.user) + ([|l.password|] + l.password)
  }

  /** Address and port in network byte order, section 4 of RFC 1928. */
  function Destination(t: Target): seq<Byte>
    requires t.port < 65536 && (t.Domain? ==> |t.name| <= 255)
  {
    (if t.Domain? then [|t.name|] + t.name else t.address) + [t.port / 256, t.port % 256]
  }

  function AddressType(t: Target): Byte {
    match t
    case V4(_, _) => 1
    case Domain(_, _) => 3
    case V6(_, _) => 4
  }

  /** VER CMD RSV ATYP DST.ADDR DST.PORT with CMD CONNECT, section 4 of RFC 1928. */
  function Request(t: Target): seq<Byte>
    requires t.port < 65536 && (t.Domain? ==> |t.name| <= 255)
  {
    [5, 1, 0, AddressType(t)] + Destination(t)
  }

  /** Everything the client sends up to and including its request, if it may make one. */
  function Stream(c: Client): seq<Byte>
    requires c.Valid()
  {
    Hello(c.methods) + (if 2 in c.methods then Credentials(c.login) else [])
      + (if 2 in c.methods || 0 in c.methods then Request(c.target) else [])
  }

  // ---- the coroutine ----

  /** The yield a coroutine continues from; Over when it has ended or an exception left it. */
  datatype Position =
    | AtGreeting | AtMethods | AtAuthVersion | AtUser | AtPassword | AtRequest
    | AtAddressV4 | AtPortV4 | AtAddressV6 | AtPortV6 | AtDomain | AtPortDomain | Over

  /** A conversation: where the coroutine is, the session's settings, and what came of it so far. */
  datatype Talk = Talk(
    at: Position, config: Config, replies: seq<seq<Byte>>, login: Option<Login>, target: Option<Target>)

  const KEEP := Options(true, false, false, false)

  function FixedSize(n: nat, options: Options): Config
    requires 0 < n <= MAX_STORAGE
  {
    Settings(Fixed, options, n, [])
  }

  function Prefixed(limit: nat): Config
    requires 0 < limit <= MAX_STORAGE
  {
    Settings(Prefix8, KEEP, limit, [])
  }

  const START := Talk(AtGreeting, FixedSize(1, NO_OPTIONS), [], None, None)

  /** Memory beyond the buffer is never looked at, see NeverReadsOutside. */
  function At(s: seq<Byte>, i: nat): Byte {
    if i < |s| then s[i] else 0
  }

  function Sub(s: seq<Byte>, i: nat, n: nat): seq<Byte> {
    if i + n <= |s| then s[i..i + n] else []
  }

  function Port(s: seq<Byte>): nat {
    256 * At(s, 0) + At(s, 1)
  }

  /** One resumption of socks5::read. */
  function Resumed(t: Talk, call: Call): Talk {
    var whole, data := call.whole, call.segment;
    match t.at
    case AtGreeting =>
      if At(whole, 0) != 5 then t.(at := Over) else t.(at := AtMethods, config := Prefixed(256))
    case AtMethods =>
      var methods := Sub(whole, 2, At(whole, 1));
      if 2 in methods then
        t.(at := AtAuthVersion, config := FixedSize(1, NO_OPTIONS), replies := t.replies + [[5, 2]])
      else if 0 in methods then
        t.(at := AtRequest, config := FixedSize(4, NO_OPTIONS), replies := t.replies + [[5, 0]])
      else
        t.(at := Over, replies := t.replies + [[5, 255]])
    case AtAuthVersion =>
      if At(whole, 0) != 1 then t.(at := Over) else t.(at := AtUser, config := Prefixed(256))
    case AtUser => t.(at := AtPassword, config := Prefixed(256))
    case AtPassword =>
      t.(at := AtRequest, config := FixedSize(4, NO_OPTIONS), replies := t.replies + [[1, 0]],
        login := Some(Login(Sub(whole, 2, At(whole, 1)), Sub(data, 1, At(data, 0)))))
    case AtRequest =>
      if At(whole, 0) != 5 || At(whole, 1) != 1 || At(whole, 2) != 0 then t.(at := Over)
      else if At(whole, 3) == 1 then t.(at := AtAddressV4, config := FixedSize(4, KEEP))
      else if At(whole, 3) == 4 then t.(at := AtAddressV6, config := FixedSize(16, KEEP))
      else if At(whole, 3) == 3 then t.(at := AtDomain, config := Prefixed(257))
      else t.(at := Over)
    case AtAddressV4 => t.(at := AtPortV4, config := FixedSize(2, KEEP))
    case AtPortV4 => Connecting(t, V4(Sub(whole, 4, 4), Port(data)))
    case AtAddressV6 => t.(at := AtPortV6, config := FixedSize(2, KEEP))
    case AtPortV6 => Connecting(t, V6(Sub(whole, 4, 16), Port(data)))
    case AtDomain => t.(at := AtPortDomain, config := FixedSize(2, KEEP))
    case AtPortDomain => t.(at := Over, target := Some(Domain(Sub(whole, 5, At(whole, 4)), Port(data))))
    case Over => t
  }

  /** connect_to: from here on the session relays whatever comes. */
  function Connecting(t: Talk, target: Target): Talk {
    t.(at := Over, config := Settings(Anything, NO_OPTIONS, 65536, []), target := Some(target))
  }

  /** The coroutine after a series of calls. */
  function Talked(calls: seq<Call>): Talk {
    if calls == [] then START else Resumed(Talked(calls[..|calls| - 1]), calls[|calls| - 1])
  }

  /** The handler as the read side of a session sees it. */
  function Socks(calls: seq<Call>): Reaction {
    Continue(0, Talked(calls).config)
  }

  // ---- the handler object ----

  method AnyOf(methods: seq<Byte>, wanted: Byte) returns (any: bool)
    ensures any <==> wanted in methods
  {
    for i := 0 to |methods|
      invariant wanted !in methods[..i]
    {
      if methods[i] == wanted { return true; }
    }
    return false;
  }

  class Conversation {
    var at: Position
    var config: Config
    var replies: seq<seq<Byte>>
    var login: Option<Login>
    var target: Option<Target>

    function Now(): Talk
      reads this
    {
      Talk(at, config, replies, login, target)
    }

    constructor ()
      ensures Now() == START
    {
      at, config, replies, login, target := AtGreeting, FixedSize(1, NO_OPTIONS), [], None, None;
    }

    method Write(reply: seq<Byte>)
      modifies this`replies
      ensures replies == old(replies) + [reply]
    {
      replies := replies + [reply];
    }

    method Read(data: seq<Byte>, whole: seq<Byte>)
      modifies this
      ensures Now() == Resumed(old(Now()), Call(data, whole))
    {
      match at {
        case AtGreeting =>
          if At(whole, 0) != 5 { at := Over; return; }
          at, config := AtMethods, Prefixed(256);
        case AtMethods =>
          var methods := Sub(whole, 2, At(whole, 1));
          var password := AnyOf(methods, 2);
          if password {
            Write([5, 2]);
            at, config := AtAuthVersion, FixedSize(1, NO_OPTIONS);
            return;
          }
          var open := AnyOf(methods, 0);
          if open {
            Write([5, 0]);
            at, config := AtRequest, FixedSize(4, NO_OPTIONS);
          } else {
            Write([5, 255]);
            at := Over;
          }
        case AtAuthVersion =>
          if At(whole, 0) != 1 { at := Over; return; }
          at, config := AtUser, Prefixed(256);
        case AtUser =>
          at, config := AtPassword, Prefixed(256);
        case AtPassword =>
          login := Some(Login(Sub(whole, 2, At(whole, 1)), Sub(data, 1, At(data, 0))));
          Write([1, 0]);
          at, config := AtRequest, FixedSize(4, NO_OPTIONS);
        case AtRequest => ReadRequest(whole);
        case AtAddressV4 => at, config := AtPortV4, FixedSize(2, KEEP);
        case AtPortV4 => ConnectTo(V4(Sub(whole, 4, 4), Port(data)));
        case AtAddressV6 => at, config := AtPortV6, FixedSize(2, KEEP);
        case AtPortV6 => ConnectTo(V6(Sub(whole, 4, 16), Port(data)));
        case AtDomain => at, config := AtPortDomain, FixedSize(2, KEEP);
        case AtPortDomain =>
          at, target := Over, Some(Domain(Sub(whole, 5, At(whole, 4)), Port(data)));
        case Over =>
      }
    }

    method ReadRequest(whole: seq<Byte>)
      requires at.AtRequest?
      modifies this
      ensures Now() == Resumed(old(Now()), Call([], whole))
    {
      if At(whole, 0) != 5 || At(whole, 1) != 1 || At(whole, 2) != 0 {
        at := Over;
      } else if At(whole, 3) == 1 {
        at, config := AtAddressV4, FixedSize(4, KEEP);
      } else if At(whole, 3) == 4 {
        at, config := AtAddressV6, FixedSize(16, KEEP);
      } else if At(whole, 3) == 3 {
        at, config := AtDomain, Prefixed(257);
      } else {
        at := Over;
      }
    }

    method ConnectTo(t: Target)
      modifies this
      ensures Now() == Connecting(old(Now()), t)
    {
      at, config, target := Over, Settings(Anything, NO_OPTIONS, 65536, []), Some(t);
    }
  }

  // ---- conversations over a stream ----

  datatype Standing = Standing(talk: Talk, kept: seq<Byte>, rest: seq<Byte>)

  /** The conversation a stream leads to from a given standing. */
  function Converse(t: Talk, kept: seq<Byte>, s: seq<Byte>): Standing
    decreases |s|
  {
    match CutOf(t.config, s)
    case Frame(skip, size, trailer) =>
      var next := Resumed(t, Call(s[skip..size], kept + s[..size]));
      Converse(next, Keep(next.config, kept + s[..size] + s[size..size + trailer]), s[size + trailer..])
    case _ => Standing(t, kept, s)
  }

  lemma SocksAdvances(p: Point, s: seq<Byte>, cut: Cut)
    requires cut.Frame? && cut.skip <= cut.size && cut.size + cut.trailer <= |s|
    ensures var next, talk := Advance(Socks, p, s, cut),
      Resumed(Talked(p.calls), Call(s[cut.skip..cut.size], p.kept + s[..cut.size]));
      && Talked(next.calls) == talk && next.config == talk.config
      && next.kept == Keep(talk.config, p.kept + s[..cut.size] + s[cut.size..cut.size + cut.trailer])
  {
    hide Resumed;
    var next := Advance(Socks, p, s, cut);
    assert next.calls[..|next.calls| - 1] == p.calls;
    assert Drop(p.kept + s[..cut.size], 0) == p.kept + s[..cut.size];
  }

  /** The session's calls are that conversation. */
  lemma {:induction false} FramesConverse(p: Point, s: seq<Byte>)
    requires p.config == Talked(p.calls).config
    ensures var o, c := Frames(Socks, p, s), Converse(Talked(p.calls), p.kept, s);
      Talked(o.point.calls) == c.talk && o.point.kept == c.kept && o.rest == c.rest
    decreases |s|
  {
    hide CutOf, Resumed, Talked, Advance;
    var cut := CutOf(p.config, s);
    if cut.Frame? {
      SocksAdvances(p, s, cut);
      FramesConverse(Advance(Socks, p, s, cut), s[cut.size + cut.trailer..]);
    }
  }

  // ---- the frames the coroutine asks for ----

  lemma CutOfFixed(n: nat, options: Options, s: seq<Byte>)
    requires 0 < n <= MAX_STORAGE
    ensures CutOf(FixedSize(n, options), s) == if n <= |s| then Frame(0, n, 0) else More
  {
  }

  /** One length byte and as many bytes as it says: with these limits it always fits. */
  lemma CutOfPrefixed(limit: nat, s: seq<Byte>)
    requires 256 <= limit <= MAX_STORAGE
    ensures CutOf(Prefixed(limit), s) ==
      if |s| > 0 && 1 + (s[0] as nat) <= |s| then Frame(0, 1 + (s[0] as nat), 0) else More
  {
    if |s| > 0 {
      var p := s[..1];
      assert PrefixCodec.Reverse(p) == p;
      var d := PrefixCodec.DigitsOf(p, false, false);
      assert d == [s[0] as nat];
      assert PrefixCodec.Sum(d, 256) == s[0] + 256 * PrefixCodec.Sum(d[1..], 256);
    }
  }

  /** The conversation after one more frame a, which is all of its segment. */
  function Taken(t: Talk, kept: seq<Byte>, a: seq<Byte>): Talk {
    Resumed(t, Call(a, kept + a))
  }

  lemma TakeFrame(t: Talk, kept: seq<Byte>, a: seq<Byte>, s: seq<Byte>)
    requires CutOf(t.config, a + s) == Frame(0, |a|, 0) && a != []
    ensures var next := Taken(t, kept, a);
      Converse(t, kept, a + s) == Converse(next, Keep(next.config, kept + a), s)
  {
    hide CutOf, Resumed;
    var all := a + s;
    assert all[..|a|] == a && all[0..|a|] == a && all[|a|..|a| + 0] == [] && all[|a| + 0..] == s;
    assert kept + a + [] == kept + a;
  }

  lemma TakeFixed(t: Talk, kept: seq<Byte>, options: Options, a: seq<Byte>, s: seq<Byte>)
    requires 0 < |a| <= MAX_STORAGE && t.config == FixedSize(|a|, options)
    ensures var next := Taken(t, kept, a);
      Converse(t, kept, a + s) == Converse(next, Keep(next.config, kept + a), s)
  {
    hide Resumed, CutOf, Converse;
    CutOfFixed(|a|, options, a + s);
    TakeFrame(t, kept, a, s);
  }

  lemma TakePrefixed(t: Talk, kept: seq<Byte>, limit: nat, body: seq<Byte>, s: seq<Byte>)
    requires 256 <= limit <= MAX_STORAGE && t.config == Prefixed(limit) && |body| <= 255
    ensures var a := [|body| as Byte] + body; var next := Taken(t, kept, a);
      Converse(t, kept, a + s) == Converse(next, Keep(next.config, kept + a), s)
  {
    hide Resumed, CutOf, Converse;
    var a := [|body| as Byte] + body;
    CutOfPrefixed(limit, a + s);
    TakeFrame(t, kept, a, s);
  }

  // ---- round trip ----

  predicate Admitted(c: Client) { 2 in c.methods || 0 in c.methods }

  function Answers(c: Client): seq<seq<Byte>> {
    if 2 in c.methods then [[5, 2], [1, 0]] else if 0 in c.methods then [[5, 0]] else [[5, 255]]
  }

  /** How a conversation with a client ends. */
  function Ended(c: Client): Talk {
    Talk(Over,
      if !Admitted(c) then Prefixed(256)
      else if c.target.Domain? then FixedSize(2, KEEP)
      else Settings(Anything, NO_OPTIONS, 65536, []),
      Answers(c),
      if 2 in c.methods then Some(c.login) else None,
      if Admitted(c) then Some(c.target) else None)
  }

  function LeftKept(c: Client): seq<Byte>
    requires c.Valid()
  {
    if !Admitted(c) then Hello(c.methods)
    else if c.target.Domain? then Request(c.target)
    else []
  }

  /** The talk before the request. */
  function Invited(c: Client): Talk {
    Talk(AtRequest, FixedSize(4, NO_OPTIONS), Answers(c), if 2 in c.methods then Some(c.login) else None, None)
  }

  /** After the version byte. */
  const GREETED := START.(at := AtMethods, config := Prefixed(256))

  /** After a method list that offers method 2. */
  const CHALLENGED := Talk(AtAuthVersion, FixedSize(1, NO_OPTIONS), [[5, 2]], None, None)

  lemma MethodsRead(c: Client)
    requires c.Valid()
    ensures Taken(GREETED, [5], [|c.methods| as Byte] + c.methods) ==
      if 2 in c.methods then CHALLENGED else if 0 in c.methods then Invited(c) else Ended(c)
  {
    var m := c.methods;
    var whole := [5] + ([|m| as Byte] + m);
    assert Sub(whole, 2, At(whole, 1)) == m;
    assert forall reply: seq<Byte> :: [] + [reply] == [reply];
  }

  lemma HelloTaken(c: Client, s: seq<Byte>)
    requires c.Valid()
    ensures Converse(START, [], Hello(c.methods) + s) ==
      if 2 in c.methods then Converse(CHALLENGED, [], s)
      else if 0 in c.methods then Converse(Invited(c), [], s)
      else Converse(Ended(c), LeftKept(c), s)
  {
    hide Converse, CutOf;
    var m := c.methods;
    var a := [|m| as Byte] + m;
    assert Hello(m) + s == [5] + (a + s);
    TakeFixed(START, [], NO_OPTIONS, [5], a + s);
    assert Taken(START, [], [5]) == GREETED;
    assert Keep(GREETED.config, [] + [5]) == [5];
    HelloContinues(c, s);
  }

  lemma HelloContinues(c: Client, s: seq<Byte>)
    requires c.Valid()
    ensures Converse(GREETED, [5], ([|c.methods| as Byte] + c.methods) + s) ==
      if 2 in c.methods then Converse(CHALLENGED, [], s)
      else if 0 in c.methods then Converse(Invited(c), [], s)
      else Converse(Ended(c), LeftKept(c), s)
  {
    hide Converse, CutOf, Resumed, Taken;
    TakePrefixed(GREETED, [5], 256, c.methods, s);
    MethodsRead(c);
    assert [5] + ([|c.methods| as Byte] + c.methods) == Hello(c.methods);
  }

  lemma CredentialsTaken(c: Client, s: seq<Byte>)
    requires c.Valid() && 2 in c.methods
    ensures Converse(CHALLENGED, [], Credentials(c.login) + s) == Converse(Invited(c), [], s)
  {
    hide Converse, CutOf;
    var u, w := [|c.login.user| as Byte] + c.login.user, [|c.login.password| as Byte] + c.login.password;
    CredentialsAre(c.login, u, w, s);
    hide Credentials;
    TakeFixed(CHALLENGED, [], NO_OPTIONS, [1], u + (w + s));
    var t1 := CHALLENGED.(at := AtUser, config := Prefixed(256));
    assert Taken(CHALLENGED, [], [1]) == t1;
    assert Keep(t1.config, [] + [1]) == [1];
    TakePrefixed(t1, [1], 256, c.login.user, w + s);
    var t2 := CHALLENGED.(at := AtPassword, config := Prefixed(256));
    assert Taken(t1, [1], u) == t2;
    assert Keep(t2.config, [1] + u) == [1] + u;
    TakePrefixed(t2, [1] + u, 256, c.login.password, s);
    LoginRead(c.login, u, w);
    assert Taken(t2, [1] + u, w) == Invited(c);
  }

  lemma CredentialsAre(l: Login, u: seq<Byte>, w: seq<Byte>, s: seq<Byte>)
    requires |l.user| <= 255 && |l.password| <= 255
    requires u == [|l.user| as Byte] + l.user && w == [|l.password| as Byte] + l.password
    ensures Credentials(l) + s == [1] + (u + (w + s))
  {
  }

  lemma LoginRead(l: Login, u: seq<Byte>, w: seq<Byte>)
    requires |l.user| <= 255 && |l.password| <= 255
    requires u == [|l.user| as Byte] + l.user && w == [|l.password| as Byte] + l.password
    ensures Login(Sub([1] + u + w, 2, At([1] + u + w, 1)), Sub(w, 1, At(w, 0))) == l
  {
    assert ([1] + u + w)[2..2 + |l.user|] == l.user;
  }

  lemma PortRead(port: nat)
    requires port < 65536
    ensures Port([port / 256, port % 256]) == port
  {
  }

  function HeadOf(x: Target): seq<Byte> { [5, 1, 0, AddressType(x)] }

  function AddressOf(x: Target): seq<Byte>
    requires x.Domain? ==> |x.name| <= 255
  {
    if x.Domain? then [|x.name| as Byte] + x.name else x.address
  }

  /** The talk once the request's head has been accepted, and once its address is there. */
  function Asked(c: Client): Talk {
    match c.target
    case V4(_, _) => Invited(c).(at := AtAddressV4, config := FixedSize(4, KEEP))
    case V6(_, _) => Invited(c).(at := AtAddressV6, config := FixedSize(16, KEEP))
    case Domain(_, _) => Invited(c).(at := AtDomain, config := Prefixed(257))
  }

  function Addressed(c: Client): Talk {
    var at := match c.target
      case V4(_, _) => AtPortV4
      case V6(_, _) => AtPortV6
      case Domain(_, _) => AtPortDomain;
    Invited(c).(at := at, config := FixedSize(2, KEEP))
  }

  lemma AddressTaken(c: Client, s: seq<Byte>)
    requires c.Valid()
    ensures Converse(Asked(c), HeadOf(c.target), AddressOf(c.target) + s)
      == Converse(Addressed(c), HeadOf(c.target) + AddressOf(c.target), s)
  {
    hide Converse, CutOf;
    var x, head := c.target, HeadOf(c.target);
    if x.Domain? {
      TakePrefixed(Asked(c), head, 257, x.name, s);
    } else {
      TakeFixed(Asked(c), head, KEEP, x.address, s);
    }
    assert Taken(Asked(c), head, AddressOf(x)) == Addressed(c);
  }

  lemma PortTaken(c: Client, s: seq<Byte>)
    requires c.Valid() && Admitted(c)
    ensures var port, kept := [c.target.port / 256, c.target.port % 256], HeadOf(c.target) + AddressOf(c.target);
      Converse(Addressed(c), kept, port + s) == Converse(Ended(c), LeftKept(c), s)
  {
    hide Converse, CutOf, Ended, LeftKept, Resumed;
    var x := c.target;
    TakeFixed(Addressed(c), HeadOf(x) + AddressOf(x), KEEP, [x.port / 256, x.port % 256], s);
    PortResumes(c);
  }

  lemma PortResumes(c: Client)
    requires c.Valid() && Admitted(c)
    ensures var port, kept := [c.target.port / 256, c.target.port % 256], HeadOf(c.target) + AddressOf(c.target);
      Taken(Addressed(c), kept, port) == Ended(c) && Keep(Ended(c).config, kept + port) == LeftKept(c)
  {
    var x := c.target;
    var port := [x.port / 256, x.port % 256];
    AddressRead(x, HeadOf(x), AddressOf(x), port);
    PortRead(x.port);
    RequestParts(x, port);
    hide Request, HeadOf, AddressOf, Destination, Credentials;
  }

  lemma RequestParts(x: Target, port: seq<Byte>)
    requires x.port < 65536 && (x.Domain? ==> |x.name| <= 255) && port == [x.port / 256, x.port % 256]
    ensures HeadOf(x) + AddressOf(x) + port == Request(x)
  {
  }

  lemma RequestTaken(c: Client, s: seq<Byte>)
    requires c.Valid() && Admitted(c)
    ensures Converse(Invited(c), [], Request(c.target) + s) == Converse(Ended(c), LeftKept(c), s)
  {
    hide Converse, CutOf, Ended, LeftKept;
    var x := c.target;
    var head, address, port := HeadOf(x), AddressOf(x), [x.port / 256, x.port % 256];
    assert Request(x) + s == head + (address + (port + s));
    TakeFixed(Invited(c), [], NO_OPTIONS, head, address + (port + s));
    assert [] + head == head;
    assert Taken(Invited(c), [], head) == Asked(c);
    AddressTaken(c, port + s);
    PortTaken(c, s);
  }

  lemma AddressRead(x: Target, head: seq<Byte>, address: seq<Byte>, port: seq<Byte>)
    requires |head| == 4
    requires x.Domain? ==> |x.name| <= 255 && address == [|x.name| as Byte] + x.name
    requires !x.Domain? ==> address == x.address
    ensures var whole := head + address + port;
      && (x.Domain? ==> Sub(whole, 5, At(whole, 4)) == x.name)
      && (!x.Domain? ==> Sub(whole, 4, |x.address|) == x.address)
  {
    var whole := head + address + port;
    assert whole[4..4 + |address|] == address;
    assert x.Domain? ==> whole[5..5 + |x.name|] == x.name;
  }

  /** Whatever a client sends, the conversation ends as it should, having taken exactly that. */
  lemma RoundTrip(c: Client, extra: seq<Byte>)
    requires c.Valid()
    ensures Converse(START, [], Stream(c) + extra) == Converse(Ended(c), LeftKept(c), extra)
  {
    hide Converse, Hello, Credentials, Request, Ended, LeftKept;
    StreamParts(c, extra);
    EndedUnadmitted(c);
    var request := if Admitted(c) then Request(c.target) else [];
    if 2 in c.methods {
      HelloTaken(c, Credentials(c.login) + (request + extra));
      CredentialsTaken(c, request + extra);
    } else {
      HelloTaken(c, request + extra);
    }
    if Admitted(c) { RequestTaken(c, extra); } else { assert request + extra == extra; }
  }

  // ---- the same byte by byte ----

  const RELAY: Config := Settings(Anything, NO_OPTIONS, 65536, [])

  /** VER 5, a method list with 0 but not 2, then a request for an IPv4 address and a port. */
  lemma V4InFull(methods: seq<Byte>, address: seq<Byte>, p: Byte, q: Byte, extra: seq<Byte>)
    requires |methods| <= 255 && 0 in methods && 2 !in methods && |address| == 4
    ensures Converse(START, [], [5, |methods|] + methods + [5, 1, 0, 1] + address + [p, q] + extra).talk
      == Talk(Over, RELAY, [[5, 0]], None, Some(V4(address, 256 * p + q)))
  {
    var c := Client(methods, Login([], []), V4(address, 256 * p + q));
    var s := [5, |methods|] + methods + [5, 1, 0, 1] + address + [p, q] + extra;
    assert Stream(c) + extra == s;
    RoundTrip(c, extra);
    EndedIsOver(c);
    OverStays(Ended(c), LeftKept(c), extra);
  }

  /** The same for an IPv6 address. */
  lemma V6InFull(methods: seq<Byte>, address: seq<Byte>, p: Byte, q: Byte, extra: seq<Byte>)
    requires |methods| <= 255 && 0 in methods && 2 !in methods && |address| == 16
    ensures Converse(START, [], [5, |methods|] + methods + [5, 1, 0, 4] + address + [p, q] + extra).talk
      == Talk(Over, RELAY, [[5, 0]], None, Some(V6(address, 256 * p + q)))
  {
    var c := Client(methods, Login([], []), V6(address, 256 * p + q));
    var s := [5, |methods|] + methods + [5, 1, 0, 4] + address + [p, q] + extra;
    assert Stream(c) + extra == s;
    RoundTrip(c, extra);
    EndedIsOver(c);
    OverStays(Ended(c), LeftKept(c), extra);
  }

  /** With method 2 offered: user name and password, each with its length in front; then a domain name. */
  lemma DomainInFull(methods: seq<Byte>, user: seq<Byte>, password: seq<Byte>, name: seq<Byte>, p: Byte, q: Byte,
        extra: seq<Byte>)
    requires |methods| <= 255 && 2 in methods && |user| <= 255 && |password| <= 255 && |name| <= 255
    ensures Converse(START, [], DomainStream(methods, user, password, name, p, q) + extra).talk
      == Talk(Over, Settings(Fixed, KEEP, 2, []), [[5, 2], [1, 0]], Some(Login(user, password)),
           Some(Domain(name, 256 * p + q)))
  {
    var c := Client(methods, Login(user, password), Domain(name, 256 * p + q));
    DomainStreamIs(c, p, q);
    RoundTrip(c, extra);
    EndedIsOver(c);
    OverStays(Ended(c), LeftKept(c), extra);
  }

  function DomainStream(methods: seq<Byte>, user: seq<Byte>, password: seq<Byte>, name: seq<Byte>, p: Byte, q: Byte):
      seq<Byte>
    requires |methods| <= 255 && |user| <= 255 && |password| <= 255 && |name| <= 255
  {
    [5, |methods|] + methods + [1, |user|] + user + [|password|] + password + [5, 1, 0, 3, |name|] + name + [p, q]
  }

  lemma DomainStreamIs(c: Client, p: Byte, q: Byte)
    requires c.Valid() && 2 in c.methods && c.target.Domain? && c.target.port == 256 * p + q
    ensures Stream(c) == DomainStream(c.methods, c.login.user, c.login.password, c.target.name, p, q)
  {
    var a, b := [5, |c.methods|] + c.methods, [1, |c.login.user|] + c.login.user;
    var d := [|c.login.password| as Byte] + c.login.password;
    assert Credentials(c.login) == b + d;
    assert Request(c.target) == [5, 1, 0, 3, |c.target.name|] + c.target.name + [p, q];
    hide Credentials, Request;
  }

  /** Without method 0 or 2 the answer is 255, and nothing more happens. */
  lemma RefusalInFull(methods: seq<Byte>, extra: seq<Byte>)
    requires |methods| <= 255 && 0 !in methods && 2 !in methods
    ensures var t := Converse(START, [], [5, |methods|] + methods + extra).talk;
      t.at == Over && t.replies == [[5, 255]] && t.login.None? && t.target.None?
  {
    var c := Client(methods, Login([], []), V4([0, 0, 0, 0], 0));
    var s := [5, |methods|] + methods + extra;
    assert Stream(c) + extra == s;
    RoundTrip(c, extra);
    EndedIsOver(c);
    OverStays(Ended(c), LeftKept(c), extra);
  }

  /** The settings under which the coroutine waits at each of its yields. */
  predicate AsksFor(t: Talk) {
    match t.at
    case AtGreeting => t.config == Settings(Fixed, Options(false, false, false, false), 1, [])
    case AtMethods => t.config == Settings(Prefix8, Options(true, false, false, false), 256, [])
    case AtAuthVersion => t.config == Settings(Fixed, Options(false, false, false, false), 1, [])
    case AtUser => t.config == Settings(Prefix8, Options(true, false, false, false), 256, [])
    case AtPassword => t.config == Settings(Prefix8, Options(true, false, false, false), 256, [])
    case AtRequest => t.config == Settings(Fixed, Options(false, false, false, false), 4, [])
    case AtAddressV4 => t.config == Settings(Fixed, Options(true, false, false, false), 4, [])
    case AtPortV4 => t.config == Settings(Fixed, Options(true, false, false, false), 2, [])
    case AtAddressV6 => t.config == Settings(Fixed, Options(true, false, false, false), 16, [])
    case AtPortV6 => t.config == Settings(Fixed, Options(true, false, false, false), 2, [])
    case AtDomain => t.config == Settings(Prefix8, Options(true, false, false, false), 257, [])
    case AtPortDomain => t.config == Settings(Fixed, Options(true, false, false, false), 2, [])
    case Over =>
      t.target.Some? && !t.target.value.Domain? ==>
        t.config == Settings(Anything, Options(false, false, false, false), 65536, [])
  }

  /** Whatever is sent, the coroutine never waits under other settings. */
  lemma {:induction false} SettingsAsked(calls: seq<Call>)
    ensures AsksFor(Talked(calls)) && (Talked(calls).target.Some? ==> Talked(calls).at.Over?)
  {
    if calls != [] {
      SettingsAsked(calls[..|calls| - 1]);
      hide At, Sub;
    }
  }

  lemma StreamParts(c: Client, extra: seq<Byte>)
    requires c.Valid()
    ensures var request := if Admitted(c) then Request(c.target) else [];
      Stream(c) + extra ==
        Hello(c.methods) + if 2 in c.methods then Credentials(c.login) + (request + extra) else request + extra
  {
    hide Hello, Credentials, Request;
    var a, b := Hello(c.methods), if 2 in c.methods then Credentials(c.login) else [];
    var request := if Admitted(c) then Request(c.target) else [];
    assert a + b + request + extra == a + (b + (request + extra));
    if 2 !in c.methods { assert b + (request + extra) == request + extra; }
  }

  lemma EndedUnadmitted(c: Client)
    requires c.Valid()
    ensures !Admitted(c) ==> LeftKept(c) == Hello(c.methods)
  {
  }

  /** A conversation that is over stays as it is. */
  lemma {:induction false} OverStays(t: Talk, kept: seq<Byte>, s: seq<Byte>)
    requires t.at.Over?
    ensures Converse(t, kept, s).talk == t
    decreases |s|
  {
    hide CutOf;
    var cut := CutOf(t.config, s);
    if cut.Frame? {
      OverStays(t, Keep(t.config, kept + s[..cut.size] + s[cut.size..cut.size + cut.trailer]),
        s[cut.size + cut.trailer..]);
    }
  }

  lemma {:induction false} OverStaysTalked(calls: seq<Call>, more: seq<Call>)
    requires Talked(calls).at.Over?
    ensures Talked(calls + more) == Talked(calls)
    decreases |more|
  {
    if more == [] {
      assert calls + more == calls;
    } else {
      var n := |more| - 1;
      assert (calls + more)[..|calls + more| - 1] == calls + more[..n];
      OverStaysTalked(calls, more[..n]);
    }
  }

  lemma EndedIsOver(c: Client)
    ensures Ended(c).at.Over?
  {
  }

  lemma {:induction false} NeverDelimited(calls: seq<Call>)
    ensures !IsDelim(Talked(calls).config.protocol)
  {
    if calls != [] { NeverDelimited(calls[..|calls| - 1]); }
  }

  /** The coroutine never asks for a delimiter, so no search for one can fail. */
  lemma NeverSearches(s: State)
    requires s.Valid() && s.handler == Socks && s.start == START.config
    ensures !s.failure.Cancelled?
  {
    hide Frames, CutOf, Talked, State.Linked, State.Conserved, State.Bounded, State.BrokenHere, State.ClosedHere,
      Tracing.Traced;
    NeverDelimited(s.calls);
  }

  /**
   End to end: a session with this handler that has received a client's bytes and anything after
   them, in any pieces, has made the right replies and has the client's login and target.
   */
  lemma AnyChunking(s: State, c: Client, extra: seq<Byte>)
    requires s.Valid() && ReadTheorems.Quiescent(s) && c.Valid()
    requires s.handler == Socks && s.start == START.config && s.received == Stream(c) + extra
    ensures Talked(s.calls) == Ended(c)
  {
    hide State.Valid, Frames, Resumed, Ended, Stream, Converse, Hello, CutOf, LeftKept;
    NeverSearches(s);
    ReadTheorems.Faithful(s);
    var calls := s.Meaning().point.calls;
    assert calls <= s.calls;
    FramesConverse(Point([], s.start, []), s.received);
    RoundTrip(c, extra);
    EndedIsOver(c);
    OverStays(Ended(c), LeftKept(c), extra);
    assert s.calls == calls + s.calls[|calls|..];
    OverStaysTalked(calls, s.calls[|calls|..]);
  }

  // ---- nothing else is accepted ----

  /** A conversation that goes on to find a target has the frame it asked for. */
  lemma NeedsFixed(t: Talk, kept: seq<Byte>, n: nat, options: Options, s: seq<Byte>)
    requires 0 < n <= MAX_STORAGE && t.config == FixedSize(n, options) && t.target.None?
    requires Converse(t, kept, s).talk.target.Some?
    ensures n <= |s|
    ensures var a := s[..n]; var next := Taken(t, kept, a);
      Converse(t, kept, s) == Converse(next, Keep(next.config, kept + a), s[n..])
  {
    hide Resumed, CutOf;
    CutOfFixed(n, options, s);
    if n <= |s| {
      assert s == s[..n] + s[n..];
      TakeFixed(t, kept, options, s[..n], s[n..]);
    }
  }

  lemma NeedsPrefixed(t: Talk, kept: seq<Byte>, limit: nat, s: seq<Byte>)
    requires 256 <= limit <= MAX_STORAGE && t.config == Prefixed(limit) && t.target.None?
    requires Converse(t, kept, s).talk.target.Some?
    ensures s != [] && 1 + (s[0] as nat) <= |s|
    ensures var n := 1 + s[0] as nat; var a := s[..n]; var next := Taken(t, kept, a);
      Converse(t, kept, s) == Converse(next, Keep(next.config, kept + a), s[n..])
  {
    hide Resumed, CutOf;
    CutOfPrefixed(limit, s);
    if s != [] && 1 + (s[0] as nat) <= |s| {
      var n := 1 + s[0] as nat;
      assert s == ([s[0]] + s[1..n]) + s[n..];
      TakePrefixed(t, kept, limit, s[1..n], s[n..]);
      assert [s[0]] + s[1..n] == s[..n];
    }
  }

  lemma PortBytes(p: seq<Byte>)
    requires |p| == 2
    ensures Port(p) < 65536 && p == [Port(p) / 256, Port(p) % 256]
  {
  }

  /** The address asked for is there. c stands for its kind of target only. */
  lemma SoundAddress(c: Client, s: seq<Byte>) returns (n: nat)
    requires Converse(Asked(c), HeadOf(c.target), s).talk.target.Some?
    ensures n <= |s| && (c.target.V4? ==> n == 4) && (c.target.V6? ==> n == 16)
    ensures c.target.Domain? ==> s != [] && n == 1 + s[0] as nat
    ensures Converse(Asked(c), HeadOf(c.target), s) == Converse(Addressed(c), HeadOf(c.target) + s[..n], s[n..])
  {
    hide CutOf, Converse;
    var head := HeadOf(c.target);
    match c.target {
      case V4(_, _) => n := 4; NeedsFixed(Asked(c), head, 4, KEEP, s);
      case V6(_, _) => n := 16; NeedsFixed(Asked(c), head, 16, KEEP, s);
      case Domain(_, _) => NeedsPrefixed(Asked(c), head, 257, s); n := 1 + s[0] as nat;
    }
    assert Taken(Asked(c), head, s[..n]) == Addressed(c);
  }

  /** The target that some bytes are the destination of. */
  lemma TargetOf(kind: Target, a: seq<Byte>, p: seq<Byte>) returns (x: Target)
    requires |p| == 2 && (kind.Domain? ==> a != [] && |a| == 1 + a[0] as nat)
    ensures x.V4? == kind.V4? && x.V6? == kind.V6? && x.port < 65536 && (x.Domain? ==> |x.name| <= 255)
    ensures !x.Domain? ==> x.address == a
    ensures Destination(x) == a + p
  {
    PortBytes(p);
    x := match kind
      case V4(_, _) => V4(a, Port(p))
      case V6(_, _) => V6(a, Port(p))
      case Domain(_, _) => Domain(a[1..], Port(p));
    assert x.Domain? ==> a == [|x.name| as Byte] + x.name;
  }

  /** An address of the kind asked for and a port are there. */
  lemma SoundDestination(c: Client, s: seq<Byte>) returns (x: Target)
    requires Converse(Asked(c), HeadOf(c.target), s).talk.target.Some?
    ensures x.V4? == c.target.V4? && x.V6? == c.target.V6? && x.port < 65536 && (x.Domain? ==> |x.name| <= 255)
    ensures (x.V4? ==> |x.address| == 4) && (x.V6? ==> |x.address| == 16)
    ensures Destination(x) <= s
  {
    hide CutOf, Converse, Resumed, Destination;
    var n := SoundAddress(c, s);
    NeedsFixed(Addressed(c), HeadOf(c.target) + s[..n], 2, KEEP, s[n..]);
    var p := s[n..][..2];
    x := TargetOf(c.target, s[..n], p);
    assert s == (s[..n] + p) + s[n + 2..];
  }

  /** A target comes only from a request. */
  lemma SoundRequest(c: Client, s: seq<Byte>) returns (d: Client)
    requires |c.methods| <= 255 && |c.login.user| <= 255 && |c.login.password| <= 255 && Admitted(c)
    requires Converse(Invited(c), [], s).talk.target.Some?
    ensures d.Valid() && d == c.(target := d.target) && Request(d.target) <= s
  {
    hide CutOf, Converse, Request;
    NeedsFixed(Invited(c), [], 4, NO_OPTIONS, s);
    var a := s[..4];
    var next := Taken(Invited(c), [], a);
    assert [] + a == a;
    if next.at.Over? { OverStays(next, Keep(next.config, a), s[4..]); }
    var kind := if a[3] == 1 then V4([], 0) else if a[3] == 4 then V6([], 0) else Domain([], 0);
    var e := c.(target := kind);
    assert a == HeadOf(kind);
    assert next == Asked(e);
    assert Keep(next.config, a) == a;
    var x := SoundDestination(e, s[4..]);
    d := c.(target := x);
    assert s == a + s[4..];
    RequestIs(x);
  }

  lemma RequestIs(x: Target)
    requires x.port < 65536 && (x.Domain? ==> |x.name| <= 255)
    ensures HeadOf(x) + Destination(x) == Request(x)
  {
  }

  /** After a challenge, a target means that credentials were sent first. */
  lemma SoundCredentials(s: seq<Byte>) returns (l: Login)
    requires Converse(CHALLENGED, [], s).talk.target.Some?
    ensures |l.user| <= 255 && |l.password| <= 255 && Credentials(l) <= s
  {
    hide CutOf, Converse;
    NeedsFixed(CHALLENGED, [], 1, NO_OPTIONS, s);
    var next := Taken(CHALLENGED, [], s[..1]);
    if next.at.Over? { OverStays(next, Keep(next.config, [] + s[..1]), s[1..]); }
    assert s[..1] == [1];
    assert Keep(ASKED_USER.config, [] + [1]) == [1];
    var n, m := SoundNames(s[1..]);
    var u := s[1..];
    var w := u[n..];
    l := Login(u[1..n], w[1..m]);
    CredentialsShape(s, n, m);
  }

  const ASKED_USER := CHALLENGED.(at := AtUser, config := Prefixed(256))

  const ASKED_PASSWORD := CHALLENGED.(at := AtPassword, config := Prefixed(256))

  /** Two strings with their lengths in front are there. */
  lemma SoundNames(u: seq<Byte>) returns (n: nat, m: nat)
    requires Converse(ASKED_USER, [1], u).talk.target.Some?
    ensures u != [] && n == 1 + (u[0] as nat) < |u| && n + m <= |u| && m == 1 + u[n] as nat
  {
    hide CutOf, Converse;
    NeedsPrefixed(ASKED_USER, [1], 256, u);
    n := 1 + u[0] as nat;
    assert Taken(ASKED_USER, [1], u[..n]) == ASKED_PASSWORD;
    assert Keep(ASKED_PASSWORD.config, [1] + u[..n]) == [1] + u[..n];
    NeedsPrefixed(ASKED_PASSWORD, [1] + u[..n], 256, u[n..]);
    m := 1 + u[n] as nat;
  }

  lemma CredentialsShape(s: seq<Byte>, n: nat, m: nat)
    requires 1 < |s| && s[0] == 1 && n == 1 + (s[1] as nat) && 1 + n < |s| && m == 1 + (s[1 + n] as nat)
      && 1 + n + m <= |s|
    ensures Credentials(Login(s[1..][1..n], s[1..][n..][1..m])) <= s
  {
    var l := Login(s[1..][1..n], s[1..][n..][1..m]);
    assert s[1..][..n] == [|l.user| as Byte] + l.user;
    assert s[1..][n..][..m] == [|l.password| as Byte] + l.password;
    assert s == ([1] + s[1..][..n] + s[1..][n..][..m]) + s[1 + n + m..];
  }

  /** The greeting comes first, and offers a method the server takes. */
  lemma SoundHello(s: seq<Byte>) returns (methods: seq<Byte>)
    requires Converse(START, [], s).talk.target.Some?
    ensures |methods| <= 255 && Hello(methods) <= s && (2 in methods || 0 in methods)
  {
    hide CutOf, Converse;
    NeedsFixed(START, [], 1, NO_OPTIONS, s);
    var next := Taken(START, [], s[..1]);
    if next.at.Over? { OverStays(next, Keep(next.config, [] + s[..1]), s[1..]); }
    assert s[..1] == [5];
    var u := s[1..];
    assert Keep(GREETED.config, [] + [5]) == [5];
    NeedsPrefixed(GREETED, [5], 256, u);
    var n := 1 + u[0] as nat;
    methods := u[1..n];
    var c := Client(methods, Login([], []), V4([0, 0, 0, 0], 0));
    assert u[..n] == [|methods| as Byte] + methods;
    MethodsRead(c);
    if !Admitted(c) { OverStays(Ended(c), Keep(Ended(c).config, [5] + u[..n]), u[n..]); }
    assert s == Hello(methods) + u[n..];
  }

  /**
   The converse of the round trip: if a stream leads to a target at all, it begins with the bytes of
   a client that asks for this target, and replies and login are that client's too.
   */
  lemma OnlyClients(s: seq<Byte>)
    requires Converse(START, [], s).talk.target.Some?
    ensures exists c: Client :: c.Valid() && Admitted(c) && Stream(c) <= s && Converse(START, [], s).talk == Ended(c)
  {
    hide CutOf, Converse, Ended, Resumed, Hello, Credentials, Request;
    var methods := SoundHello(s);
    var login := Login([], []);
    var c := Client(methods, login, V4([0, 0, 0, 0], 0));
    var rest := s[|Hello(methods)|..];
    assert s == Hello(methods) + rest;
    HelloTaken(c, rest);
    if 2 in methods {
      login := SoundCredentials(rest);
      c := c.(login := login);
      var after := rest[|Credentials(login)|..];
      assert rest == Credentials(login) + after;
      CredentialsTaken(c, after);
      rest := after;
    }
    var d := SoundRequest(c, rest);
    var extra := rest[|Request(d.target)|..];
    assert rest == Request(d.target) + extra;
    assert s == Stream(d) + extra;
    RoundTrip(d, extra);
    EndedIsOver(d);
    OverStays(Ended(d), LeftKept(d), extra);
  }

  // ---- memory ----

  /** The buffer is long enough for what a resumption looks at. */
  predicate InBounds(t: Talk, call: Call) {
    var w, d := call.whole, call.segment;
    match t.at
    case AtGreeting => |w| >= 1
    case AtMethods => |w| >= 2 && 2 + (w[1] as nat) <= |w|
    case AtAuthVersion => |w| >= 1
    case AtPassword => |w| >= 2 && 2 + (w[1] as nat) <= |w| && |d| >= 1 && 1 + (d[0] as nat) <= |d|
    case AtRequest => |w| >= 4
    case AtPortV4 => |w| >= 8 && |d| >= 2
    case AtPortV6 => |w| >= 20 && |d| >= 2
    case AtPortDomain => |w| >= 5 && 5 + (w[4] as nat) <= |w| && |d| >= 2
    case _ => true
  }

  /** The settings and the kept bytes that go with each position. */
  predicate Shaped(t: Talk, kept: seq<Byte>) {
    match t.at
    case AtGreeting => t.config == FixedSize(1, NO_OPTIONS) && kept == []
    case AtMethods => t.config == Prefixed(256) && |kept| == 1
    case AtAuthVersion => t.config == FixedSize(1, NO_OPTIONS) && kept == []
    case AtUser => t.config == Prefixed(256) && |kept| == 1
    case AtPassword => t.config == Prefixed(256) && |kept| >= 2 && 2 + (kept[1] as nat) <= |kept|
    case AtRequest => t.config == FixedSize(4, NO_OPTIONS) && kept == []
    case AtAddressV4 => t.config == FixedSize(4, KEEP) && |kept| == 4
    case AtPortV4 => t.config == FixedSize(2, KEEP) && |kept| == 8
    case AtAddressV6 => t.config == FixedSize(16, KEEP) && |kept| == 4
    case AtPortV6 => t.config == FixedSize(2, KEEP) && |kept| == 20
    case AtDomain => t.config == Prefixed(257) && |kept| == 4
    case AtPortDomain => t.config == FixedSize(2, KEEP) && |kept| >= 5 && 5 + (kept[4] as nat) <= |kept|
    case Over => true
  }

  lemma ShapedStep(t: Talk, kept: seq<Byte>, s: seq<Byte>)
    requires Shaped(t, kept) && CutOf(t.config, s).Frame? && !t.at.Over?
    ensures var cut := CutOf(t.config, s);
      var next := Taken(t, kept, s[..cut.size]);
      && cut.skip == 0 && cut.trailer == 0
      && InBounds(t, Call(s[..cut.size], kept + s[..cut.size]))
      && Shaped(next, Keep(next.config, kept + s[..cut.size]))
  {
    hide CutOf;
    if t.config.protocol.Fixed? {
      CutOfFixed(t.config.limit, t.config.options, s);
      FixedShape(t, kept, s[..t.config.limit]);
    } else {
      CutOfPrefixed(t.config.limit, s);
      PrefixedShape(t, kept, s[..1 + s[0] as nat]);
    }
  }

  lemma FixedShape(t: Talk, kept: seq<Byte>, a: seq<Byte>)
    requires Shaped(t, kept) && !t.at.Over? && t.config.protocol.Fixed? && |a| == t.config.limit
    ensures InBounds(t, Call(a, kept + a))
    ensures var next := Taken(t, kept, a); Shaped(next, Keep(next.config, kept + a))
  {
  }

  lemma PrefixedShape(t: Talk, kept: seq<Byte>, a: seq<Byte>)
    requires Shaped(t, kept) && !t.at.Over? && t.config.protocol.Prefix8? && |a| > 0 && |a| == 1 + a[0] as nat
    ensures InBounds(t, Call(a, kept + a))
    ensures var next := Taken(t, kept, a); Shaped(next, Keep(next.config, kept + a))
  {
  }

  ghost predicate AllInBounds(calls: seq<Call>) {
    forall i :: 0 <= i < |calls| ==> InBounds(Talked(calls[..i]), calls[i])
  }

  lemma InBoundsAppend(calls: seq<Call>, call: Call)
    requires AllInBounds(calls) && InBounds(Talked(calls), call)
    ensures AllInBounds(calls + [call])
  {
    hide InBounds, Talked;
    forall i | 0 <= i < |calls + [call]| ensures InBounds(Talked((calls + [call])[..i]), (calls + [call])[i]) {
      assert (calls + [call])[..i] == calls[..i];
      assert calls[..|calls|] == calls;
    }
  }

  /** No stream makes the handler look outside the bytes it was handed. */
  lemma {:induction false} NeverReadsOutside(p: Point, s: seq<Byte>)
    requires p.config == Talked(p.calls).config && Shaped(Talked(p.calls), p.kept) && AllInBounds(p.calls)
    ensures AllInBounds(Frames(Socks, p, s).point.calls)
    decreases |s|
  {
    hide CutOf, Resumed, Talked, Advance, InBounds, AllInBounds, Shaped;
    var cut := CutOf(p.config, s);
    if cut.Frame? {
      var t := Talked(p.calls);
      StepInBounds(p, s);
      SocksAdvances(p, s, cut);
      NeverReadsOutside(Advance(Socks, p, s, cut), s[cut.size + cut.trailer..]);
    }
  }

  lemma StepInBounds(p: Point, s: seq<Byte>)
    requires p.config == Talked(p.calls).config && Shaped(Talked(p.calls), p.kept) && AllInBounds(p.calls)
    requires CutOf(p.config, s).Frame?
    ensures var next := Advance(Socks, p, s, CutOf(p.config, s));
      AllInBounds(next.calls) && Shaped(Talked(next.calls), next.kept)
  {
    hide CutOf, Resumed, Talked, InBounds, AllInBounds, Shaped;
    var cut, t := CutOf(p.config, s), Talked(p.calls);
    SocksAdvances(p, s, cut);
    InBoundsHere(t, p.kept, s);
    InBoundsAppend(p.calls, CallFor(p, s, cut));
  }

  lemma InBoundsHere(t: Talk, kept: seq<Byte>, s: seq<Byte>)
    requires Shaped(t, kept) && CutOf(t.config, s).Frame?
    ensures var cut := CutOf(t.config, s);
      var call := Call(s[cut.skip..cut.size], kept + s[..cut.size]);
      && InBounds(t, call)
      && Shaped(Resumed(t, call),
           Keep(Resumed(t, call).config, kept + s[..cut.size] + s[cut.size..cut.size + cut.trailer]))
  {
    hide CutOf;
    if !t.at.Over? {
      ShapedStep(t, kept, s);
      var cut := CutOf(t.config, s);
      assert kept + s[..cut.size] + s[cut.size..cut.size] == kept + s[..cut.size];
    }
  }
}

/** Dialling through a chain of SOCKS5 hops: where the bytes go.

    The far end of the stream is simulated from the bytes the client has written. An endpoint is either
    an honest SOCKS5 server with a policy of its own, which hands everything that follows an accepted
    CONNECT to the endpoint it was asked for, or any other application, which may speak first. */
module Chain {
  import opened Common
  import opened Text
  import opened Socks5
  import opened Socks5Client
  import opened Socks5Exact

  // ----- honest servers -----

  type Byte = c: char | c as int < 256 witness 0 as char

  type BoundAddr = d: Dest | d.Valid() && IsBytes(AddrField(d)) witness V4([ZERO, ZERO, ZERO, ZERO])

  type BoundPort = b: Bytes | |b| == 2 && IsBytes(b) witness [ZERO, ZERO]

  /** How a server decides: which method, whether credentials are good, whether it can connect. */
  datatype Policy = Policy(
    select: Bytes -> Byte, auth: (Bytes, Bytes) -> Byte, connect: (Dest, nat) -> Byte, bnd: BoundAddr, bndPort: BoundPort)

  /** An application: what it has sent, given what it has received; not necessarily nothing at first. */
  type Speaker = f: Bytes -> Bytes | forall w :: IsBytes(f(w)) witness (w: Bytes) => ""

  datatype Host = Proxy(policy: Policy) | App(speak: Speaker)

  datatype Endpoint = Endpoint(dest: Dest, port: nat)

  type Net = Endpoint -> Host

  /** What an accepted CONNECT leads to. */
  datatype Tunnel = Tunnel(learned: Learned, rest: Bytes)

  datatype Served = Served(out: Bytes, tunnel: Option<Tunnel>)

  /** An honest server that has received `w`: what it has answered, and the tunnel it has opened. */
  function Serve(pol: Policy, w: Bytes): (s: Served)
    ensures IsBytes(s.out)
    ensures s.tunnel.Some? ==> |s.tunnel.value.rest| < |w|
  {
    match ReadGreeting(w)
    case Got(methods, w1) =>
      var m := pol.select(methods);
      if m == METHOD_NO_AUTH then ServeConnect(pol, [VER, m], methods, None, w1)
      else if m == METHOD_USER_PASS then
        match ReadAuth(w1)
        case Got((u, p), w2) =>
          var status := pol.auth(u, p);
          if status == ZERO then ServeConnect(pol, [VER, m, AUTH_VER, status], methods, Some((u, p)), w2)
          else Served([VER, m, AUTH_VER, status], None)
        case _ => Served([VER, m], None)
      else Served([VER, m], None)
    case _ => Served("", None)
  }

  function ServeConnect(pol: Policy, out: Bytes, methods: Bytes, creds: Option<(Bytes, Bytes)>, w: Bytes): (s: Served)
    requires IsBytes(out)
    ensures IsBytes(s.out)
    ensures s.tunnel.Some? ==> |s.tunnel.value.rest| < |w|
  {
    match ReadConnect(w)
    case Got((d, port), rest) =>
      var rep := pol.connect(d, port);
      Served(out + ConnectReply(rep, ZERO, pol.bnd, pol.bndPort),
             if rep == ZERO then Some(Tunnel(Learned(methods, creds, d, port), rest)) else None)
    case _ => Served(out, None)
  }

  /** What any host that has received `w` has sent, and the tunnel it has opened. */
  function Answer(host: Host, w: Bytes): (s: Served)
    ensures IsBytes(s.out)
    ensures s.tunnel.Some? ==> |s.tunnel.value.rest| < |w|
  {
    match host
    case Proxy(pol) => Serve(pol, w)
    case App(speak) => Served(speak(w), None)
  }

  function Next(t: Tunnel): Endpoint {
    Endpoint(t.learned.dest, t.learned.port)
  }

  /** All that comes back to the client who has written `w` into a stream that starts at `at`. */
  function Out(net: Net, at: Endpoint, w: Bytes): (out: Bytes)
    ensures IsBytes(out)
    decreases |w|
  {
    var s := Answer(net(at), w);
    if s.tunnel.None? then s.out else s.out + Out(net, Next(s.tunnel.value), s.tunnel.value.rest)
  }

  datatype Visit = Visit(at: Endpoint, learned: Learned)

  /** The CONNECTs made along the way: at which endpoint, and what that endpoint learned. */
  function Visits(net: Net, at: Endpoint, w: Bytes): seq<Visit>
    decreases |w|
  {
    var s := Answer(net(at), w);
    if s.tunnel.None? then []
    else [Visit(at, s.tunnel.value.learned)] + Visits(net, Next(s.tunnel.value), s.tunnel.value.rest)
  }

  /** Where the bytes end up: the endpoint at the far end, and those of them it has received. */
  function Received(net: Net, at: Endpoint, w: Bytes): (Endpoint, Bytes)
    decreases |w|
  {
    var s := Answer(net(at), w);
    if s.tunnel.None? then (at, w) else Received(net, Next(s.tunnel.value), s.tunnel.value.rest)
  }

  /** Who receives the next byte. */
  function FarEnd(net: Net, at: Endpoint, w: Bytes): Endpoint {
    Received(net, at, w).0
  }

  function HonestPeer(net: Net, first: Endpoint): Peer {
    (w: Bytes) => Out(net, first, w)
  }

  // ----- one exchange with one server -----

  /** A client exchange: credentials, method selected, and the CONNECT destination. */
  datatype Leg = Leg(user: Option<string>, pass: Option<string>, m: Byte, dest: Dest, port: nat)
  {
    predicate Valid() {
      dest.Valid() && port <= U16_MAX
      && (m == METHOD_NO_AUTH || (m == METHOD_USER_PASS && user.Some? && CredentialsFit(user, pass)))
    }

    function Written(): Bytes
      requires Valid()
    {
      ClientBytes(user, pass, m, dest, port)
    }

    function Creds(): Option<(Bytes, Bytes)> {
      if m == METHOD_USER_PASS then Some((OrEmpty(user), OrEmpty(pass))) else None
    }

    function To(): Endpoint {
      Endpoint(dest, port)
    }

    function Taught(): Learned {
      Learned(Offered(user), Creds(), dest, port)
    }
  }

  /** The host is a SOCKS5 server that accepts the leg. */
  predicate Admits(host: Host, leg: Leg) {
    host.Proxy? && Accepts(host.policy, leg)
  }

  /** The server selects the leg's method, takes the credentials and connects. */
  predicate Accepts(pol: Policy, leg: Leg) {
    && leg.Valid() && pol.select(Offered(leg.user)) == leg.m
    && (leg.m == METHOD_USER_PASS ==> pol.auth(OrEmpty(leg.user), OrEmpty(leg.pass)) == ZERO)
    && pol.connect(leg.dest, leg.port) == ZERO
  }

  /** What such a server sends, as a script for the client. */
  function ScriptOf(pol: Policy, m: Byte): Script {
    Script(m, AUTH_VER, ZERO, pol.bnd, pol.bndPort)
  }

  /** An accepting server answers with its script and passes on exactly what follows the leg. */
  lemma ServeLeg(pol: Policy, leg: Leg, x: Bytes)
    requires Accepts(pol, leg)
    ensures Serve(pol, leg.Written() + x) == Served(ScriptOf(pol, leg.m).All(), Some(Tunnel(leg.Taught(), x)))
  {
    hide ReadGreeting, ReadAuth, ReadConnect, Greeting, AuthRequest, ConnectRequest, ConnectReply, Offered, IsBytes;
    var g, c := Greeting(Offered(leg.user)), ConnectRequest(leg.dest, leg.port);
    var a := if leg.m == METHOD_USER_PASS then AuthRequest(OrEmpty(leg.user), OrEmpty(leg.pass)) else [];
    ConnectReads(leg.dest, leg.port, x);
    GreetingReads(Offered(leg.user), a + (c + x));
    Assoc(g + a, c, x);
    Assoc(g, a, c + x);
    var t := ScriptOf(pol, leg.m);
    if leg.m == METHOD_USER_PASS {
      AuthReads(OrEmpty(leg.user), OrEmpty(leg.pass), c + x);
      assert t.MethodBytes() + t.AuthBytes() == [VER, leg.m, AUTH_VER, ZERO];
    } else {
      assert a + (c + x) == c + x;
      assert t.MethodBytes() + t.AuthBytes() == [VER, leg.m];
    }
  }

  // A server that has received only part of an exchange has answered only part, and opened nothing.

  lemma ServeGreeting(pol: Policy, methods: Bytes)
    requires |methods| <= 255
    ensures Serve(pol, Greeting(methods)) == Served([VER, pol.select(methods)], None)
  {
    hide Greeting, ReadGreeting, IsBytes;
    GreetingReads(methods, "");
    assert Greeting(methods) + "" == Greeting(methods);
    assert ReadAuth("").Incomplete? && ReadConnect("").Incomplete?;
  }

  lemma ServeAuth(pol: Policy, methods: Bytes, u: Bytes, p: Bytes)
    requires |methods| <= 255 && |u| <= 255 && |p| <= 255 && pol.select(methods) == METHOD_USER_PASS
    ensures Serve(pol, Greeting(methods) + AuthRequest(u, p))
         == Served([VER, METHOD_USER_PASS, AUTH_VER, pol.auth(u, p)], None)
  {
    hide Greeting, ReadGreeting, ReadAuth, AuthRequest, IsBytes;
    GreetingReads(methods, AuthRequest(u, p));
    AuthReads(u, p, "");
    assert AuthRequest(u, p) + "" == AuthRequest(u, p);
    assert ReadConnect("").Incomplete?;
    assert METHOD_USER_PASS != METHOD_NO_AUTH;
  }

  /** The request, after a successful negotiation: the answer ends with the reply to it. */
  lemma ServeRequest(pol: Policy, leg: Leg)
    requires leg.Valid() && pol.select(Offered(leg.user)) == leg.m
    requires leg.m == METHOD_USER_PASS ==> pol.auth(OrEmpty(leg.user), OrEmpty(leg.pass)) == ZERO
    ensures var s, rep := Serve(pol, leg.Written()), pol.connect(leg.dest, leg.port);
      && s.out == ScriptOf(pol, leg.m).MethodBytes() + ScriptOf(pol, leg.m).AuthBytes() + ConnectReply(rep, ZERO, pol.bnd, pol.bndPort)
      && (s.tunnel.Some? <==> rep == ZERO)
      && (s.tunnel.Some? ==> s.tunnel.value == Tunnel(leg.Taught(), ""))
  {
    hide ReadGreeting, ReadAuth, ReadConnect, Greeting, AuthRequest, ConnectRequest, ConnectReply, Offered, IsBytes;
    var g, c := Greeting(Offered(leg.user)), ConnectRequest(leg.dest, leg.port);
    var a := if leg.m == METHOD_USER_PASS then AuthRequest(OrEmpty(leg.user), OrEmpty(leg.pass)) else [];
    ConnectReads(leg.dest, leg.port, "");
    assert c + "" == c;
    GreetingReads(Offered(leg.user), a + c);
    Assoc(g, a, c);
    var t := ScriptOf(pol, leg.m);
    if leg.m == METHOD_USER_PASS {
      AuthReads(OrEmpty(leg.user), OrEmpty(leg.pass), c);
      assert t.MethodBytes() + t.AuthBytes() == [VER, leg.m, AUTH_VER, ZERO];
    } else {
      assert a + c == c;
      assert t.MethodBytes() + t.AuthBytes() == [VER, leg.m];
    }
  }

  lemma OutOfNothing(net: Net, at: Endpoint)
    ensures Visits(net, at, "") == [] && Received(net, at, "") == (at, "")
    ensures net(at).Proxy? ==> Out(net, at, "") == ""
  {
  }

  // ----- a route made of legs -----

  predicate AllValid(legs: seq<Leg>) {
    forall i :: 0 <= i < |legs| ==> legs[i].Valid()
  }

  function BytesOf(legs: seq<Leg>): Bytes
    requires AllValid(legs)
  {
    if legs == [] then "" else BytesOf(legs[..|legs| - 1]) + legs[|legs| - 1].Written()
  }

  function EndOf(first: Endpoint, legs: seq<Leg>): Endpoint {
    if legs == [] then first else legs[|legs| - 1].To()
  }

  /** Each leg is accepted by the endpoint the legs before it lead to. */
  predicate Consistent(net: Net, first: Endpoint, legs: seq<Leg>)
    ensures Consistent(net, first, legs) ==> AllValid(legs)
  {
    legs == [] || (
      var init := legs[..|legs| - 1];
      var last := legs[|legs| - 1];
      assert forall i :: 0 <= i < |init| ==> legs[i] == init[i];
      Consistent(net, first, init) && Admits(net(EndOf(first, init)), last))
  }

  /** What a host contributes to the answers when it has accepted a leg. */
  function ScriptBytes(host: Host, m: Byte): Bytes {
    match host
    case Proxy(pol) =>
      ScriptOf(pol, m).MethodBytes() + ScriptOf(pol, m).AuthBytes() + ConnectReply(ZERO, ZERO, pol.bnd, pol.bndPort)
    case App(_) => ""
  }

  /** All the answers along a route. */
  function Answers(net: Net, first: Endpoint, legs: seq<Leg>): Bytes {
    if legs == [] then ""
    else
      var init := legs[..|legs| - 1];
      Answers(net, first, init) + ScriptBytes(net(EndOf(first, init)), legs[|legs| - 1].m)
  }

  /** Who was asked what along a route. */
  function VisitList(first: Endpoint, legs: seq<Leg>): seq<Visit> {
    if legs == [] then []
    else
      var init := legs[..|legs| - 1];
      VisitList(first, init) + [Visit(EndOf(first, init), legs[|legs| - 1].Taught())]
  }

  /** Bytes written after a route reach the endpoint at its end, and only that one. */
  lemma {:induction false} Route(net: Net, first: Endpoint, legs: seq<Leg>, x: Bytes)
    requires Consistent(net, first, legs)
    ensures Out(net, first, BytesOf(legs) + x) == Answers(net, first, legs) + Out(net, EndOf(first, legs), x)
    ensures Visits(net, first, BytesOf(legs) + x) == VisitList(first, legs) + Visits(net, EndOf(first, legs), x)
    ensures Received(net, first, BytesOf(legs) + x) == Received(net, EndOf(first, legs), x)
    decreases |legs|
  {
    hide Answer, IsBytes, ClientBytes, Consistent, Admits, Out, Visits, Received, ScriptBytes;
    if legs == [] {
      assert BytesOf(legs) + x == x;
    } else {
      var init, last := legs[..|legs| - 1], legs[|legs| - 1];
      var at := EndOf(first, init);
      LastAdmitted(net, first, legs);
      Route(net, first, init, last.Written() + x);
      OneLeg(net, at, last, x);
      Assoc(BytesOf(init), last.Written(), x);
      Assoc(Answers(net, first, init), ScriptBytes(net(at), last.m), Out(net, last.To(), x));
      Assoc(VisitList(first, init), [Visit(at, last.Taught())], Visits(net, last.To(), x));
    }
  }

  /** One exchange with a server that accepts it. */
  lemma OneLeg(net: Net, at: Endpoint, leg: Leg, x: Bytes)
    requires leg.Valid() && Admits(net(at), leg)
    ensures Out(net, at, leg.Written() + x) == ScriptBytes(net(at), leg.m) + Out(net, leg.To(), x)
    ensures Visits(net, at, leg.Written() + x) == [Visit(at, leg.Taught())] + Visits(net, leg.To(), x)
    ensures Received(net, at, leg.Written() + x) == Received(net, leg.To(), x)
  {
    hide Serve, IsBytes, ConnectReply, ClientBytes, Accepts;
    ServeLeg(net(at).policy, leg, x);
  }

  lemma LastAdmitted(net: Net, first: Endpoint, legs: seq<Leg>)
    requires Consistent(net, first, legs) && legs != []
    ensures var init := legs[..|legs| - 1];
      Consistent(net, first, init) && Admits(net(EndOf(first, init)), legs[|legs| - 1]) && legs[|legs| - 1].Valid()
  {
    hide Accepts;
  }
}

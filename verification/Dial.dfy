/** `dial`: one handshake per hop over the same stream, and the proof that it ends at the target. */
module Dial {
  import opened Common
  import opened Text
  import opened HostPort
  import opened Config
  import opened Socks5
  import opened Socks5Client
  import opened Socks5Exact
  import opened Chain

  // ----- dialling -----

  datatype DialFailure = FirstHopUnreachable | BadAddress(addr: string) | HopFailed(hop: nat, why: Failure)

  datatype DialOutcome = Connected(io: Io) | Broken(io: Io, failure: DialFailure)

  /** What hop `i` is asked for: the next hop, or the target. */
  function NextAddr(hops: seq<Hop>, target: string, i: nat): string
    requires i < |hops|
  {
    if i + 1 < |hops| then hops[i + 1].addr else target
  }

  /** The rest of `dial`, from hop `i` on. */
  function DialFrom(peer: Peer, io: Io, v6: V6Reader, hops: seq<Hop>, target: string, i: nat): DialOutcome
    requires i <= |hops|
    decreases |hops| - i
  {
    if i == |hops| then Connected(io)
    else
      var hp := SplitHostPort(NextAddr(hops, target, i));
      if hp.None? then Broken(io, BadAddress(NextAddr(hops, target, i)))
      else
        var o := Handshake(peer, io, DestOf(v6, hp.value.0), hp.value.1, hops[i].user, hops[i].pass);
        if o.Failed? then Broken(o.io, HopFailed(i, o.why)) else DialFrom(peer, o.io, v6, hops, target, i + 1)
  }

  /** `dial`. `reached` is whether the first hop could be connected to; the stream then starts there. */
  method Dial(s: Stream, v6: V6Reader, hops: seq<Hop>, target: string, reached: bool) returns (r: Option<DialFailure>)
    requires hops != []
    modifies s
    ensures !reached ==> r == Some(FirstHopUnreachable) && s.View() == old(s.View())
    ensures reached ==>
      var o := DialFrom(s.peer, old(s.View()), v6, hops, target, 0);
      s.View() == o.io && r == if o.Connected? then None else Some(o.failure)
  {
    if !reached {
      return Some(FirstHopUnreachable);
    }
    ghost var whole := DialFrom(s.peer, s.View(), v6, hops, target, 0);
    for i := 0 to |hops|
      invariant DialFrom(s.peer, s.View(), v6, hops, target, i) == whole
    {
      hide Handshake, SplitHostPort, DestOf;
      var next := if i + 1 < |hops| then hops[i + 1].addr else target;
      var hp := SplitHostPort(next);
      if hp.None? {
        return Some(BadAddress(next));
      }
      var failure := s.Connect(v6, hp.value.0, hp.value.1, hops[i].user, hops[i].pass);
      if failure.Some? {
        return Some(HopFailed(i, failure.value));
      }
    }
    return None;
  }

  // ----- one hop -----

  /** The address a text stands for, as it goes into a CONNECT. */
  function Resolve(v6: V6Reader, addr: string): (r: Option<Endpoint>)
    ensures r.Some? ==> r.value.dest.Valid() && r.value.port <= U16_MAX
  {
    var hp := SplitHostPort(addr);
    if hp.None? then None
    else
      var d := DestOf(v6, hp.value.0);
      if d.None? then None else Some(Endpoint(d.value, hp.value.1))
  }

  /** The stream stands at the end of a route, with every answer read. */
  predicate At(net: Net, first: Endpoint, legs: seq<Leg>, io: Io) {
    Consistent(net, first, legs) && io.sent == BytesOf(legs) && io.got == |Answers(net, first, legs)|
  }

  /** Position `k` of what endpoint `at` answers to `x` shows `b`. */
  predicate Says(net: Net, at: Endpoint, x: Bytes, k: nat, b: Bytes) {
    var out := Out(net, at, x);
    k + |b| <= |out| && out[k..k + |b|] == b
  }

  /** What can be read next depends only on the endpoint the route leads to. */
  lemma HearsFromEnd(net: Net, first: Endpoint, legs: seq<Leg>, io: Io, x: Bytes, k: nat, b: Bytes)
    requires At(net, first, legs, io)
    ensures Hears(HonestPeer(net, first), Io(io.sent + x, io.got + k, 0), b) <==> Says(net, EndOf(first, legs), x, k, b)
  {
    hide Consistent, IsBytes, Out, Answers, BytesOf, Says, Hears, HonestPeer, Received, Visits, VisitList, EndOf;
    Route(net, first, legs, x);
    HearsAfter(net, first, io.sent, Answers(net, first, legs), EndOf(first, legs), x, k, b);
  }

  lemma HearsAfter(net: Net, first: Endpoint, s: Bytes, a: Bytes, at: Endpoint, x: Bytes, k: nat, b: Bytes)
    requires Out(net, first, s + x) == a + Out(net, at, x)
    ensures Hears(HonestPeer(net, first), Io(s + x, |a| + k, 0), b) <==> Says(net, at, x, k, b)
  {
    hide Out, IsBytes;
    var out := Out(net, at, x);
    if k + |b| <= |out| {
      SliceTail(a, out, k, k + |b|);
    }
  }

  lemma HonestBytes(net: Net, first: Endpoint, w: Bytes)
    ensures IsBytes(HonestPeer(net, first)(w))
  {
    hide IsBytes;
  }

  lemma SliceTail(a: Bytes, b: Bytes, i: nat, j: nat)
    requires i <= j <= |b|
    ensures (a + b)[|a| + i..|a| + j] == b[i..j]
  {
  }

  /** The leg that hop settings, the server's choice and the next address make up. */
  function LegOf(pol: Policy, user: Option<string>, pass: Option<string>, to: Endpoint): Leg {
    Leg(user, pass, pol.select(Offered(user)), to.dest, to.port)
  }

  lemma OutGreeting(net: Net, at: Endpoint, user: Option<string>)
    requires net(at).Proxy?
    ensures Out(net, at, GreetingOf(user)) == [VER, net(at).policy.select(Offered(user))]
  {
    hide Serve, Greeting, Offered, IsBytes;
    ServeGreeting(net(at).policy, Offered(user));
  }

  lemma OutAuth(net: Net, at: Endpoint, user: Option<string>, pass: Option<string>)
    requires net(at).Proxy? && net(at).policy.select(Offered(user)) == METHOD_USER_PASS && CredentialsFit(user, pass)
    ensures Out(net, at, GreetingOf(user) + AuthRequest(OrEmpty(user), OrEmpty(pass)))
         == [VER, METHOD_USER_PASS, AUTH_VER, net(at).policy.auth(OrEmpty(user), OrEmpty(pass))]
  {
    hide Serve, Greeting, AuthRequest, Offered, IsBytes;
    ServeAuth(net(at).policy, Offered(user), OrEmpty(user), OrEmpty(pass));
  }

  /** The reply to a request, and what the endpoint behind it says unasked if it was accepted. */
  lemma OutRequest(net: Net, at: Endpoint, leg: Leg)
    requires leg.Valid() && net(at).Proxy? && net(at).policy.select(Offered(leg.user)) == leg.m
    requires leg.m == METHOD_USER_PASS ==> net(at).policy.auth(OrEmpty(leg.user), OrEmpty(leg.pass)) == ZERO
    ensures var pol := net(at).policy;
      var t, rep := ScriptOf(pol, leg.m), pol.connect(leg.dest, leg.port);
      Out(net, at, leg.Written())
      == t.MethodBytes() + t.AuthBytes() + ConnectReply(rep, ZERO, pol.bnd, pol.bndPort)
         + (if rep == ZERO then Out(net, leg.To(), "") else "")
  {
    hide Serve, ClientBytes, ConnectReply, Offered, IsBytes;
    ServeRequest(net(at).policy, leg);
  }

  /** The server accepts the leg, and the transport has room for it. */
  predicate Open(pol: Policy, leg: Leg, room: nat) {
    Accepts(pol, leg) && |leg.Written()| <= room
  }

  /** The handshake for the leg succeeds and leaves the stream at the end of the longer route. */
  predicate MovesOn(net: Net, first: Endpoint, legs: seq<Leg>, io: Io, leg: Leg) {
    leg.Valid() &&
    var o := Handshake(HonestPeer(net, first), io, Some(leg.dest), leg.port, leg.user, leg.pass);
    o.Done? && At(net, first, legs + [leg], o.io)
  }

  /** A server that accepts the leg lets the handshake succeed, and the stream moves on one endpoint. */
  lemma AcceptedHopSucceeds(net: Net, first: Endpoint, legs: seq<Leg>, io: Io, leg: Leg)
    requires At(net, first, legs, io) && net(EndOf(first, legs)).Proxy? && Open(net(EndOf(first, legs)).policy, leg, io.room)
    ensures MovesOn(net, first, legs, io, leg)
  {
    hide Greeting, AuthRequest, Offered, ConnectRequest, ConnectReply, IsBytes, Handshake, Hears, HonestPeer, Out, Consistent, Answers, BytesOf;
    var at := EndOf(first, legs);
    var peer := HonestPeer(net, first);
    var t := ScriptOf(net(at).policy, leg.m);
    var g, a, c := GreetingOf(leg.user), AuthPart(t.m, leg.user, leg.pass), ConnectRequest(leg.dest, leg.port);
    OutGreeting(net, at, leg.user);
    HearsFromEnd(net, first, legs, io, g, 0, t.MethodBytes());
    if leg.m == METHOD_USER_PASS {
      OutAuth(net, at, leg.user, leg.pass);
      HearsFromEnd(net, first, legs, io, g + a, 2, t.AuthBytes());
      Assoc(io.sent, g, a);
    }
    OutRequest(net, at, leg);
    assert leg.Written() == g + a + c;
    HearsFromEnd(net, first, legs, io, g + a + c, 2 + |t.AuthBytes()|, t.ReplyBytes());
    Assoc4(io.sent, g, a, c);
    MiddlePart(t.MethodBytes(), t.AuthBytes(), t.ReplyBytes(), Out(net, leg.To(), ""));
    assert Plays(peer, io, leg.dest, leg.port, leg.user, leg.pass, t);
    PlayedScriptSucceeds(peer, io, leg.dest, leg.port, leg.user, leg.pass, t);
    Snoc(net, first, legs, leg);
  }

  lemma MiddlePart(a: Bytes, b: Bytes, c: Bytes, d: Bytes)
    ensures (a + b + c + d)[|a| + |b|..|a| + |b| + |c|] == c
  {
  }

  /** Appending an accepted leg to a route. */
  lemma Snoc(net: Net, first: Endpoint, legs: seq<Leg>, leg: Leg)
    requires Consistent(net, first, legs) && Admits(net(EndOf(first, legs)), leg)
    ensures Consistent(net, first, legs + [leg])
    ensures BytesOf(legs + [leg]) == BytesOf(legs) + leg.Written()
    ensures |Answers(net, first, legs + [leg])|
         == |Answers(net, first, legs)| + |ScriptOf(net(EndOf(first, legs)).policy, leg.m).All()|
  {
    hide ClientBytes, ConnectReply;
    var all := legs + [leg];
    assert all[..|all| - 1] == legs && all[|all| - 1] == leg;
  }

  /** A handshake that succeeds at an honest server was accepted by it. */
  lemma SuccessWasAccepted(net: Net, first: Endpoint, legs: seq<Leg>, io: Io, to: Endpoint, user: Option<string>, pass: Option<string>)
    requires At(net, first, legs, io) && net(EndOf(first, legs)).Proxy? && to.dest.Valid() && to.port <= U16_MAX
    requires Handshake(HonestPeer(net, first), io, Some(to.dest), to.port, user, pass).Done?
    ensures var pol := net(EndOf(first, legs)).policy; Open(pol, LegOf(pol, user, pass, to), io.room)
  {
    hide Greeting, AuthRequest, Offered, ConnectRequest, IsBytes, Handshake, Hears, HonestPeer, Out, Consistent, Answers, BytesOf;
    var at := EndOf(first, legs);
    var pol := net(at).policy;
    var leg := LegOf(pol, user, pass, to);
    HonestBytes(net, first, Handshake(HonestPeer(net, first), io, Some(to.dest), to.port, user, pass).io.sent);
    var t := SuccessHasScript(HonestPeer(net, first), io, to.dest, to.port, user, pass);
    var g, a, c := GreetingOf(user), AuthPart(t.m, user, pass), ConnectRequest(to.dest, to.port);
    OutGreeting(net, at, user);
    HearsFromEnd(net, first, legs, io, g, 0, t.MethodBytes());
    assert [VER, leg.m][0..2] == [VER, leg.m];
    assert t.m == leg.m;
    if leg.m == METHOD_USER_PASS {
      OutAuth(net, at, user, pass);
      Assoc(io.sent, g, a);
      HearsFromEnd(net, first, legs, io, g + a, 2, t.AuthBytes());
      var status := pol.auth(OrEmpty(user), OrEmpty(pass));
      assert [VER, METHOD_USER_PASS, AUTH_VER, status][2..4] == [AUTH_VER, status];
    }
    OutRequest(net, at, leg);
    assert leg.Written() == g + a + c;
    Assoc4(io.sent, g, a, c);
    HearsFromEnd(net, first, legs, io, g + a + c, 2 + |t.AuthBytes()|, t.ReplyBytes());
    var s := ScriptOf(pol, leg.m);
    var reply := ConnectReply(pol.connect(to.dest, to.port), ZERO, pol.bnd, pol.bndPort);
    assert |s.AuthBytes()| == |t.AuthBytes()|;
    assert t.ReplyBytes()[1] == ZERO;
    ReplyStatus(s.MethodBytes(), s.AuthBytes(), reply, if reply[1] == ZERO then Out(net, leg.To(), "") else "", t.ReplyBytes());
  }

  /** Two replies found at the same place have the same status byte. */
  lemma ReplyStatus(a: Bytes, b: Bytes, reply: Bytes, rest: Bytes, heard: Bytes)
    requires |heard| > 1 && |reply| > 1 && |a| + |b| + |heard| <= |a + b + reply + rest|
    requires (a + b + reply + rest)[|a| + |b|..|a| + |b| + |heard|] == heard
    ensures heard[1] == reply[1]
  {
    var all := a + b + reply + rest;
    assert all[|a| + |b| + 1] == reply[1];
    assert heard[1] == all[|a| + |b|..|a| + |b| + |heard|][1];
  }

  // ----- the whole chain -----

  /** Leg `i` carries hop `i`'s own credentials and asks for what comes after hop `i`. */
  predicate LegsMatch(v6: V6Reader, hops: seq<Hop>, target: string, legs: seq<Leg>) {
    && |legs| <= |hops|
    && forall i :: 0 <= i < |legs| ==>
         && legs[i].user == hops[i].user && legs[i].pass == hops[i].pass
         && Resolve(v6, NextAddr(hops, target, i)) == Some(legs[i].To())
  }

  /** Every hop from `i` on, starting at endpoint `at`, resolves, is accepted and fits the transport. */
  predicate Willing(net: Net, at: Endpoint, v6: V6Reader, hops: seq<Hop>, target: string, i: nat, room: nat)
    requires i <= |hops|
    decreases |hops| - i
  {
    i == |hops| || (
      var to := Resolve(v6, NextAddr(hops, target, i));
      net(at).Proxy? && to.Some? &&
      var leg := LegOf(net(at).policy, hops[i].user, hops[i].pass, to.value);
      Open(net(at).policy, leg, room) && Willing(net, to.value, v6, hops, target, i + 1, room - |leg.Written()|))
  }

  /** A handshake without an encodable destination fails. */
  lemma NoDestinationFails(peer: Peer, io: Io, port: nat, user: Option<string>, pass: Option<string>)
    requires port <= U16_MAX
    ensures Handshake(peer, io, None, port, user, pass).Failed?
  {
    hide Negotiate;
  }

  /** One hop of `dial` at an honest server. */
  lemma HopIff(net: Net, first: Endpoint, legs: seq<Leg>, io: Io, v6: V6Reader, addr: string, user: Option<string>, pass: Option<string>)
    requires At(net, first, legs, io) && net(EndOf(first, legs)).Proxy? && SplitHostPort(addr).Some?
    ensures var hp := SplitHostPort(addr).value;
      var o := Handshake(HonestPeer(net, first), io, DestOf(v6, hp.0), hp.1, user, pass);
      var pol, to := net(EndOf(first, legs)).policy, Resolve(v6, addr);
      && (o.Done? <==> to.Some? && Open(pol, LegOf(pol, user, pass, to.value), io.room))
      && (o.Done? ==> MovesOn(net, first, legs, io, LegOf(pol, user, pass, to.value)))
  {
    hide At, Open, MovesOn, Handshake, SplitHostPort, DestOf, HonestPeer, EndOf;
    var hp := SplitHostPort(addr).value;
    var to := Resolve(v6, addr);
    if to.None? {
      NoDestinationFails(HonestPeer(net, first), io, hp.1, user, pass);
    } else {
      var pol := net(EndOf(first, legs)).policy;
      var leg := LegOf(pol, user, pass, to.value);
      if Handshake(HonestPeer(net, first), io, Some(to.value.dest), hp.1, user, pass).Done? {
        SuccessWasAccepted(net, first, legs, io, to.value, user, pass);
      }
      if Open(pol, leg, io.room) {
        AcceptedHopSucceeds(net, first, legs, io, leg);
        HandshakeDoneOf(net, first, legs, io, leg);
      }
    }
  }

  lemma HandshakeDoneOf(net: Net, first: Endpoint, legs: seq<Leg>, io: Io, leg: Leg)
    requires MovesOn(net, first, legs, io, leg)
    ensures leg.Valid()
    ensures Handshake(HonestPeer(net, first), io, Some(leg.dest), leg.port, leg.user, leg.pass).Done?
    ensures At(net, first, legs + [leg], Handshake(HonestPeer(net, first), io, Some(leg.dest), leg.port, leg.user, leg.pass).io)
  {
    hide At, Handshake, HonestPeer;
  }

  lemma EndOfSnoc(first: Endpoint, legs: seq<Leg>, leg: Leg)
    ensures EndOf(first, legs + [leg]) == leg.To()
  {
  }

  lemma MatchSnoc(v6: V6Reader, hops: seq<Hop>, target: string, legs: seq<Leg>, leg: Leg)
    requires LegsMatch(v6, hops, target, legs) && |legs| < |hops|
    requires leg.user == hops[|legs|].user && leg.pass == hops[|legs|].pass
    requires Resolve(v6, NextAddr(hops, target, |legs|)) == Some(leg.To())
    ensures LegsMatch(v6, hops, target, legs + [leg])
  {
    hide Resolve, NextAddr;
  }

  /** How much room a successful hop leaves. */
  lemma RoomAfter(peer: Peer, io: Io, leg: Leg)
    requires leg.Valid()
    requires Handshake(peer, io, Some(leg.dest), leg.port, leg.user, leg.pass).Done?
    ensures var o := Handshake(peer, io, Some(leg.dest), leg.port, leg.user, leg.pass);
      o.io.room + |o.io.sent| == io.room + |io.sent|
  {
    hide ClientBytes, Greeting, AuthRequest, ConnectRequest, Offered, IsBytes;
  }

  lemma LongerBytes(net: Net, first: Endpoint, legs: seq<Leg>, leg: Leg)
    requires Consistent(net, first, legs + [leg])
    ensures AllValid(legs) && leg.Valid() && |BytesOf(legs + [leg])| == |BytesOf(legs)| + |leg.Written()|
  {
    hide Consistent;
    var all := legs + [leg];
    assert all[..|all| - 1] == legs && all[|all| - 1] == leg;
    assert forall i :: 0 <= i < |legs| ==> legs[i] == all[i];
  }

  /** The state of `dial` before hop `i`, after the hops in `legs`. */
  ghost predicate Underway(net: Net, first: Endpoint, v6: V6Reader, hops: seq<Hop>, target: string, legs: seq<Leg>, io: Io) {
    At(net, first, legs, io) && LegsMatch(v6, hops, target, legs)
  }

  /** One round of the loop, when the hop succeeds. */
  lemma HopMovesOn(net: Net, first: Endpoint, v6: V6Reader, hops: seq<Hop>, target: string, legs: seq<Leg>, io: Io, o: Outcome, leg: Leg)
    requires Underway(net, first, v6, hops, target, legs, io) && |legs| < |hops|
    requires leg.user == hops[|legs|].user && leg.pass == hops[|legs|].pass
    requires Resolve(v6, NextAddr(hops, target, |legs|)) == Some(leg.To())
    requires MovesOn(net, first, legs, io, leg)
    requires o == Handshake(HonestPeer(net, first), io, Some(leg.dest), leg.port, leg.user, leg.pass)
    ensures o.Done? && Underway(net, first, v6, hops, target, legs + [leg], o.io)
    ensures EndOf(first, legs + [leg]) == leg.To()
    ensures leg.Valid() && o.io.room == io.room - |leg.Written()|
  {
    HandshakeDoneOf(net, first, legs, io, leg);
    MatchSnoc(v6, hops, target, legs, leg);
    EndOfSnoc(first, legs, leg);
    RoomAfter(HonestPeer(net, first), io, leg);
    LongerBytes(net, first, legs, leg);
    hide Consistent, BytesOf, Answers, Handshake, HonestPeer, MovesOn, LegsMatch, Resolve, NextAddr, EndOf, ClientBytes;
  }

  /** Every hop is an honest SOCKS5 server; the target may be anything. */
  ghost predicate HonestHops(net: Net, first: Endpoint, v6: V6Reader, hops: seq<Hop>) {
    && net(first).Proxy?
    && forall i :: 0 < i < |hops| && Resolve(v6, hops[i].addr).Some? ==> net(Resolve(v6, hops[i].addr).value).Proxy?
  }

  lemma HopIsProxy(net: Net, first: Endpoint, v6: V6Reader, hops: seq<Hop>, target: string, legs: seq<Leg>, io: Io)
    requires HonestHops(net, first, v6, hops) && Underway(net, first, v6, hops, target, legs, io)
    ensures |legs| <= |hops|
    ensures |legs| < |hops| ==> net(EndOf(first, legs)).Proxy?
  {
    hide At, Resolve;
    var n := |legs|;
    if 0 < n < |hops| {
      assert NextAddr(hops, target, n - 1) == hops[n].addr;
    }
  }

  /** The handshake for hop `i`, if its address splits. */
  function HopOutcome(peer: Peer, io: Io, v6: V6Reader, hops: seq<Hop>, target: string, i: nat): Option<Outcome>
    requires i < |hops|
  {
    var hp := SplitHostPort(NextAddr(hops, target, i));
    if hp.None? then None
    else Some(Handshake(peer, io, DestOf(v6, hp.value.0), hp.value.1, hops[i].user, hops[i].pass))
  }

  lemma DialStep(peer: Peer, io: Io, v6: V6Reader, hops: seq<Hop>, target: string, i: nat)
    requires i < |hops|
    ensures var o, d := HopOutcome(peer, io, v6, hops, target, i), DialFrom(peer, io, v6, hops, target, i);
      && (o.None? ==> d == Broken(io, BadAddress(NextAddr(hops, target, i))))
      && (o.Some? && o.value.Failed? ==> d == Broken(o.value.io, HopFailed(i, o.value.why)))
      && (o.Some? && o.value.Done? ==> d == DialFrom(peer, o.value.io, v6, hops, target, i + 1))
  {
    hide SplitHostPort, Handshake, NextAddr;
  }

  /** One round of the loop: the hop succeeds exactly when it is willing, and then the stream stands
      at the end of a route longer by its leg. */
  lemma HopRound(net: Net, first: Endpoint, v6: V6Reader, hops: seq<Hop>, target: string, legs: seq<Leg>, io: Io)
    returns (leg: Leg)
    requires HonestHops(net, first, v6, hops) && Underway(net, first, v6, hops, target, legs, io) && |legs| < |hops|
    ensures var o := HopOutcome(HonestPeer(net, first), io, v6, hops, target, |legs|);
      && (o.Some? && o.value.Done? ==>
            Underway(net, first, v6, hops, target, legs + [leg], o.value.io) && EndOf(first, legs + [leg]) == leg.To())
      && (Willing(net, EndOf(first, legs), v6, hops, target, |legs|, io.room) <==>
            o.Some? && o.value.Done? && Willing(net, leg.To(), v6, hops, target, |legs| + 1, o.value.io.room))
  {
    hide Underway, Open, MovesOn, Handshake, HonestPeer, EndOf, NextAddr, HonestHops, Willing, LegOf, HopOutcome, Resolve;
    HopIsProxy(net, first, v6, hops, target, legs, io);
    var i := |legs|;
    var at, addr := EndOf(first, legs), NextAddr(hops, target, i);
    var to := Resolve(v6, addr);
    leg := LegOf(net(at).policy, hops[i].user, hops[i].pass, if to.Some? then to.value else first);
    WillingStep(net, at, v6, hops, target, i, io.room);
    HopAnswers(net, first, v6, hops, target, legs, io);
    var o := HopOutcome(HonestPeer(net, first), io, v6, hops, target, i);
    if o.Some? && o.value.Done? {
      LegGoesTo(net(at).policy, hops[i].user, hops[i].pass, to.value);
      HopOutcomeOf(HonestPeer(net, first), io, v6, hops, target, i);
      HopMovesOn(net, first, v6, hops, target, legs, io, o.value, leg);
    }
  }

  lemma WillingStep(net: Net, at: Endpoint, v6: V6Reader, hops: seq<Hop>, target: string, i: nat, room: nat)
    requires i < |hops|
    ensures var to := Resolve(v6, NextAddr(hops, target, i));
      Willing(net, at, v6, hops, target, i, room) <==>
        && net(at).Proxy? && to.Some?
        && var leg := LegOf(net(at).policy, hops[i].user, hops[i].pass, to.value);
        && Open(net(at).policy, leg, room) && leg.Valid() && |leg.Written()| <= room
        && Willing(net, to.value, v6, hops, target, i + 1, room - |leg.Written()|)
  {
    hide Resolve, NextAddr, LegOf, ClientBytes;
  }

  lemma LegGoesTo(pol: Policy, user: Option<string>, pass: Option<string>, to: Endpoint)
    ensures var leg := LegOf(pol, user, pass, to); leg.To() == to && leg.user == user && leg.pass == pass
  {
  }

  /** `HopIff` for the hop whose turn it is. */
  lemma HopAnswers(net: Net, first: Endpoint, v6: V6Reader, hops: seq<Hop>, target: string, legs: seq<Leg>, io: Io)
    requires Underway(net, first, v6, hops, target, legs, io) && |legs| < |hops| && net(EndOf(first, legs)).Proxy?
    ensures var i, pol := |legs|, net(EndOf(first, legs)).policy;
      var o := HopOutcome(HonestPeer(net, first), io, v6, hops, target, i);
      var to := Resolve(v6, NextAddr(hops, target, i));
      && (o.Some? && o.value.Done? <==> to.Some? && Open(pol, LegOf(pol, hops[i].user, hops[i].pass, to.value), io.room))
      && (o.Some? && o.value.Done? ==> MovesOn(net, first, legs, io, LegOf(pol, hops[i].user, hops[i].pass, to.value)))
  {
    hide At, Open, MovesOn, Handshake, SplitHostPort, DestOf, HonestPeer, EndOf, NextAddr, LegsMatch, LegOf;
    var i := |legs|;
    var addr := NextAddr(hops, target, i);
    if SplitHostPort(addr).Some? {
      HopIff(net, first, legs, io, v6, addr, hops[i].user, hops[i].pass);
    }
  }

  lemma HopOutcomeOf(peer: Peer, io: Io, v6: V6Reader, hops: seq<Hop>, target: string, i: nat)
    requires i < |hops| && Resolve(v6, NextAddr(hops, target, i)).Some?
    ensures var to := Resolve(v6, NextAddr(hops, target, i)).value;
      && to.dest.Valid() && to.port <= U16_MAX
      && HopOutcome(peer, io, v6, hops, target, i) == Some(Handshake(peer, io, Some(to.dest), to.port, hops[i].user, hops[i].pass))
  {
    hide SplitHostPort, DestOf, Handshake, NextAddr;
  }

  /** `dial` succeeds exactly when every hop in turn is willing; the route it leaves behind then has
      one leg per hop, each matching its hop. */
  lemma {:induction false} DialIff(net: Net, first: Endpoint, v6: V6Reader, hops: seq<Hop>, target: string, legs: seq<Leg>, io: Io)
    returns (all: seq<Leg>)
    requires HonestHops(net, first, v6, hops) && Underway(net, first, v6, hops, target, legs, io)
    ensures |legs| <= |hops|
    ensures var o := DialFrom(HonestPeer(net, first), io, v6, hops, target, |legs|);
      && (o.Connected? <==> Willing(net, EndOf(first, legs), v6, hops, target, |legs|, io.room))
      && (o.Connected? ==> |all| == |hops| && Underway(net, first, v6, hops, target, all, o.io))
    decreases |hops| - |legs|
  {
    hide Underway, HonestHops, HopOutcome, HonestPeer, EndOf, DialFrom, Willing;
    HopIsProxy(net, first, v6, hops, target, legs, io);
    all := legs;
    var peer := HonestPeer(net, first);
    if |legs| < |hops| {
      DialStep(peer, io, v6, hops, target, |legs|);
      var leg := HopRound(net, first, v6, hops, target, legs, io);
      var o := HopOutcome(peer, io, v6, hops, target, |legs|);
      if o.Some? && o.value.Done? {
        all := DialIff(net, first, v6, hops, target, legs + [leg], o.value.io);
      }
    } else {
      NoHopsLeft(net, EndOf(first, legs), peer, io, v6, hops, target);
    }
  }

  lemma NoHopsLeft(net: Net, at: Endpoint, peer: Peer, io: Io, v6: V6Reader, hops: seq<Hop>, target: string)
    ensures DialFrom(peer, io, v6, hops, target, |hops|) == Connected(io)
    ensures Willing(net, at, v6, hops, target, |hops|, io.room)
  {
  }
}

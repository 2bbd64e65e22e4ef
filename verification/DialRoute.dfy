/** Main results about `dial` through honest servers. */
module DialRoute {
  import opened Common
  import opened Text
  import opened Ip
  import opened HostPort
  import opened Config
  import opened Socks5
  import opened Socks5Client
  import opened Socks5Exact
  import opened Chain
  import opened Dial

  /** The outcome of `dial` over a fresh stream that starts at `first`. */
  function DialFresh(net: Net, first: Endpoint, room: nat, v6: V6Reader, hops: seq<Hop>, target: string): DialOutcome {
    DialFrom(HonestPeer(net, first), Io("", 0, room), v6, hops, target, 0)
  }

  /** Where hop `i` is: the first one is wherever the stream starts. */
  function HopAt(first: Endpoint, v6: V6Reader, hops: seq<Hop>, i: nat): Option<Endpoint>
    requires i < |hops|
  {
    if i == 0 then Some(first) else Resolve(v6, hops[i].addr)
  }

  /** Hop `i` was asked exactly once, for what comes after it, and was shown no credentials but its own. */
  predicate VisitFits(first: Endpoint, v6: V6Reader, hops: seq<Hop>, target: string, i: nat, v: Visit)
    requires i < |hops|
  {
    && HopAt(first, v6, hops, i) == Some(v.at)
    && Resolve(v6, NextAddr(hops, target, i)) == Some(Endpoint(v.learned.dest, v.learned.port))
    && v.learned.methods == Offered(hops[i].user)
    && (v.learned.creds == None || v.learned.creds == Some((OrEmpty(hops[i].user), OrEmpty(hops[i].pass))))
  }

  lemma {:induction false} VisitAt(first: Endpoint, legs: seq<Leg>, i: nat)
    requires i < |legs|
    ensures |VisitList(first, legs)| == |legs|
    ensures VisitList(first, legs)[i] == Visit(EndOf(first, legs[..i]), legs[i].Taught())
    decreases |legs|
  {
    var init := legs[..|legs| - 1];
    if |init| > 0 {
      VisitAt(first, init, if i < |init| then i else 0);
    }
    if i < |init| {
      assert init[..i] == legs[..i];
    }
  }

  lemma LegVisitFits(first: Endpoint, v6: V6Reader, hops: seq<Hop>, target: string, legs: seq<Leg>, i: nat)
    requires LegsMatch(v6, hops, target, legs) && i < |legs|
    ensures VisitFits(first, v6, hops, target, i, Visit(EndOf(first, legs[..i]), legs[i].Taught()))
  {
    hide Resolve, Offered;
    if i > 0 {
      assert legs[..i][i - 1] == legs[i - 1];
      assert NextAddr(hops, target, i - 1) == hops[i].addr;
    }
  }

  /** The route of a successful `dial`. */
  lemma DialLegs(net: Net, first: Endpoint, room: nat, v6: V6Reader, hops: seq<Hop>, target: string) returns (legs: seq<Leg>)
    requires HonestHops(net, first, v6, hops) && DialFresh(net, first, room, v6, hops, target).Connected?
    ensures |legs| == |hops|
    ensures Underway(net, first, v6, hops, target, legs, DialFresh(net, first, room, v6, hops, target).io)
  {
    hide HonestHops, DialFrom, Willing;
    assert Underway(net, first, v6, hops, target, [], Io("", 0, room));
    legs := DialIff(net, first, v6, hops, target, [], Io("", 0, room));
  }

  /** The far end is the target, each hop saw exactly its own CONNECT in order, and what is unread is
      what the target itself has said so far: no byte of a banner was taken for an answer. */
  ghost predicate ReachesTarget(net: Net, first: Endpoint, v6: V6Reader, hops: seq<Hop>, target: string, io: Io) {
    && Resolve(v6, target).Some?
    && Received(net, first, io.sent) == (Resolve(v6, target).value, "")
    && |Visits(net, first, io.sent)| == |hops|
    && (forall i :: 0 <= i < |hops| ==> VisitFits(first, v6, hops, target, i, Visits(net, first, io.sent)[i]))
    && Unread(net, first, io.sent, io, Resolve(v6, target).value, "")
  }

  /** When `w` has been written, what `dial` has left unread is what `at` answers to `x`. */
  ghost predicate Unread(net: Net, first: Endpoint, w: Bytes, io: Io, at: Endpoint, x: Bytes) {
    io.got <= |Out(net, first, w)| && Out(net, first, w)[io.got..] == Out(net, at, x)
  }

  /** For every chain of honest servers and every kind of target: if `dial` succeeds, the stream's far
      end is the target, reached through the hops in order. */
  lemma DialReachesTarget(net: Net, first: Endpoint, room: nat, v6: V6Reader, hops: seq<Hop>, target: string)
    requires hops != [] && HonestHops(net, first, v6, hops) && DialFresh(net, first, room, v6, hops, target).Connected?
    ensures ReachesTarget(net, first, v6, hops, target, DialFresh(net, first, room, v6, hops, target).io)
  {
    hide DialFresh, Consistent, BytesOf, Answers, Out, Visits, Received, VisitList, Resolve, VisitFits, EndOf, HonestHops;
    var io := DialFresh(net, first, room, v6, hops, target).io;
    var legs := DialLegs(net, first, room, v6, hops, target);
    Route(net, first, legs, "");
    assert BytesOf(legs) + "" == BytesOf(legs);
    OutOfNothing(net, EndOf(first, legs));
    LastLeg(first, legs);
    VisitAt(first, legs, 0);
    forall i | 0 <= i < |hops| ensures VisitFits(first, v6, hops, target, i, Visits(net, first, io.sent)[i]) {
      VisitAt(first, legs, i);
      LegVisitFits(first, v6, hops, target, legs, i);
    }
  }

  lemma LastLeg(first: Endpoint, legs: seq<Leg>)
    requires legs != []
    ensures EndOf(first, legs) == legs[|legs| - 1].To()
  {
  }

  /** What happens to `app` written after a successful `dial`: it goes where it would go from the
      target, no hop is asked anything more, and the unread input is what the target answers to it. */
  ghost predicate PassesThrough(net: Net, first: Endpoint, io: Io, t: Endpoint, app: Bytes) {
    && Received(net, first, io.sent + app) == Received(net, t, app)
    && Visits(net, first, io.sent + app) == Visits(net, first, io.sent) + Visits(net, t, app)
    && Unread(net, first, io.sent + app, io, t, app)
  }

  /** The stream of a successful `dial` is as good as one that starts at the target. */
  lemma StreamStartsAtTarget(net: Net, first: Endpoint, room: nat, v6: V6Reader, hops: seq<Hop>, target: string, app: Bytes)
    requires hops != [] && HonestHops(net, first, v6, hops) && DialFresh(net, first, room, v6, hops, target).Connected?
    ensures Resolve(v6, target).Some?
    ensures PassesThrough(net, first, DialFresh(net, first, room, v6, hops, target).io, Resolve(v6, target).value, app)
  {
    hide DialFresh, Consistent, BytesOf, Answers, Out, Visits, Received, VisitList, Resolve, EndOf, HonestHops;
    var legs := DialLegs(net, first, room, v6, hops, target);
    LastLeg(first, legs);
    Route(net, first, legs, "");
    Route(net, first, legs, app);
    OutOfNothing(net, EndOf(first, legs));
    assert BytesOf(legs) + "" == BytesOf(legs);
  }

  /** What the application writes after a successful `dial` is received by the target, all of it and
      nothing else, and what the application then reads is exactly what the target says, from its
      first byte, whatever kind of server the target is. */
  lemma ApplicationReachesTarget(net: Net, first: Endpoint, room: nat, v6: V6Reader, hops: seq<Hop>, target: string, app: Bytes)
    requires hops != [] && HonestHops(net, first, v6, hops) && DialFresh(net, first, room, v6, hops, target).Connected?
    ensures Resolve(v6, target).Some?
    ensures var io, t := DialFresh(net, first, room, v6, hops, target).io, Resolve(v6, target).value;
      net(t).App? ==>
        && Received(net, first, io.sent + app) == (t, app)
        && |Visits(net, first, io.sent + app)| == |hops|
        && io.got <= |Out(net, first, io.sent + app)|
        && Out(net, first, io.sent + app)[io.got..] == net(t).speak(app)
  {
    hide DialFresh, Consistent, Resolve, HonestHops, VisitFits;
    StreamStartsAtTarget(net, first, room, v6, hops, target, app);
    DialReachesTarget(net, first, room, v6, hops, target);
    AtApplication(net, Resolve(v6, target).value, app);
    hide Out, Visits, Received;
  }

  /** Where a written target is: an IPv4 address with its octets in order, a name as it stands. */
  lemma ResolveWritten(v6: V6Reader, o: seq<nat>, host: string, port: nat, i: nat)
    requires IsOctets(o) && i < 4 && port <= U16_MAX && host != "" && host[0] != '['
    ensures var r := Resolve(v6, HostColonPort(FormatIpv4(o), port));
      r.Some? && r.value.port == port && r.value.dest.V4? && |r.value.dest.octets| == 4 && r.value.dest.octets[i] as nat == o[i]
    ensures ParseIpv4(host).None? && v6(host).None? && |host| <= 255 ==>
      Resolve(v6, HostColonPort(host, port)) == Some(Endpoint(Domain(host), port))
  {
    Ipv4Free(o, "[");
    Ipv4GoesOutInOrder(v6, o, i);
    hide ParseIpv4, FormatIpv4, SplitHostPort, HostColonPort;
    StoredAddressSplits(FormatIpv4(o), port);
    StoredAddressSplits(host, port);
  }

  /** A successful `dial` of a written IPv4 target ends at exactly that address and port. */
  lemma DialReachesWritten(net: Net, first: Endpoint, room: nat, v6: V6Reader, hops: seq<Hop>, o: seq<nat>, port: nat, i: nat)
    requires IsOctets(o) && i < 4 && port <= U16_MAX && hops != [] && HonestHops(net, first, v6, hops)
    requires DialFresh(net, first, room, v6, hops, HostColonPort(FormatIpv4(o), port)).Connected?
    ensures var io := DialFresh(net, first, room, v6, hops, HostColonPort(FormatIpv4(o), port)).io;
      var at := FarEnd(net, first, io.sent);
      at.port == port && at.dest.V4? && |at.dest.octets| == 4 && at.dest.octets[i] as nat == o[i]
  {
    hide DialFresh, HonestHops, Resolve, Received, Visits, VisitFits, Unread, HostColonPort, FormatIpv4;
    DialReachesTarget(net, first, room, v6, hops, HostColonPort(FormatIpv4(o), port));
    ResolveWritten(v6, o, "x", port, i);
  }

  lemma AtApplication(net: Net, t: Endpoint, app: Bytes)
    ensures net(t).App? ==> Received(net, t, app) == (t, app) && Visits(net, t, app) == [] && Out(net, t, app) == net(t).speak(app)
  {
  }

  /** `dial` succeeds exactly when every server along the way is willing. */
  lemma DialSucceedsIff(net: Net, first: Endpoint, room: nat, v6: V6Reader, hops: seq<Hop>, target: string)
    requires HonestHops(net, first, v6, hops)
    ensures DialFresh(net, first, room, v6, hops, target).Connected? <==> Willing(net, first, v6, hops, target, 0, room)
  {
    hide HonestHops, DialFrom, Willing;
    assert Underway(net, first, v6, hops, target, [], Io("", 0, room));
    var all := DialIff(net, first, v6, hops, target, [], Io("", 0, room));
  }

  // ----- who receives each byte, in every run -----

  function RequestOf(dest: Option<Dest>, port: nat): Bytes
    requires (dest.Some? ==> dest.value.Valid()) && port <= U16_MAX
  {
    if dest.Some? then ConnectRequest(dest.value, port) else []
  }

  /** What follows the greeting when the server selects `m`, if nothing fails. */
  function AfterGreeting(m: char, user: Option<string>, pass: Option<string>, dest: Option<Dest>, port: nat): Bytes
    requires (dest.Some? ==> dest.value.Valid()) && port <= U16_MAX
  {
    if m == METHOD_NO_AUTH then RequestOf(dest, port)
    else if m == METHOD_USER_PASS && user.Some? && CredentialsFit(user, pass) then
      AuthRequest(OrEmpty(user), OrEmpty(pass)) + RequestOf(dest, port)
    else []
  }

  /** Everything a client with these settings writes to a server that selects `m`. */
  function Intended(m: char, user: Option<string>, pass: Option<string>, dest: Option<Dest>, port: nat): Bytes
    requires (dest.Some? ==> dest.value.Valid()) && port <= U16_MAX
  {
    GreetingOf(user) + AfterGreeting(m, user, pass, dest, port)
  }

  lemma PrefixOfConcat(a: Bytes, q: Bytes, b: Bytes)
    requires q <= b
    ensures a + q <= a + b
  {
  }

  lemma SendWrites(io: Io, b: Bytes) returns (q: Bytes)
    ensures q <= b && Send(io, b).io.sent == io.sent + q
    ensures Send(io, b).Done? ==> q == b
  {
    q := if |b| <= io.room then b else b[..io.room];
  }

  lemma RequestWrites(peer: Peer, io: Io, dest: Option<Dest>, port: nat) returns (q: Bytes)
    requires (dest.Some? ==> dest.value.Valid()) && port <= U16_MAX
    ensures q <= RequestOf(dest, port) && Request(peer, io, dest, port).io.sent == io.sent + q
  {
    hide ConnectRequest, ReadReply;
    q := [];
    if dest.Some? {
      q := SendWrites(io, ConnectRequest(dest.value, port));
      ReplyOnlyReads(peer, Send(io, ConnectRequest(dest.value, port)).io);
    } else {
      assert io.sent + [] == io.sent;
    }
  }

  /** After the greeting has gone out and been answered with method `m`. */
  lemma HandshakeWrites(peer: Peer, io: Io, dest: Option<Dest>, port: nat, user: Option<string>, pass: Option<string>, m: char)
    returns (p: Bytes)
    requires (dest.Some? ==> dest.value.Valid()) && port <= U16_MAX
    requires Hears(peer, Io(io.sent + GreetingOf(user), io.got, 0), [VER, m])
    ensures p <= Intended(m, user, pass, dest, port)
    ensures Handshake(peer, io, dest, port, user, pass).io.sent == io.sent + p
  {
    hide Greeting, AuthRequest, ConnectRequest, Offered, Request;
    var g := GreetingOf(user);
    var w := Send(io, g);
    p := SendWrites(io, g);
    if w.Done? {
      HearsIgnoresRoom(peer, Io(io.sent + g, io.got, 0), w.io, [VER, m]);
      assert Take(peer, w.io, 2) == [VER, m];
      var io2 := Skip(w.io, 2);
      if m == METHOD_NO_AUTH {
        var q := RequestWrites(peer, io2, dest, port);
        PrefixOfConcat(g, q, RequestOf(dest, port));
        Assoc(io.sent, g, q);
        p := g + q;
      } else if m == METHOD_USER_PASS && user.Some? && CredentialsFit(user, pass) {
        var q := AuthThenRequestWrites(peer, io2, dest, port, user, pass);
        PrefixOfConcat(g, q, AfterGreeting(m, user, pass, dest, port));
        Assoc(io.sent, g, q);
        p := g + q;
      }
    }
  }

  lemma AuthThenRequestWrites(peer: Peer, io: Io, dest: Option<Dest>, port: nat, user: Option<string>, pass: Option<string>)
    returns (q: Bytes)
    requires (dest.Some? ==> dest.value.Valid()) && port <= U16_MAX && user.Some? && CredentialsFit(user, pass)
    ensures q <= AuthRequest(OrEmpty(user), OrEmpty(pass)) + RequestOf(dest, port)
    ensures var o := Authenticate(peer, io, OrEmpty(user), OrEmpty(pass));
      (if o.Failed? then o.io else Request(peer, o.io, dest, port).io).sent == io.sent + q
  {
    hide AuthRequest, ConnectRequest, Request, RequestOf;
    var a := AuthRequest(OrEmpty(user), OrEmpty(pass));
    q := SendWrites(io, a);
    var o := Authenticate(peer, io, OrEmpty(user), OrEmpty(pass));
    if o.Done? {
      var r := RequestWrites(peer, o.io, dest, port);
      PrefixOfConcat(a, r, RequestOf(dest, port));
      Assoc(io.sent, a, r);
      q := a + r;
    }
  }

  /** Until the last intended byte has arrived, a server that selects `m` opens no tunnel. */
  lemma NoTunnelBeforeTheEnd(pol: Policy, user: Option<string>, pass: Option<string>, dest: Option<Dest>, port: nat, k: nat)
    requires (dest.Some? ==> dest.value.Valid()) && port <= U16_MAX
    requires k < |Intended(pol.select(Offered(user)), user, pass, dest, port)|
    ensures Serve(pol, Intended(pol.select(Offered(user)), user, pass, dest, port)[..k]).tunnel.None?
  {
    hide ReadGreeting, ReadAuth, ReadConnect, Greeting, AuthRequest, ConnectRequest, Offered, IsBytes;
    var m := pol.select(Offered(user));
    var g, rest := GreetingOf(user), AfterGreeting(m, user, pass, dest, port);
    if k < |g| {
      GreetingPrefix(Offered(user), k);
      assert (g + rest)[..k] == g[..k];
    } else {
      var cut := rest[..k - |g|];
      assert (g + rest)[..k] == g + cut;
      GreetingReads(Offered(user), cut);
      if m == METHOD_NO_AUTH {
        ConnectPrefix(dest.value, port, |cut|);
      } else if m == METHOD_USER_PASS && user.Some? && CredentialsFit(user, pass) {
        var a := AuthRequest(OrEmpty(user), OrEmpty(pass));
        if |cut| < |a| {
          AuthPrefix(OrEmpty(user), OrEmpty(pass), |cut|);
          assert rest[..|cut|] == a[..|cut|];
        } else {
          var tail := RequestOf(dest, port)[..|cut| - |a|];
          assert cut == a + tail;
          AuthReads(OrEmpty(user), OrEmpty(pass), tail);
          ConnectPrefix(dest.value, port, |tail|);
        }
      }
    }
  }

  /** What hop `i` is meant to receive, given the endpoint it turned out to be at. */
  function IntendedFor(net: Net, at: Endpoint, v6: V6Reader, hops: seq<Hop>, target: string, i: nat): Bytes
    requires i < |hops|
  {
    var hp := SplitHostPort(NextAddr(hops, target, i));
    if hp.None? || net(at).App? then []
    else Intended(net(at).policy.select(Offered(hops[i].user)), hops[i].user, hops[i].pass, DestOf(v6, hp.value.0), hp.value.1)
  }

  /** `sent` is the exchanges `legs`, each accepted and matching its hop, then part `p` of the next. */
  ghost predicate WrittenAs(net: Net, first: Endpoint, v6: V6Reader, hops: seq<Hop>, target: string, sent: Bytes, legs: seq<Leg>, p: Bytes) {
    && Consistent(net, first, legs) && LegsMatch(v6, hops, target, legs)
    && sent == BytesOf(legs) + p
    && (|legs| == |hops| ==> p == [])
    && (|legs| < |hops| ==> p <= IntendedFor(net, EndOf(first, legs), v6, hops, target, |legs|))
  }

  /** A failure names the hop that the completed exchanges lead to, or the address that came next. */
  ghost predicate FailureFits(v6: V6Reader, hops: seq<Hop>, target: string, o: DialOutcome, legs: seq<Leg>) {
    if o.Connected? then |legs| == |hops|
    else
      match o.failure
      case FirstHopUnreachable => false
      case BadAddress(addr) => |legs| < |hops| && addr == NextAddr(hops, target, |legs|)
      case HopFailed(hop, _) => hop == |legs| < |hops|
  }

  lemma {:induction false} DialWritesFrom(net: Net, first: Endpoint, v6: V6Reader, hops: seq<Hop>, target: string, legs: seq<Leg>, io: Io)
    returns (all: seq<Leg>, p: Bytes)
    requires HonestHops(net, first, v6, hops) && Underway(net, first, v6, hops, target, legs, io) && |legs| <= |hops|
    ensures WrittenAs(net, first, v6, hops, target, DialFrom(HonestPeer(net, first), io, v6, hops, target, |legs|).io.sent, all, p)
    ensures FailureFits(v6, hops, target, DialFrom(HonestPeer(net, first), io, v6, hops, target, |legs|), all)
    decreases |hops| - |legs|
  {
    hide Consistent, BytesOf, Answers, HopOutcome, HonestPeer, EndOf, IntendedFor, LegsMatch, HonestHops, DialFrom, Willing;
    all, p := legs, [];
    assert io.sent == io.sent + [];
    var peer := HonestPeer(net, first);
    if |legs| < |hops| {
      DialStep(peer, io, v6, hops, target, |legs|);
      var o := HopOutcome(peer, io, v6, hops, target, |legs|);
      if o.Some? && o.value.Done? {
        var leg := HopRound(net, first, v6, hops, target, legs, io);
        all, p := DialWritesFrom(net, first, v6, hops, target, legs + [leg], o.value.io);
      } else if o.Some? {
        HopIsProxy(net, first, v6, hops, target, legs, io);
        p := HopWrites(net, first, v6, hops, target, legs, io);
      }
    } else {
      NoHopsLeft(net, first, peer, io, v6, hops, target);
    }
  }

  /** What a hop's handshake writes is part of what the hop is meant to receive. */
  lemma HopWrites(net: Net, first: Endpoint, v6: V6Reader, hops: seq<Hop>, target: string, legs: seq<Leg>, io: Io)
    returns (p: Bytes)
    requires At(net, first, legs, io) && |legs| < |hops| && net(EndOf(first, legs)).Proxy?
    requires HopOutcome(HonestPeer(net, first), io, v6, hops, target, |legs|).Some?
    ensures p <= IntendedFor(net, EndOf(first, legs), v6, hops, target, |legs|)
    ensures HopOutcome(HonestPeer(net, first), io, v6, hops, target, |legs|).value.io.sent == io.sent + p
  {
    hide At, Handshake, SplitHostPort, DestOf, HonestPeer, EndOf, NextAddr, Intended, Offered;
    var i := |legs|;
    var hp := SplitHostPort(NextAddr(hops, target, i)).value;
    GreetingAnswered(net, first, legs, io, hops[i].user);
    p := HandshakeWrites(HonestPeer(net, first), io, DestOf(v6, hp.0), hp.1, hops[i].user, hops[i].pass,
                         net(EndOf(first, legs)).policy.select(Offered(hops[i].user)));
  }

  lemma MatchIsShort(v6: V6Reader, hops: seq<Hop>, target: string, legs: seq<Leg>)
    requires LegsMatch(v6, hops, target, legs)
    ensures |legs| <= |hops|
  {
  }

  lemma GreetingAnswered(net: Net, first: Endpoint, legs: seq<Leg>, io: Io, user: Option<string>)
    requires At(net, first, legs, io) && net(EndOf(first, legs)).Proxy?
    ensures Hears(HonestPeer(net, first), Io(io.sent + GreetingOf(user), io.got, 0),
                  [VER, net(EndOf(first, legs)).policy.select(Offered(user))])
  {
    hide At, Hears, HonestPeer, GreetingOf, Offered, EndOf, Out;
    var at := EndOf(first, legs);
    OutGreeting(net, at, user);
    HearsFromEnd(net, first, legs, io, GreetingOf(user), 0, [VER, net(at).policy.select(Offered(user))]);
  }

  /** In every run, successful or not, what `dial` has written is a sequence of complete exchanges, one
      per hop passed, followed by part of the exchange meant for the next hop; each byte of that last
      part, credentials included, was written while the far end was that hop; and a failure names it. */
  lemma EveryByteGoesToItsHop(net: Net, first: Endpoint, room: nat, v6: V6Reader, hops: seq<Hop>, target: string)
    returns (legs: seq<Leg>, p: Bytes)
    requires HonestHops(net, first, v6, hops)
    ensures WrittenAs(net, first, v6, hops, target, DialFresh(net, first, room, v6, hops, target).io.sent, legs, p)
    ensures forall k :: 0 <= k < |p| ==> FarEnd(net, first, BytesOf(legs) + p[..k]) == EndOf(first, legs)
    ensures FailureFits(v6, hops, target, DialFresh(net, first, room, v6, hops, target), legs)
  {
    assert Underway(net, first, v6, hops, target, [], Io("", 0, room));
    legs, p := DialWritesFrom(net, first, v6, hops, target, [], Io("", 0, room));
    hide Consistent, BytesOf, LegsMatch, FarEnd, EndOf, IntendedFor, DialFresh, HonestHops;
    forall k | 0 <= k < |p| ensures FarEnd(net, first, BytesOf(legs) + p[..k]) == EndOf(first, legs) {
      MatchIsShort(v6, hops, target, legs);
      StaysAt(net, first, v6, hops, target, legs, p, k);
    }
  }

  lemma StaysAt(net: Net, first: Endpoint, v6: V6Reader, hops: seq<Hop>, target: string, legs: seq<Leg>, p: Bytes, k: nat)
    requires Consistent(net, first, legs) && |legs| < |hops| && k < |p|
    requires p <= IntendedFor(net, EndOf(first, legs), v6, hops, target, |legs|)
    ensures FarEnd(net, first, BytesOf(legs) + p[..k]) == EndOf(first, legs)
  {
    hide Consistent, BytesOf, EndOf, Serve, SplitHostPort, DestOf, Intended, NextAddr, Offered, Out, Visits;
    var at := EndOf(first, legs);
    var all := IntendedFor(net, at, v6, hops, target, |legs|);
    assert p[..k] == all[..k];
    Route(net, first, legs, p[..k]);
    var i := |legs|;
    var hp := SplitHostPort(NextAddr(hops, target, i)).value;
    NoTunnelBeforeTheEnd(net(at).policy, hops[i].user, hops[i].pass, DestOf(v6, hp.0), hp.1, k);
  }

  /** The same for each completed exchange: hop `i`'s exchange was written while the far end was hop
      `i`, up to and including its last byte, and only then did the far end move on. */
  lemma CompletedLegStays(net: Net, first: Endpoint, legs: seq<Leg>, i: nat, k: nat)
    requires Consistent(net, first, legs) && i < |legs|
    ensures LegStays(net, first, legs[..i], legs[i], k)
  {
    hide LegStays, Admits;
    PrefixConsistent(net, first, legs, i);
    LastLegStays(net, first, legs[..i], legs[i], k);
  }

  /** Byte `k` of the leg, and what follows the leg. */
  predicate LegStays(net: Net, first: Endpoint, init: seq<Leg>, leg: Leg, k: nat) {
    && Consistent(net, first, init) && leg.Valid()
    && (k < |leg.Written()| ==> FarEnd(net, first, BytesOf(init) + leg.Written()[..k]) == EndOf(first, init))
    && FarEnd(net, first, BytesOf(init) + leg.Written()) == leg.To()
  }

  lemma {:induction false} PrefixConsistent(net: Net, first: Endpoint, legs: seq<Leg>, i: nat)
    requires Consistent(net, first, legs) && i < |legs|
    ensures Consistent(net, first, legs[..i]) && Admits(net(EndOf(first, legs[..i])), legs[i])
    decreases |legs|
  {
    hide Admits;
    var n := |legs| - 1;
    if i < n {
      assert legs[..n][..i] == legs[..i] && legs[..n][i] == legs[i];
      PrefixConsistent(net, first, legs[..n], i);
    }
  }

  lemma LastLegStays(net: Net, first: Endpoint, init: seq<Leg>, leg: Leg, k: nat)
    requires Consistent(net, first, init) && Admits(net(EndOf(first, init)), leg)
    ensures LegStays(net, first, init, leg, k)
  {
    var at := EndOf(first, init);
    WrittenIsIntended(leg);
    hide Consistent, BytesOf, EndOf, Serve, Intended, ClientBytes, Offered, Out, Visits;
    Route(net, first, init, leg.Written());
    ServeLeg(net(at).policy, leg, "");
    assert leg.Written() + "" == leg.Written();
    OutOfNothing(net, leg.To());
    if k < |leg.Written()| {
      Route(net, first, init, leg.Written()[..k]);
      NoTunnelBeforeTheEnd(net(at).policy, leg.user, leg.pass, Some(leg.dest), leg.port, k);
    }
  }

  lemma WrittenIsIntended(leg: Leg)
    requires leg.Valid()
    ensures leg.Written() == Intended(leg.m, leg.user, leg.pass, Some(leg.dest), leg.port)
  {
    hide Greeting, AuthRequest, ConnectRequest, Offered;
    var g, c := GreetingOf(leg.user), ConnectRequest(leg.dest, leg.port);
    if leg.m == METHOD_USER_PASS {
      Assoc(g, AuthRequest(OrEmpty(leg.user), OrEmpty(leg.pass)), c);
    } else {
      assert g + [] == g;
    }
  }
}

/** Exactly which server bytes make the client succeed, and how many of them it consumes. */
module Socks5Exact {
  import opened Common
  import opened Text
  import opened Socks5
  import opened Socks5Client

  /** A successful server side: the selected method, the unchecked bytes, and the bound address. */
  datatype Script = Script(m: char, authVer: char, rsv: char, bnd: Dest, bndPort: Bytes)
  {
    predicate Valid() {
      (m == METHOD_NO_AUTH || m == METHOD_USER_PASS) && bnd.Valid() && |bndPort| == 2
    }

    function MethodBytes(): Bytes {
      [VER, m]
    }

    function AuthBytes(): Bytes {
      if m == METHOD_USER_PASS then [authVer, ZERO] else []
    }

    function ReplyBytes(): Bytes
      requires Valid()
    {
      ConnectReply(ZERO, rsv, bnd, bndPort)
    }

    /** Everything the server sends. */
    function All(): Bytes
      requires Valid()
    {
      MethodBytes() + AuthBytes() + ReplyBytes()
    }
  }

  /** The client can follow: it was asked for a password only if it has a user, and both fit. */
  predicate Followable(t: Script, user: Option<string>, pass: Option<string>) {
    t.m == METHOD_USER_PASS ==> user.Some? && CredentialsFit(user, pass)
  }

  /** The next bytes to be read are `b`. */
  predicate Hears(peer: Peer, io: Io, b: Bytes) {
    Available(peer, io, |b|) && Take(peer, io, |b|) == b
  }

  // ----- the reply -----

  /** The fixed bytes of a reply, and its length. */
  lemma ReplyShape(rsv: char, bnd: Dest, bndPort: Bytes)
    requires bnd.Valid() && |bndPort| == 2
    ensures var b := ConnectReply(ZERO, rsv, bnd, bndPort);
      && |b| == 5 + |AddrField(bnd)| && |b| > 4 && b[0] == VER && b[1] == ZERO && b[3] == AddrField(bnd)[0]
      && (bnd.V4? ==> b[3] == ATYP_IPV4 && |b| == 10)
      && (bnd.V6? ==> b[3] == ATYP_IPV6 && |b| == 22)
      && (bnd.Domain? ==> b[3] == ATYP_DOMAIN && b[4] as nat == |bnd.name| && |b| == 7 + |bnd.name|)
  {
    var f := AddrField(bnd);
    var b := ConnectReply(ZERO, rsv, bnd, bndPort);
    assert b[3] == f[0] && b[4] == f[1];
  }

  lemma HeardByte(peer: Peer, io: Io, b: Bytes, i: nat)
    requires Hears(peer, io, b) && i < |b|
    ensures io.got + |b| <= |peer(io.sent)| && peer(io.sent)[io.got + i] == b[i]
  {
    var all := peer(io.sent);
    assert all[io.got..io.got + |b|][i] == b[i];
  }

  /** A success reply with any of the three address forms is consumed up to the end of BND.PORT. */
  lemma ReplyAccepted(peer: Peer, io: Io, rsv: char, bnd: Dest, bndPort: Bytes)
    requires bnd.Valid() && |bndPort| == 2
    requires Hears(peer, io, ConnectReply(ZERO, rsv, bnd, bndPort))
    ensures ReadReply(peer, io) == Done(Skip(io, |ConnectReply(ZERO, rsv, bnd, bndPort)|))
  {
    hide ConnectReply, AddrField, Hears;
    var b := ConnectReply(ZERO, rsv, bnd, bndPort);
    ReplyShape(rsv, bnd, bndPort);
    HeardByte(peer, io, b, 0);
    HeardByte(peer, io, b, 1);
    HeardByte(peer, io, b, 3);
    HeardByte(peer, io, b, 4);
  }

  /** How long the address field after an ATYP at position `p` is. */
  function FieldLength(all: Bytes, p: nat): nat
    requires p + 1 < |all|
  {
    if all[p] == ATYP_IPV4 then 4 else if all[p] == ATYP_IPV6 then 16 else 1 + all[p + 1] as nat
  }

  /** What an accepted reply looked like. */
  lemma ReplyFields(peer: Peer, io: Io)
    requires ReadReply(peer, io).Done?
    ensures var all, g := peer(io.sent), io.got;
      && g + 4 < |all| && all[g] == VER && all[g + 1] == ZERO
      && (all[g + 3] == ATYP_IPV4 || all[g + 3] == ATYP_IPV6 || all[g + 3] == ATYP_DOMAIN)
      && var n := FieldLength(all, g + 3);
      && g + 6 + n <= |all| && ReadReply(peer, io).io == Skip(io, 6 + n)
  {
  }

  /** Whatever reply the client accepted was a success reply, consumed exactly. */
  lemma AcceptedReply(peer: Peer, io: Io) returns (rsv: char, bnd: Dest, bndPort: Bytes)
    requires ReadReply(peer, io).Done? && IsBytes(peer(io.sent))
    ensures bnd.Valid() && |bndPort| == 2
    ensures Hears(peer, io, ConnectReply(ZERO, rsv, bnd, bndPort))
    ensures ReadReply(peer, io).io == Skip(io, |ConnectReply(ZERO, rsv, bnd, bndPort)|)
  {
    hide ReadReply, AddrField;
    ReplyFields(peer, io);
    var all, g := peer(io.sent), io.got;
    var n := FieldLength(all, g + 3);
    rsv := all[g + 2];
    bnd := BoundAt(all, g + 3, n);
    bndPort := all[g + 4 + n..g + 6 + n];
    ThreeBytes(all, g);
    SliceAppend(all, g, g + 3, g + 4 + n);
    SliceAppend(all, g, g + 4 + n, g + 6 + n);
  }

  lemma ThreeBytes(all: Bytes, g: nat)
    requires g + 3 <= |all|
    ensures all[g..g + 3] == [all[g], all[g + 1], all[g + 2]]
  {
  }

  /** The address field of `n` bytes after the ATYP at position `p`. */
  function BoundAt(all: Bytes, p: nat, n: nat): (d: Dest)
    requires p + 1 + n <= |all|
    requires all[p] == ATYP_IPV4 ==> n == 4
    requires all[p] == ATYP_IPV6 ==> n == 16
    requires all[p] == ATYP_IPV4 || all[p] == ATYP_IPV6 || (all[p] == ATYP_DOMAIN && n >= 1 && n == 1 + all[p + 1] as nat <= 256)
    ensures d.Valid() && AddrField(d) == all[p..p + 1 + n]
  {
    if all[p] == ATYP_IPV4 then V4(all[p + 1..p + 1 + n])
    else if all[p] == ATYP_IPV6 then V6(all[p + 1..p + 1 + n])
    else
      var name := all[p + 2..p + 1 + n];
      assert |name| as char == all[p + 1];
      Domain(name)
  }

  // ----- the whole handshake -----

  /** The server plays script `t` in answer to this client, starting from `io`. */
  ghost predicate Plays(peer: Peer, io: Io, dest: Dest, port: nat, user: Option<string>, pass: Option<string>, t: Script)
    requires t.Valid() && Followable(t, user, pass) && dest.Valid() && port <= U16_MAX
  {
    var g, a := GreetingOf(user), AuthPart(t.m, user, pass);
    var k := |t.AuthBytes()|;
    && Hears(peer, Io(io.sent + g, io.got, 0), t.MethodBytes())
    && (t.m == METHOD_USER_PASS ==> Hears(peer, Io(io.sent + g + a, io.got + 2, 0), t.AuthBytes()))
    && Hears(peer, Io(io.sent + g + a + ConnectRequest(dest, port), io.got + 2 + k, 0), t.ReplyBytes())
  }

  /** Where a successful handshake leaves the stream. */
  function After(io: Io, dest: Dest, port: nat, user: Option<string>, pass: Option<string>, t: Script): Io
    requires t.Valid() && Followable(t, user, pass) && dest.Valid() && port <= U16_MAX
    requires |ClientBytes(user, pass, t.m, dest, port)| <= io.room
  {
    var w := ClientBytes(user, pass, t.m, dest, port);
    Io(io.sent + w, io.got + |t.All()|, io.room - |w|)
  }

  lemma HearsIgnoresRoom(peer: Peer, a: Io, b: Io, bytes: Bytes)
    requires a.sent == b.sent && a.got == b.got
    ensures Hears(peer, a, bytes) == Hears(peer, b, bytes)
  {
  }

  lemma NegotiateAccepted(peer: Peer, io: Io, user: Option<string>, pass: Option<string>, t: Script)
    requires t.Valid() && Followable(t, user, pass)
    requires var g, a := GreetingOf(user), AuthPart(t.m, user, pass);
      && |g| + |a| <= io.room
      && Hears(peer, Io(io.sent + g, io.got, 0), t.MethodBytes())
      && (t.m == METHOD_USER_PASS ==> Hears(peer, Io(io.sent + g + a, io.got + 2, 0), t.AuthBytes()))
    ensures var g, a := GreetingOf(user), AuthPart(t.m, user, pass);
      Negotiate(peer, io, user, pass) == Done(Io(io.sent + g + a, io.got + 2 + |t.AuthBytes()|, io.room - |g| - |a|))
  {
    hide Greeting, AuthRequest, Offered;
    var g, a := GreetingOf(user), AuthPart(t.m, user, pass);
    var io1 := Io(io.sent + g, io.got, io.room - |g|);
    assert Send(io, g) == Done(io1);
    HearsIgnoresRoom(peer, Io(io.sent + g, io.got, 0), io1, t.MethodBytes());
    assert Take(peer, io1, 2) == [VER, t.m];
    if t.m == METHOD_USER_PASS {
      var io2 := Io(io.sent + g + a, io.got + 2, io.room - |g| - |a|);
      assert Send(Skip(io1, 2), a) == Done(io2);
      HearsIgnoresRoom(peer, Io(io.sent + g + a, io.got + 2, 0), io2, t.AuthBytes());
      assert Take(peer, io2, 2) == [t.authVer, ZERO];
      assert METHOD_USER_PASS != METHOD_NO_AUTH;
    } else {
      assert io.sent + g + a == io.sent + g;
    }
  }

  lemma RequestAccepted(peer: Peer, io: Io, dest: Dest, port: nat, t: Script)
    requires t.Valid() && dest.Valid() && port <= U16_MAX && |ConnectRequest(dest, port)| <= io.room
    requires Hears(peer, Io(io.sent + ConnectRequest(dest, port), io.got, 0), t.ReplyBytes())
    ensures var c := ConnectRequest(dest, port);
      Request(peer, io, Some(dest), port) == Done(Io(io.sent + c, io.got + |t.ReplyBytes()|, io.room - |c|))
  {
    hide ConnectRequest, ConnectReply, ReadReply, Hears, IsBytes;
    var c := ConnectRequest(dest, port);
    var next := Io(io.sent + c, io.got, io.room - |c|);
    HearsIgnoresRoom(peer, Io(io.sent + c, io.got, 0), next, t.ReplyBytes());
    ReplyAccepted(peer, next, t.rsv, t.bnd, t.bndPort);
  }

  lemma ReplyOnlyReads(peer: Peer, io: Io)
    ensures ReadReply(peer, io).io.sent == io.sent
  {
  }

  lemma RequestScript(peer: Peer, io: Io, dest: Dest, port: nat) returns (rsv: char, bnd: Dest, bndPort: Bytes)
    requires dest.Valid() && port <= U16_MAX && Request(peer, io, Some(dest), port).Done?
    requires IsBytes(peer(Request(peer, io, Some(dest), port).io.sent))
    ensures bnd.Valid() && |bndPort| == 2 && |ConnectRequest(dest, port)| <= io.room
    ensures Hears(peer, Io(io.sent + ConnectRequest(dest, port), io.got, 0), ConnectReply(ZERO, rsv, bnd, bndPort))
  {
    hide ConnectRequest, ConnectReply, ReadReply, Hears, IsBytes;
    var c := ConnectRequest(dest, port);
    var next := Send(io, c).io;
    ReplyOnlyReads(peer, next);
    rsv, bnd, bndPort := AcceptedReply(peer, next);
    HearsIgnoresRoom(peer, Io(io.sent + c, io.got, 0), next, ConnectReply(ZERO, rsv, bnd, bndPort));
  }

  lemma AfterIs(io: Io, dest: Dest, port: nat, user: Option<string>, pass: Option<string>, t: Script, n: Io)
    requires t.Valid() && Followable(t, user, pass) && dest.Valid() && port <= U16_MAX
    requires |ClientBytes(user, pass, t.m, dest, port)| <= io.room
    requires var g, a := GreetingOf(user), AuthPart(t.m, user, pass);
      |g| + |a| <= io.room && n == Io(io.sent + g + a, io.got + 2 + |t.AuthBytes()|, io.room - |g| - |a|)
    ensures var c := ConnectRequest(dest, port);
      && |c| <= n.room
      && After(io, dest, port, user, pass, t) == Io(n.sent + c, n.got + |t.ReplyBytes()|, n.room - |c|)
  {
    hide ConnectRequest, ConnectReply, GreetingOf, AuthPart;
    Assoc4(io.sent, GreetingOf(user), AuthPart(t.m, user, pass), ConnectRequest(dest, port));
  }

  lemma WrittenLength(t: Script, user: Option<string>, pass: Option<string>, dest: Dest, port: nat)
    requires Followable(t, user, pass) && dest.Valid() && port <= U16_MAX
    ensures |ClientBytes(user, pass, t.m, dest, port)|
         == |GreetingOf(user)| + |AuthPart(t.m, user, pass)| + |ConnectRequest(dest, port)|
  {
    hide ConnectRequest, GreetingOf, AuthPart;
  }

  /** Every followable script played to the end succeeds, and the stream is left right after it. */
  lemma PlayedScriptSucceeds(peer: Peer, io: Io, dest: Dest, port: nat, user: Option<string>, pass: Option<string>, t: Script)
    requires t.Valid() && Followable(t, user, pass) && dest.Valid() && port <= U16_MAX
    requires Plays(peer, io, dest, port, user, pass, t) && |ClientBytes(user, pass, t.m, dest, port)| <= io.room
    ensures Handshake(peer, io, Some(dest), port, user, pass) == Done(After(io, dest, port, user, pass, t))
  {
    hide IsBytes, ConnectRequest, ConnectReply, Negotiate, Request, GreetingOf, AuthPart, Hears, After, ClientBytes;
    WrittenLength(t, user, pass, dest, port);
    NegotiateAccepted(peer, io, user, pass, t);
    var n := Negotiate(peer, io, user, pass).io;
    AfterIs(io, dest, port, user, pass, t, n);
    RequestAccepted(peer, n, dest, port, t);
  }

  /** Every success has a script behind it. */
  lemma SuccessHasScript(peer: Peer, io: Io, dest: Dest, port: nat, user: Option<string>, pass: Option<string>)
    returns (t: Script)
    requires dest.Valid() && port <= U16_MAX
    requires Handshake(peer, io, Some(dest), port, user, pass).Done?
    requires IsBytes(peer(Handshake(peer, io, Some(dest), port, user, pass).io.sent))
    ensures t.Valid() && Followable(t, user, pass) && |ClientBytes(user, pass, t.m, dest, port)| <= io.room
    ensures Plays(peer, io, dest, port, user, pass, t)
    ensures Handshake(peer, io, Some(dest), port, user, pass) == Done(After(io, dest, port, user, pass, t))
  {
    hide IsBytes, ConnectRequest, ConnectReply, Negotiate, Request, GreetingOf, AuthPart, Hears, After;
    var m, authVer := NegotiationScript(peer, io, user, pass);
    var rsv, bnd, bndPort := RequestScript(peer, Negotiate(peer, io, user, pass).io, dest, port);
    t := Script(m, authVer, rsv, bnd, bndPort);
    PlaysIntro(peer, io, dest, port, user, pass, t, Negotiate(peer, io, user, pass).io);
    PlayedScriptSucceeds(peer, io, dest, port, user, pass, t);
  }

  lemma PlaysIntro(peer: Peer, io: Io, dest: Dest, port: nat, user: Option<string>, pass: Option<string>, t: Script, n: Io)
    requires t.Valid() && Followable(t, user, pass) && dest.Valid() && port <= U16_MAX
    requires var g, a := GreetingOf(user), AuthPart(t.m, user, pass);
      && n == Io(io.sent + g + a, io.got + 2 + |t.AuthBytes()|, n.room) && n.room + |g| + |a| == io.room
      && Hears(peer, Io(io.sent + g, io.got, 0), t.MethodBytes())
      && (t.m == METHOD_USER_PASS ==> Hears(peer, Io(io.sent + g + a, io.got + 2, 0), t.AuthBytes()))
    requires |ConnectRequest(dest, port)| <= n.room
    requires Hears(peer, Io(n.sent + ConnectRequest(dest, port), n.got, 0), t.ReplyBytes())
    ensures Plays(peer, io, dest, port, user, pass, t) && |ClientBytes(user, pass, t.m, dest, port)| <= io.room
  {
    hide IsBytes, ConnectRequest, ConnectReply, GreetingOf, AuthPart, Hears;
  }

  lemma NegotiationScript(peer: Peer, io: Io, user: Option<string>, pass: Option<string>) returns (m: char, authVer: char)
    requires Negotiate(peer, io, user, pass).Done?
    ensures m == METHOD_NO_AUTH || (m == METHOD_USER_PASS && user.Some? && CredentialsFit(user, pass))
    ensures var g, a := GreetingOf(user), AuthPart(m, user, pass);
      && |g| + |a| <= io.room
      && Hears(peer, Io(io.sent + g, io.got, 0), [VER, m])
      && (m == METHOD_USER_PASS ==> Hears(peer, Io(io.sent + g + a, io.got + 2, 0), [authVer, ZERO]))
      && Negotiate(peer, io, user, pass).io
         == Io(io.sent + g + a, io.got + 2 + (if m == METHOD_USER_PASS then 2 else 0), io.room - |g| - |a|)
  {
    hide Greeting, AuthRequest, Offered;
    var g := GreetingOf(user);
    var io1 := Io(io.sent + g, io.got, io.room - |g|);
    var resp := Take(peer, io1, 2);
    m, authVer := resp[1], ZERO;
    assert resp == [VER, m];
    HearsIgnoresRoom(peer, Io(io.sent + g, io.got, 0), io1, [VER, m]);
    if m == METHOD_USER_PASS {
      var a := AuthPart(m, user, pass);
      var io2 := Io(io.sent + g + a, io.got + 2, io1.room - |a|);
      assert Send(Skip(io1, 2), a) == Done(io2);
      var status := Take(peer, io2, 2);
      authVer := status[0];
      assert status == [authVer, ZERO];
      HearsIgnoresRoom(peer, Io(io.sent + g + a, io.got + 2, 0), io2, [authVer, ZERO]);
    } else {
      assert io.sent + g + [] == io.sent + g;
    }
  }

  // ----- why it failed -----

  /** What a failure says is so: of the client's own settings, or of the byte it reports. */
  predicate Truthful(why: Failure, dest: Option<Dest>, user: Option<string>, pass: Option<string>) {
    match why
    case WriteFailed => true
    case EndOfStream => true
    case BadVersion(b) => b as nat != 5
    case NoCredentials => user.None?
    case MethodsRejected => true
    case BadMethod(b) => b as nat != 0 && b as nat != 2 && b as nat != 0xFF
    case CredentialsTooLong => user.Some? && !CredentialsFit(user, pass)
    case AuthRefused(b) => user.Some? && b as nat != 0
    case HostTooLong => dest.None?
    case Refused(b) => b as nat != 0
    case BadAddressType(b) => b as nat != 1 && b as nat != 3 && b as nat != 4
  }

  /** Where in the input the reported byte stands, counted back from what has been read. */
  predicate Reported(peer: Peer, io: Io, why: Failure) {
    var all := peer(io.sent);
    match why
    case BadMethod(b) => 1 <= io.got <= |all| && all[io.got - 1] == b
    case MethodsRejected => 1 <= io.got <= |all| && all[io.got - 1] as nat == 0xFF
    case AuthRefused(b) => 1 <= io.got <= |all| && all[io.got - 1] == b
    case Refused(b) => 3 <= io.got <= |all| && all[io.got - 3] == b
    case BadAddressType(b) => 1 <= io.got <= |all| && all[io.got - 1] == b
    case EndOfStream => io.got >= |all|
    case _ => true
  }

  lemma NegotiateSaysWhy(peer: Peer, io: Io, dest: Option<Dest>, user: Option<string>, pass: Option<string>)
    requires Negotiate(peer, io, user, pass).Failed?
    ensures var o := Negotiate(peer, io, user, pass); Truthful(o.why, dest, user, pass) && Reported(peer, o.io, o.why)
  {
    hide Greeting, AuthRequest, Offered;
  }

  lemma RequestSaysWhy(peer: Peer, io: Io, dest: Option<Dest>, port: nat, user: Option<string>, pass: Option<string>)
    requires (dest.Some? ==> dest.value.Valid()) && port <= U16_MAX && Request(peer, io, dest, port).Failed?
    ensures var o := Request(peer, io, dest, port); Truthful(o.why, dest, user, pass) && Reported(peer, o.io, o.why)
  {
    hide ConnectRequest, CredentialsFit;
  }

  /** Every failure of `connect` tells the truth about its cause. */
  lemma FailureSaysWhy(peer: Peer, io: Io, dest: Option<Dest>, port: nat, user: Option<string>, pass: Option<string>)
    requires (dest.Some? ==> dest.value.Valid()) && port <= U16_MAX && Handshake(peer, io, dest, port, user, pass).Failed?
    ensures var o := Handshake(peer, io, dest, port, user, pass); Truthful(o.why, dest, user, pass) && Reported(peer, o.io, o.why)
  {
    hide Negotiate, Request, Truthful, Reported;
    var n := Negotiate(peer, io, user, pass);
    if n.Failed? {
      NegotiateSaysWhy(peer, io, dest, user, pass);
    } else {
      RequestSaysWhy(peer, n.io, dest, port, user, pass);
    }
  }

  // ----- a fixed input -----

  function Scripted(input: Bytes): Peer {
    (w: Bytes) => input
  }

  /** The input starts with a script this client can follow and the writes fit. */
  ghost predicate StartsWithScript(input: Bytes, room: nat, dest: Dest, port: nat, user: Option<string>, pass: Option<string>, t: Script)
    requires dest.Valid() && port <= U16_MAX
  {
    t.Valid() && Followable(t, user, pass) && |ClientBytes(user, pass, t.m, dest, port)| <= room && t.All() <= input
  }

  lemma ScriptedPlays(input: Bytes, room: nat, dest: Dest, port: nat, user: Option<string>, pass: Option<string>, t: Script)
    requires IsBytes(input) && dest.Valid() && port <= U16_MAX && t.Valid() && Followable(t, user, pass)
    ensures Plays(Scripted(input), Io("", 0, room), dest, port, user, pass, t) <==> t.All() <= input
  {
    hide Greeting, AuthRequest, Offered, ConnectRequest, ConnectReply;
    var m, a, r := t.MethodBytes(), t.AuthBytes(), t.ReplyBytes();
    ThreePieces(input, m, a, r);
  }

  lemma ThreePieces(input: Bytes, a: Bytes, b: Bytes, c: Bytes)
    ensures a + b + c <= input <==>
      && |a| + |b| + |c| <= |input|
      && input[..|a|] == a && input[|a|..|a| + |b|] == b && input[|a| + |b|..|a| + |b| + |c|] == c
  {
    var n := |a| + |b| + |c|;
    if n <= |input| {
      SliceAppend(input, 0, |a|, |a| + |b|);
      SliceAppend(input, 0, |a| + |b|, n);
      var abc := a + b + c;
      assert abc[..|a|] == a && abc[|a|..|a| + |b|] == b && abc[|a| + |b|..] == c;
      if a + b + c <= input {
        assert input[..n] == abc;
      }
    }
  }

  /** `connect` succeeds exactly when the destination encodes, the writes go through and the input
      starts with a followable script; it has then consumed exactly that script, so the unread input
      is what follows BND.PORT, for each of the three address forms. */
  lemma ConnectIff(input: Bytes, room: nat, dest: Option<Dest>, port: nat, user: Option<string>, pass: Option<string>)
    requires IsBytes(input) && (dest.Some? ==> dest.value.Valid()) && port <= U16_MAX
    ensures Handshake(Scripted(input), Io("", 0, room), dest, port, user, pass).Done?
       <==> dest.Some? && exists t :: StartsWithScript(input, room, dest.value, port, user, pass, t)
  {
    var o := Handshake(Scripted(input), Io("", 0, room), dest, port, user, pass);
    if o.Done? {
      var t := SuccessHasScript(Scripted(input), Io("", 0, room), dest.value, port, user, pass);
      ScriptedPlays(input, room, dest.value, port, user, pass, t);
      assert StartsWithScript(input, room, dest.value, port, user, pass, t);
    }
    if dest.Some? && exists t :: StartsWithScript(input, room, dest.value, port, user, pass, t) {
      var t :| StartsWithScript(input, room, dest.value, port, user, pass, t);
      ConnectConsumes(input, room, dest.value, port, user, pass, t);
    }
  }

  lemma ConnectConsumes(input: Bytes, room: nat, dest: Dest, port: nat, user: Option<string>, pass: Option<string>, t: Script)
    requires IsBytes(input) && dest.Valid() && port <= U16_MAX
    requires StartsWithScript(input, room, dest, port, user, pass, t)
    ensures var o := Handshake(Scripted(input), Io("", 0, room), Some(dest), port, user, pass);
      && o.Done? && o.io.sent == ClientBytes(user, pass, t.m, dest, port)
      && o.io.got == |t.All()| && input == t.All() + input[o.io.got..]
  {
    hide Handshake, ClientBytes, Plays, ConnectReply;
    ScriptedPlays(input, room, dest, port, user, pass, t);
    PlayedScriptSucceeds(Scripted(input), Io("", 0, room), dest, port, user, pass, t);
    assert "" + ClientBytes(user, pass, t.m, dest, port) == ClientBytes(user, pass, t.m, dest, port);
    assert input[..|t.All()|] == t.All();
  }
}

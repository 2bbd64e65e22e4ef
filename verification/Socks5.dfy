/** The SOCKS5 wire formats (RFC 1928 sections 3 to 6, RFC 1929 section 2), and a server-side reader for
    what the client sends. */
module Socks5 {
  import opened Common
  import opened Text
  import opened Ip

  const VER: char := 5 as char
  const AUTH_VER: char := 1 as char
  const ZERO: char := 0 as char
  const METHOD_NO_AUTH: char := 0 as char
  const METHOD_USER_PASS: char := 2 as char
  const CMD_CONNECT: char := 1 as char
  const ATYP_IPV4: char := 1 as char
  const ATYP_DOMAIN: char := 3 as char
  const ATYP_IPV6: char := 4 as char

  // ----- destinations -----

  datatype Dest = V4(octets: Bytes) | V6(octets: Bytes) | Domain(name: Bytes)
  {
    /** Each form has its length; a domain's length fits in one byte. */
    predicate Valid() {
      match this
      case V4(o) => |o| == 4
      case V6(o) => |o| == 16
      case Domain(n) => |n| <= 255
    }
  }

  /** The standard library's IPv6 text reader: which texts it takes is left open, what it returns has
      16 bytes. */
  type V6Reader = f: string -> Option<Bytes> | forall h :: f(h).Some? ==> |f(h).value| == 16
    witness (h: string) => None

  function OctetBytes(o: seq<nat>): (b: Bytes)
    requires IsOctets(o)
    ensures |b| == 4
  {
    [o[0] as char, o[1] as char, o[2] as char, o[3] as char]
  }

  /** What `encode_addr` makes of a host: an IPv4 literal, an IPv6 literal, or a name of at most 255
      bytes. */
  function DestOf(v6: V6Reader, host: string): (r: Option<Dest>)
    ensures r.Some? ==> r.value.Valid()
  {
    var a := ParseIpv4(host);
    if a.Some? then Some(V4(OctetBytes(a.value)))
    else if v6(host).Some? then Some(V6(v6(host).value))
    else if |host| > 255 then None
    else Some(Domain(host))
  }

  /** The printed form of an IPv4 address goes out as its four octets in order. */
  lemma Ipv4GoesOutInOrder(v6: V6Reader, o: seq<nat>, i: nat)
    requires IsOctets(o) && i < 4
    ensures var d := DestOf(v6, FormatIpv4(o));
      d.Some? && d.value.V4? && |d.value.octets| == 4 && d.value.octets[i] as nat == o[i]
  {
    ParseFormat(o);
    hide ParseIpv4, FormatIpv4;
  }

  /** Which form a host takes: IPv4 exactly for a dotted quad, then IPv6 for whatever the reader takes,
      then a name if it fits in one length byte. */
  lemma HostFormIff(v6: V6Reader, host: string)
    ensures var d := DestOf(v6, host);
      && (d.Some? && d.value.V4? <==> exists o :: IsOctets(o) && host == FormatIpv4(o))
      && ((forall o :: IsOctets(o) ==> host != FormatIpv4(o)) ==>
            d == if v6(host).Some? then Some(V6(v6(host).value)) else if |host| <= 255 then Some(Domain(host)) else None)
  {
    hide FormatIpv4, ParseIpv4;
    if ParseIpv4(host).Some? {
      FormatParse(host);
      assert IsOctets(ParseIpv4(host).value) && host == FormatIpv4(ParseIpv4(host).value);
    }
    forall o | IsOctets(o) ensures host == FormatIpv4(o) ==> ParseIpv4(host).Some? {
      ParseFormat(o);
    }
  }

  // ----- messages -----

  function AddrField(d: Dest): Bytes
    requires d.Valid()
  {
    match d
    case V4(o) => [ATYP_IPV4] + o
    case V6(o) => [ATYP_IPV6] + o
    case Domain(n) => [ATYP_DOMAIN, |n| as char] + n
  }

  function PortField(port: nat): Bytes
    requires port <= U16_MAX
  {
    [(port / 256) as char, (port % 256) as char]
  }

  /** VER, NMETHODS, METHODS. */
  function Greeting(methods: Bytes): Bytes
    requires |methods| <= 255
  {
    [VER, |methods| as char] + methods
  }

  /** VER, ULEN, UNAME, PLEN, PASSWD. */
  function AuthRequest(user: Bytes, pass: Bytes): Bytes
    requires |user| <= 255 && |pass| <= 255
  {
    [AUTH_VER, |user| as char] + user + [|pass| as char] + pass
  }

  /** VER, CMD, RSV, ATYP, DST.ADDR, DST.PORT. */
  function ConnectRequest(d: Dest, port: nat): Bytes
    requires d.Valid() && port <= U16_MAX
  {
    [VER, CMD_CONNECT, ZERO] + AddrField(d) + PortField(port)
  }

  /** VER, REP, RSV, ATYP, BND.ADDR, BND.PORT. */
  function ConnectReply(rep: char, rsv: char, bnd: Dest, bndPort: Bytes): Bytes
    requires bnd.Valid()
  {
    [VER, rep, rsv] + AddrField(bnd) + bndPort
  }

  /** The bytes themselves, as RFC 1928 sections 3 and 4 and RFC 1929 section 2 number them. */
  lemma BytesOnTheWire(user: Option<string>, u: Bytes, p: Bytes, d: Dest, port: nat)
    requires |u| <= 255 && |p| <= 255 && d.Valid() && port <= U16_MAX
    ensures Greeting(Offered(user)) == if user.Some? then [5 as char, 2 as char, 0 as char, 2 as char] else [5 as char, 1 as char, 0 as char]
    ensures AuthRequest(u, p) == [1 as char, |u| as char] + u + [|p| as char] + p
    ensures ConnectRequest(d, port) == [5 as char, 1 as char, 0 as char]
      + (match d case V4(o) => [1 as char] + o case V6(o) => [4 as char] + o case Domain(n) => [3 as char, |n| as char] + n)
      + [(port / 256) as char, (port % 256) as char]
  {
  }

  // ----- the server's reader -----

  datatype Read<+T> = Got(value: T, rest: Bytes) | Incomplete | Malformed

  function ReadGreeting(w: Bytes): (r: Read<Bytes>)
    ensures r.Got? ==> |r.rest| < |w|
  {
    if |w| < 2 then Incomplete
    else if w[0] != VER then Malformed
    else
      var n := w[1] as nat;
      if |w| < 2 + n then Incomplete else Got(w[2..2 + n], w[2 + n..])
  }

  function ReadAuth(w: Bytes): (r: Read<(Bytes, Bytes)>)
    ensures r.Got? ==> |r.rest| < |w|
  {
    if |w| < 2 then Incomplete
    else if w[0] != AUTH_VER then Malformed
    else
      var u := w[1] as nat;
      if |w| < 3 + u then Incomplete
      else
        var p := w[2 + u] as nat;
        if |w| < 3 + u + p then Incomplete
        else Got((w[2..2 + u], w[3 + u..3 + u + p]), w[3 + u + p..])
  }

  /** ATYP and address. */
  function ReadAddr(w: Bytes): (r: Read<Dest>)
    ensures r.Got? ==> |r.rest| < |w|
  {
    if |w| < 1 then Incomplete
    else if w[0] == ATYP_IPV4 then if |w| < 5 then Incomplete else Got(V4(w[1..5]), w[5..])
    else if w[0] == ATYP_IPV6 then if |w| < 17 then Incomplete else Got(V6(w[1..17]), w[17..])
    else if w[0] == ATYP_DOMAIN then
      if |w| < 2 || |w| < 2 + w[1] as nat then Incomplete
      else Got(Domain(w[2..2 + w[1] as nat]), w[2 + w[1] as nat..])
    else Malformed
  }

  function ReadConnect(w: Bytes): (r: Read<(Dest, nat)>)
    ensures r.Got? ==> |r.rest| < |w|
  {
    if |w| < 3 then Incomplete
    else if w[0] != VER || w[1] != CMD_CONNECT || w[2] != ZERO then Malformed
    else
      match ReadAddr(w[3..])
      case Incomplete => Incomplete
      case Malformed => Malformed
      case Got(d, rest) =>
        if |rest| < 2 then Incomplete
        else Got((d, rest[0] as nat * 256 + rest[1] as nat), rest[2..])
  }

  // ----- reading what was written -----

  lemma GreetingReads(methods: Bytes, rest: Bytes)
    requires |methods| <= 255
    ensures ReadGreeting(Greeting(methods) + rest) == Got(methods, rest)
  {
    var w := Greeting(methods) + rest;
    assert w[0] == VER && w[1] as nat == |methods|;
    assert w[2..2 + |methods|] == methods && w[2 + |methods|..] == rest;
  }

  lemma AuthReads(user: Bytes, pass: Bytes, rest: Bytes)
    requires |user| <= 255 && |pass| <= 255
    ensures ReadAuth(AuthRequest(user, pass) + rest) == Got((user, pass), rest)
  {
    var w := AuthRequest(user, pass) + rest;
    var u, p := |user|, |pass|;
    assert w[0] == AUTH_VER && w[1] as nat == u && w[2 + u] as nat == p;
    assert w[2..2 + u] == user && w[3 + u..3 + u + p] == pass && w[3 + u + p..] == rest;
  }

  lemma AddrReads(d: Dest, rest: Bytes)
    requires d.Valid()
    ensures ReadAddr(AddrField(d) + rest) == Got(d, rest)
  {
    var w := AddrField(d) + rest;
    match d
    case V4(o) =>
      assert w[1..5] == o && w[5..] == rest;
    case V6(o) =>
      assert w[1..17] == o && w[17..] == rest;
    case Domain(n) =>
      assert w[1] as nat == |n|;
      assert w[2..2 + |n|] == n && w[2 + |n|..] == rest;
  }

  lemma ConnectReads(d: Dest, port: nat, rest: Bytes)
    requires d.Valid() && port <= U16_MAX
    ensures ReadConnect(ConnectRequest(d, port) + rest) == Got((d, port), rest)
  {
    var w := ConnectRequest(d, port) + rest;
    var tail := PortField(port) + rest;
    assert w[0] == VER && w[1] == CMD_CONNECT && w[2] == ZERO;
    assert w[3..] == AddrField(d) + tail;
    AddrReads(d, tail);
    assert tail[2..] == rest;
    assert tail[0] as nat * 256 + tail[1] as nat == port;
  }

  // A message cut short anywhere is incomplete, never misread.

  lemma GreetingPrefix(methods: Bytes, k: nat)
    requires |methods| <= 255 && k < |Greeting(methods)|
    ensures ReadGreeting(Greeting(methods)[..k]) == Incomplete
  {
  }

  lemma AuthPrefix(user: Bytes, pass: Bytes, k: nat)
    requires |user| <= 255 && |pass| <= 255 && k < |AuthRequest(user, pass)|
    ensures ReadAuth(AuthRequest(user, pass)[..k]) == Incomplete
  {
    var w := AuthRequest(user, pass);
    assert w[1] as nat == |user| && w[2 + |user|] as nat == |pass|;
  }

  lemma ConnectPrefix(d: Dest, port: nat, k: nat)
    requires d.Valid() && port <= U16_MAX && k < |ConnectRequest(d, port)|
    ensures ReadConnect(ConnectRequest(d, port)[..k]) == Incomplete
  {
    var w := ConnectRequest(d, port);
    var a := AddrField(d);
    if k >= 3 {
      var cut := w[..k];
      if k - 3 < |a| {
        assert cut[3..] == a[..k - 3];
        AddrPrefix(d, k - 3);
      } else {
        var tail := PortField(port)[..k - 3 - |a|];
        assert cut[3..] == a + tail;
        AddrReads(d, tail);
      }
    }
  }

  lemma AddrPrefix(d: Dest, k: nat)
    requires d.Valid() && k < |AddrField(d)|
    ensures ReadAddr(AddrField(d)[..k]) == Incomplete
  {
  }

  // ----- a whole client exchange -----

  /** The methods offered: user/password only when a user is configured. */
  function Offered(user: Option<string>): (m: Bytes)
    ensures 1 <= |m| <= 2
  {
    if user.Some? then [METHOD_NO_AUTH, METHOD_USER_PASS] else [METHOD_NO_AUTH]
  }

  function OrEmpty(s: Option<string>): string {
    if s.Some? then s.value else ""
  }

  predicate CredentialsFit(user: Option<string>, pass: Option<string>) {
    |OrEmpty(user)| <= 255 && |OrEmpty(pass)| <= 255
  }

  function GreetingOf(user: Option<string>): Bytes {
    Greeting(Offered(user))
  }

  /** What goes between the greeting and the request. */
  function AuthPart(m: char, user: Option<string>, pass: Option<string>): Bytes
    requires m == METHOD_USER_PASS ==> CredentialsFit(user, pass)
  {
    if m == METHOD_USER_PASS then AuthRequest(OrEmpty(user), OrEmpty(pass)) else []
  }

  /** All the client writes when the server selects method `m`. */
  function ClientBytes(user: Option<string>, pass: Option<string>, m: char, d: Dest, port: nat): Bytes
    requires d.Valid() && port <= U16_MAX && (m == METHOD_USER_PASS ==> CredentialsFit(user, pass))
  {
    GreetingOf(user) + AuthPart(m, user, pass) + ConnectRequest(d, port)
  }

  /** What a server learns from a client. */
  datatype Learned = Learned(methods: Bytes, creds: Option<(Bytes, Bytes)>, dest: Dest, port: nat)

  /** A server reading a client, choosing the method from those offered. */
  function ReadClient(w: Bytes, select: Bytes -> char): Read<Learned> {
    match ReadGreeting(w)
    case Incomplete => Incomplete
    case Malformed => Malformed
    case Got(methods, w1) =>
      if select(methods) == METHOD_USER_PASS then
        match ReadAuth(w1)
        case Incomplete => Incomplete
        case Malformed => Malformed
        case Got(creds, w2) => Finish(methods, Some(creds), ReadConnect(w2))
      else Finish(methods, None, ReadConnect(w1))
  }

  function Finish(methods: Bytes, creds: Option<(Bytes, Bytes)>, r: Read<(Dest, nat)>): Read<Learned> {
    match r
    case Incomplete => Incomplete
    case Malformed => Malformed
    case Got((d, port), rest) => Got(Learned(methods, creds, d, port), rest)
  }

  /** The server recovers the offered methods, the credentials, the destination and the port exactly,
      and is left with exactly the application bytes that follow. */
  lemma ServerReadsClient(user: Option<string>, pass: Option<string>, d: Dest, port: nat, app: Bytes, select: Bytes -> char)
    requires d.Valid() && port <= U16_MAX
    requires select(Offered(user)) == METHOD_USER_PASS ==> CredentialsFit(user, pass)
    ensures var m := select(Offered(user));
      ReadClient(ClientBytes(user, pass, m, d, port) + app, select)
      == Got(Learned(Offered(user), if m == METHOD_USER_PASS then Some((OrEmpty(user), OrEmpty(pass))) else None, d, port), app)
  {
    hide ReadGreeting, ReadAuth, ReadConnect, Greeting, AuthRequest, ConnectRequest, Offered, OrEmpty;
    var m := select(Offered(user));
    var g, c := Greeting(Offered(user)), ConnectRequest(d, port);
    var a := if m == METHOD_USER_PASS then AuthRequest(OrEmpty(user), OrEmpty(pass)) else [];
    ConnectReads(d, port, app);
    GreetingReads(Offered(user), a + (c + app));
    Assoc(g + a, c, app);
    Assoc(g, a, c + app);
    if m == METHOD_USER_PASS {
      AuthReads(OrEmpty(user), OrEmpty(pass), c + app);
    } else {
      assert a + (c + app) == c + app;
    }
  }

  /** RFC 1929 asks for 1 to 255 bytes in each field: the request meets that exactly when both are
      configured non-empty, because a missing password is sent as an empty one. */
  lemma StrictAuthIff(user: Option<string>, pass: Option<string>)
    requires CredentialsFit(user, pass)
    ensures var w := AuthRequest(OrEmpty(user), OrEmpty(pass));
      (w[1] != ZERO && w[2 + w[1] as nat] != ZERO) <==> OrEmpty(user) != "" && OrEmpty(pass) != ""
  {
    var w := AuthRequest(OrEmpty(user), OrEmpty(pass));
    assert w[1] as nat == |OrEmpty(user)| && w[2 + |OrEmpty(user)|] as nat == |OrEmpty(pass)|;
  }
}

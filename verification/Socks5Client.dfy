/** The SOCKS5 client over a byte stream, and exactly when it succeeds.

    The other end is any function from the bytes it has received to the bytes it has sent so far. A
    scripted server is a constant one; a server that reacts is any other. Every failure of the
    transport (refused write, end of stream, expired handshake timer) shows as a failed call. */
module Socks5Client {
  import opened Common
  import opened Text
  import opened Socks5

  type Peer = Bytes -> Bytes

  /** The client's side of the stream: bytes written, number of bytes read, and how many more bytes
      the transport takes before a write fails. */
  datatype Io = Io(sent: Bytes, got: nat, room: nat)

  datatype Failure =
    | WriteFailed | EndOfStream | BadVersion(b: char) | NoCredentials | MethodsRejected | BadMethod(b: char)
    | CredentialsTooLong | AuthRefused(b: char) | HostTooLong | Refused(b: char) | BadAddressType(b: char)

  datatype Outcome = Done(io: Io) | Failed(io: Io, why: Failure)

  // ----- what each call does -----

  function Send(io: Io, b: Bytes): Outcome {
    if |b| <= io.room then Done(Io(io.sent + b, io.got, io.room - |b|))
    else Failed(Io(io.sent + b[..io.room], io.got, 0), WriteFailed)
  }

  /** Whether `k` more bytes will come. */
  predicate Available(peer: Peer, io: Io, k: nat) {
    io.got + k <= |peer(io.sent)|
  }

  function Take(peer: Peer, io: Io, k: nat): (b: Bytes)
    requires Available(peer, io, k)
    ensures |b| == k
  {
    peer(io.sent)[io.got..io.got + k]
  }

  function Skip(io: Io, k: nat): Io {
    io.(got := io.got + k)
  }

  /** A failed exact read has swallowed whatever there was. */
  function Drained(peer: Peer, io: Io): Io {
    if io.got <= |peer(io.sent)| then io.(got := |peer(io.sent)|) else io
  }

  function Negotiate(peer: Peer, io: Io, user: Option<string>, pass: Option<string>): Outcome {
    var w := Send(io, Greeting(Offered(user)));
    if w.Failed? then w
    else if !Available(peer, w.io, 2) then Failed(Drained(peer, w.io), EndOfStream)
    else
      var resp := Take(peer, w.io, 2);
      var io2 := Skip(w.io, 2);
      if resp[0] != VER then Failed(io2, BadVersion(resp[0]))
      else if resp[1] == METHOD_NO_AUTH then Done(io2)
      else if resp[1] == METHOD_USER_PASS then
        if user.None? then Failed(io2, NoCredentials) else Authenticate(peer, io2, OrEmpty(user), OrEmpty(pass))
      else if resp[1] as nat == 0xFF then Failed(io2, MethodsRejected)
      else Failed(io2, BadMethod(resp[1]))
  }

  function Authenticate(peer: Peer, io: Io, user: string, pass: string): Outcome {
    if |user| > 255 || |pass| > 255 then Failed(io, CredentialsTooLong)
    else
      var w := Send(io, AuthRequest(user, pass));
      if w.Failed? then w
      else if !Available(peer, w.io, 2) then Failed(Drained(peer, w.io), EndOfStream)
      else
        var resp := Take(peer, w.io, 2);
        if resp[1] != ZERO then Failed(Skip(w.io, 2), AuthRefused(resp[1])) else Done(Skip(w.io, 2))
  }

  function Request(peer: Peer, io: Io, dest: Option<Dest>, port: nat): Outcome
    requires dest.Some? ==> dest.value.Valid()
    requires port <= U16_MAX
  {
    if dest.None? then Failed(io, HostTooLong)
    else
      var w := Send(io, ConnectRequest(dest.value, port));
      if w.Failed? then w else ReadReply(peer, w.io)
  }

  function ReadReply(peer: Peer, io: Io): Outcome {
    if !Available(peer, io, 4) then Failed(Drained(peer, io), EndOfStream)
    else
      var head := Take(peer, io, 4);
      var io4 := Skip(io, 4);
      if head[0] != VER then Failed(io4, BadVersion(head[0]))
      else if head[1] != ZERO then Failed(io4, Refused(head[1]))
      else if head[3] == ATYP_IPV4 then SkipBound(peer, io4, 4)
      else if head[3] == ATYP_IPV6 then SkipBound(peer, io4, 16)
      else if head[3] == ATYP_DOMAIN then
        if !Available(peer, io4, 1) then Failed(Drained(peer, io4), EndOfStream)
        else SkipBound(peer, Skip(io4, 1), Take(peer, io4, 1)[0] as nat)
      else Failed(io4, BadAddressType(head[3]))
  }

  /** Consume BND.ADDR and BND.PORT. */
  function SkipBound(peer: Peer, io: Io, addrLen: nat): Outcome {
    if !Available(peer, io, addrLen + 2) then Failed(Drained(peer, io), EndOfStream) else Done(Skip(io, addrLen + 2))
  }

  /** The result of `connect`. */
  function Handshake(peer: Peer, io: Io, dest: Option<Dest>, port: nat, user: Option<string>, pass: Option<string>): Outcome
    requires dest.Some? ==> dest.value.Valid()
    requires port <= U16_MAX
  {
    var n := Negotiate(peer, io, user, pass);
    if n.Failed? then n else Request(peer, n.io, dest, port)
  }

  // ----- the calls on a stream -----

  /** A stream whose reads return as few bytes as `frag` says, at least one. */
  class Stream {
    const peer: Peer
    const frag: nat -> nat
    var sent: Bytes
    var got: nat
    var room: nat

    constructor (peer: Peer, frag: nat -> nat, room: nat)
      ensures this.peer == peer && View() == Io("", 0, room)
    {
      this.peer, this.frag := peer, frag;
      sent, got, this.room := "", 0, room;
    }

    function View(): Io
      reads this
    {
      Io(sent, got, room)
    }

    method WriteAll(b: Bytes) returns (ok: bool)
      modifies this
      ensures var w := Send(old(View()), b); View() == w.io && (ok <==> w.Done?)
    {
      ok := |b| <= room;
      if ok {
        sent, room := sent + b, room - |b|;
      } else {
        sent, room := sent + b[..room], 0;
      }
    }

    /** `read_exact`: however the bytes are fragmented, the next `k` of them in order, or failure. */
    method ReadExact(k: nat) returns (r: Option<Bytes>)
      requires k > 0
      modifies this
      ensures r.Some? <==> Available(peer, old(View()), k)
      ensures r.Some? ==> r.value == Take(peer, old(View()), k) && View() == Skip(old(View()), k)
      ensures r.None? ==> View() == Drained(peer, old(View()))
    {
      var all := peer(sent);
      ghost var start := got;
      var out: Bytes := "";
      while |out| < k
        invariant |out| <= k && sent == old(sent) && room == old(room)
        invariant got == start + |out|
        invariant start <= |all| ==> got <= |all| && out == all[start..got]
        invariant start > |all| ==> out == ""
      {
        if got >= |all| {
          return None;
        }
        var m := Min(Min(k - |out|, |all| - got), if frag(got) == 0 then 1 else frag(got));
        SliceAppend(all, start, got, got + m);
        out := out + all[got..got + m];
        got := got + m;
      }
      r := Some(out);
    }

    /** `connect`. */
    method Connect(v6: V6Reader, host: string, port: nat, user: Option<string>, pass: Option<string>)
      returns (r: Option<Failure>)
      requires port <= U16_MAX
      modifies this
      ensures var o := Handshake(peer, old(View()), DestOf(v6, host), port, user, pass);
        View() == o.io && r == if o.Done? then None else Some(o.why)
    {
      r := NegotiateMethod(user, pass);
      if r.None? {
        r := SendConnect(v6, host, port);
      }
    }

    /** `negotiate_method`. */
    method NegotiateMethod(user: Option<string>, pass: Option<string>) returns (r: Option<Failure>)
      modifies this
      ensures var o := Negotiate(peer, old(View()), user, pass);
        View() == o.io && r == if o.Done? then None else Some(o.why)
    {
      var methods := if user.Some? then [METHOD_NO_AUTH, METHOD_USER_PASS] else [METHOD_NO_AUTH];
      var req: Bytes := [];
      req := req + [VER];
      req := req + [|methods| as char];
      req := req + methods;
      assert req == Greeting(Offered(user));
      var ok := WriteAll(req);
      if !ok {
        return Some(WriteFailed);
      }
      var resp := ReadExact(2);
      if resp.None? {
        return Some(EndOfStream);
      }
      if resp.value[0] != VER {
        return Some(BadVersion(resp.value[0]));
      }
      if resp.value[1] == METHOD_NO_AUTH {
        return None;
      } else if resp.value[1] == METHOD_USER_PASS {
        if user.None? {
          return Some(NoCredentials);
        }
        r := UserPassAuth(OrEmpty(user), OrEmpty(pass));
      } else if resp.value[1] as nat == 0xFF {
        return Some(MethodsRejected);
      } else {
        return Some(BadMethod(resp.value[1]));
      }
    }

    /** `user_pass_auth`. */
    method UserPassAuth(user: string, pass: string) returns (r: Option<Failure>)
      modifies this
      ensures var o := Authenticate(peer, old(View()), user, pass);
        View() == o.io && r == if o.Done? then None else Some(o.why)
    {
      if |user| > 255 || |pass| > 255 {
        return Some(CredentialsTooLong);
      }
      var req: Bytes := [AUTH_VER];
      req := req + [|user| as char];
      req := req + user;
      req := req + [|pass| as char];
      req := req + pass;
      assert req == AuthRequest(user, pass);
      var ok := WriteAll(req);
      if !ok {
        return Some(WriteFailed);
      }
      var resp := ReadExact(2);
      if resp.None? {
        return Some(EndOfStream);
      }
      if resp.value[1] != ZERO {
        return Some(AuthRefused(resp.value[1]));
      }
      return None;
    }

    /** `send_connect`. */
    method SendConnect(v6: V6Reader, host: string, port: nat) returns (r: Option<Failure>)
      requires port <= U16_MAX
      modifies this
      ensures var o := Request(peer, old(View()), DestOf(v6, host), port);
        View() == o.io && r == if o.Done? then None else Some(o.why)
    {
      var req: Bytes := [VER];
      req := req + [CMD_CONNECT];
      req := req + [ZERO];
      var dest := DestOf(v6, host);
      if dest.None? {
        return Some(HostTooLong);
      }
      req := req + AddrField(dest.value);
      req := req + PortField(port);
      assert req == ConnectRequest(dest.value, port);
      var ok := WriteAll(req);
      if !ok {
        return Some(WriteFailed);
      }
      r := AwaitReply();
    }

    method AwaitReply() returns (r: Option<Failure>)
      modifies this
      ensures var o := ReadReply(peer, old(View()));
        View() == o.io && r == if o.Done? then None else Some(o.why)
    {
      var head := ReadExact(4);
      if head.None? {
        return Some(EndOfStream);
      }
      if head.value[0] != VER {
        return Some(BadVersion(head.value[0]));
      }
      if head.value[1] != ZERO {
        return Some(Refused(head.value[1]));
      }
      var addrLen: nat;
      if head.value[3] == ATYP_IPV4 {
        addrLen := 4;
      } else if head.value[3] == ATYP_IPV6 {
        addrLen := 16;
      } else if head.value[3] == ATYP_DOMAIN {
        var l := ReadExact(1);
        if l.None? {
          return Some(EndOfStream);
        }
        addrLen := l.value[0] as nat;
      } else {
        return Some(BadAddressType(head.value[3]));
      }
      var scratch := ReadExact(addrLen + 2);
      if scratch.None? {
        return Some(EndOfStream);
      }
      return None;
    }
  }
}

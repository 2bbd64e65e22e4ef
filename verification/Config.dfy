/** Building the validated configuration from the scanned flags. */
module Config {
  import opened Common
  import opened Text
  import opened HostPort
  import opened Node
  import opened Cli

  datatype Protocol = Tcp | Udp
  {
    function AsStr(): string {
      if Tcp? then "tcp" else "udp"
    }
  }

  datatype Listener = Listener(
    proto: Protocol, bind: string, port: nat, targets: seq<string>, nodelay: bool, name: string)

  datatype Hop = Hop(addr: string, user: Option<string>, pass: Option<string>)

  datatype Mode = Userspace | Nat

  datatype SockOpts = SockOpts(nodelay: bool, rcvbuf: Option<nat>, sndbuf: Option<nat>)

  datatype Config = Config(
    listeners: seq<Listener>,
    chain: seq<Hop>,
    mode: Mode,
    mark: Option<nat>,
    setIpForward: bool,
    bufSize: nat,
    heartbeatSecs: nat,
    debug: bool,
    workerThreads: Option<nat>,
    sock: SockOpts)

  datatype ConfigError =
    | NoListeners
    | BadNode(text: string, node: NodeError)
    | BadScheme(text: string, scheme: string)
    | NoListenPort(text: string)
    | NoTarget(text: string)
    | BadTarget(text: string, target: string, why: HostPortError)
    | NotSocks5(text: string, scheme: string)
    | NoHopPort(text: string)
    | BadHop(text: string, why: HostPortError)
    | NatWithChain
    | UdpWithChain
    | DuplicateListener
    | BadBufSize(kb: nat)
    | NegativeMark
    | NoWorkers

  const MIN_BUF_KB: nat := 1
  const MAX_BUF_KB: nat := 1024
  const U32: nat := 0x1_0000_0000

  // ----- one -L, one -F -----

  function ProtocolOf(scheme: string): Option<Protocol> {
    if scheme == "tcp" then Some(Tcp) else if scheme == "udp" then Some(Udp) else None
  }

  /** The first target that does not validate. */
  function FirstBadTarget(targets: seq<string>): (r: Option<string>)
    ensures r.Some? ==> r.value in targets && ValidateHostPort(r.value).Err?
    ensures r.None? <==> forall t :: t in targets ==> ValidateHostPort(t).Ok?
  {
    if targets == [] then None
    else if ValidateHostPort(targets[0]).Err? then Some(targets[0])
    else FirstBadTarget(targets[1..])
  }

  /** What one `-L` value becomes. */
  function ListenerOf(text: string): Result<Listener, ConfigError> {
    var parsed := ParseNode(text);
    if parsed.Err? then Err(BadNode(text, parsed.error))
    else
      var node := parsed.value;
      var proto := ProtocolOf(node.scheme);
      if proto.None? then Err(BadScheme(text, node.scheme))
      else if node.port.None? then Err(NoListenPort(text))
      else if node.Targets() == [] then Err(NoTarget(text))
      else
        var bad := FirstBadTarget(node.Targets());
        if bad.Some? then Err(BadTarget(text, bad.value, ValidateHostPort(bad.value).error))
        else Ok(ListenerFrom(node, proto.value))
  }

  function ListenerFrom(node: Node, proto: Protocol): Listener
    requires node.port.Some?
  {
    Listener(proto, node.BindString().value, node.port.value, node.Targets(),
             "nodelay" in node.query && node.query["nodelay"] != "false" && node.query["nodelay"] != "0",
             proto.AsStr() + "://" + HostColonPort(node.host, node.port.value))
  }

  /** What one `-F` value becomes. */
  function HopOf(text: string): Result<Hop, ConfigError> {
    var parsed := ParseNode(text);
    if parsed.Err? then Err(BadNode(text, parsed.error))
    else
      var node := parsed.value;
      if node.scheme != "socks5" then Err(NotSocks5(text, node.scheme))
      else if node.port.None? then Err(NoHopPort(text))
      else
        var addr := node.Authority().value;
        var valid := ValidateHostPort(addr);
        if valid.Err? then Err(BadHop(text, valid.error)) else Ok(Hop(addr, node.user, node.pass))
  }

  /** Every `-L` in order, or the first error. */
  function Listeners(texts: seq<string>): Result<seq<Listener>, ConfigError> {
    if texts == [] then Ok([])
    else
      var n := |texts| - 1;
      var init := Listeners(texts[..n]);
      if init.Err? then init
      else
        var last := ListenerOf(texts[n]);
        if last.Err? then Err(last.error) else Ok(init.value + [last.value])
  }

  lemma {:induction false} ListenersAre(texts: seq<string>)
    ensures var r := Listeners(texts);
      && (r.Ok? <==> forall i :: 0 <= i < |texts| ==> ListenerOf(texts[i]).Ok?)
      && (r.Ok? ==> |r.value| == |texts| && forall i :: 0 <= i < |texts| ==> ListenerOf(texts[i]) == Ok(r.value[i]))
  {
    hide ListenerOf;
    if texts != [] {
      var n := |texts| - 1;
      ListenersAre(texts[..n]);
      assert forall i :: 0 <= i < n ==> texts[..n][i] == texts[i];
    }
  }

  /** Every `-F` in order, or the first error. */
  function Hops(texts: seq<string>): Result<seq<Hop>, ConfigError> {
    if texts == [] then Ok([])
    else
      var n := |texts| - 1;
      var init := Hops(texts[..n]);
      if init.Err? then init
      else
        var last := HopOf(texts[n]);
        if last.Err? then Err(last.error) else Ok(init.value + [last.value])
  }

  lemma {:induction false} HopsAre(texts: seq<string>)
    ensures var r := Hops(texts);
      && (r.Ok? <==> forall i :: 0 <= i < |texts| ==> HopOf(texts[i]).Ok?)
      && (r.Ok? ==> |r.value| == |texts| && forall i :: 0 <= i < |texts| ==> HopOf(texts[i]) == Ok(r.value[i]))
  {
    hide HopOf;
    if texts != [] {
      var n := |texts| - 1;
      HopsAre(texts[..n]);
      assert forall i :: 0 <= i < n ==> texts[..n][i] == texts[i];
    }
  }

  // ----- the whole configuration -----

  ghost predicate Distinct(ls: seq<Listener>) {
    forall i, j :: 0 <= i < j < |ls| ==> ls[i].proto != ls[j].proto || ls[i].bind != ls[j].bind
  }

  ghost predicate NoUdp(ls: seq<Listener>) {
    forall i :: 0 <= i < |ls| ==> ls[i].proto.Tcp?
  }

  function OrElse<T>(o: Option<T>, default: T): T {
    if o.Some? then o.value else default
  }

  /** The scalar part: buffer size, mark, workers; `m as u32` keeps the low 32 bits. */
  function Finish(raw: RawArgs, ls: seq<Listener>, chain: seq<Hop>): Result<Config, ConfigError> {
    var kb := OrElse(raw.bufSizeKb, 32);
    if !(MIN_BUF_KB <= kb <= MAX_BUF_KB) then Err(BadBufSize(kb))
    else if raw.mark.Some? && raw.mark.value < 0 then Err(NegativeMark)
    else if raw.workerThreads == Some(0) then Err(NoWorkers)
    else
      var mark: Option<nat> := if raw.mark.Some? then Some(raw.mark.value % U32) else None;
      Ok(Config(ls, chain, if raw.natMode then Nat else Userspace, mark, raw.setIpForward, kb * 1024,
                OrElse(raw.heartbeatSecs, 60), raw.debug, raw.workerThreads,
                SockOpts(OrElse(raw.nodelay, true), raw.soRcvbuf, raw.soSndbuf)))
  }

  /** The result of `build_config`, with the first error it meets. */
  ghost function Build(raw: RawArgs): Result<Config, ConfigError> {
    if raw.listens == [] then Err(NoListeners)
    else
      var ls := Listeners(raw.listens);
      if ls.Err? then Err(ls.error)
      else
        var hops := Hops(raw.forwards);
        if hops.Err? then Err(hops.error)
        else if raw.natMode && hops.value != [] then Err(NatWithChain)
        else if hops.value != [] && !NoUdp(ls.value) then Err(UdpWithChain)
        else if !Distinct(ls.value) then Err(DuplicateListener)
        else Finish(raw, ls.value, hops.value)
  }

  /** The nested duplicate check. */
  method HasDuplicate(ls: seq<Listener>) returns (found: bool)
    ensures found <==> !Distinct(ls)
  {
    for i := 0 to |ls|
      invariant forall a, b :: 0 <= a < i && a < b < |ls| ==> ls[a].proto != ls[b].proto || ls[a].bind != ls[b].bind
    {
      for j := i + 1 to |ls|
        invariant forall b :: i < b < j ==> ls[i].proto != ls[b].proto || ls[i].bind != ls[b].bind
      {
        if ls[i].proto == ls[j].proto && ls[i].bind == ls[j].bind {
          return true;
        }
      }
    }
    return false;
  }

  /** The target loop of one `-L`. */
  method CheckTargets(targets: seq<string>) returns (bad: Option<string>)
    ensures bad == FirstBadTarget(targets)
  {
    var i := 0;
    assert targets[0..] == targets;
    while i < |targets|
      invariant 0 <= i <= |targets|
      invariant FirstBadTarget(targets) == FirstBadTarget(targets[i..])
    {
      assert targets[i..][1..] == targets[i + 1..];
      if ValidateHostPort(targets[i]).Err? {
        return Some(targets[i]);
      }
      i := i + 1;
    }
    return None;
  }

  /** One round of the listener loop. */
  method ReadListener(text: string) returns (r: Result<Listener, ConfigError>)
    ensures r == ListenerOf(text)
  {
    hide ParseNode, ValidateHostPort, FirstBadTarget;
    var parsed := ReadNode(text);
    if parsed.Err? {
      return Err(BadNode(text, parsed.error));
    }
    var node := parsed.value;
    var proto := ProtocolOf(node.scheme);
    if proto.None? {
      return Err(BadScheme(text, node.scheme));
    }
    if node.port.None? {
      return Err(NoListenPort(text));
    }
    var targets := node.Targets();
    if targets == [] {
      return Err(NoTarget(text));
    }
    var bad := CheckTargets(targets);
    if bad.Some? {
      return Err(BadTarget(text, bad.value, ValidateHostPort(bad.value).error));
    }
    r := Ok(ListenerFrom(node, proto.value));
  }

  /** `build_config`. */
  method BuildConfig(raw: RawArgs) returns (r: Result<Config, ConfigError>)
    ensures r == Build(raw)
  {
    hide ListenerOf, HopOf, Finish;
    if raw.listens == [] {
      return Err(NoListeners);
    }
    var listeners: seq<Listener> := [];
    for i := 0 to |raw.listens|
      invariant Listeners(raw.listens[..i]) == Ok(listeners)
    {
      var l := ReadListener(raw.listens[i]);
      ListenersStep(raw.listens, i);
      if l.Err? {
        return Err(l.error);
      }
      listeners := listeners + [l.value];
    }
    assert raw.listens[..|raw.listens|] == raw.listens;
    var chain: seq<Hop> := [];
    for i := 0 to |raw.forwards|
      invariant Hops(raw.forwards[..i]) == Ok(chain)
    {
      var h := HopOf(raw.forwards[i]);
      HopsStep(raw.forwards, i);
      if h.Err? {
        return Err(h.error);
      }
      chain := chain + [h.value];
    }
    assert raw.forwards[..|raw.forwards|] == raw.forwards;
    if raw.natMode && chain != [] {
      return Err(NatWithChain);
    }
    if chain != [] {
      for i := 0 to |listeners|
        invariant NoUdp(listeners[..i])
      {
        if listeners[i].proto.Udp? {
          return Err(UdpWithChain);
        }
      }
      assert listeners[..|listeners|] == listeners;
    }
    var dup := HasDuplicate(listeners);
    if dup {
      return Err(DuplicateListener);
    }
    r := Finish(raw, listeners, chain);
  }

  lemma {:induction false} ListenersStep(texts: seq<string>, i: nat)
    requires i < |texts| && Listeners(texts[..i]).Ok?
    ensures var l := ListenerOf(texts[i]);
      && Listeners(texts[..i + 1]) == (if l.Err? then Err(l.error) else Ok(Listeners(texts[..i]).value + [l.value]))
      && (l.Err? ==> Listeners(texts) == Err(l.error))
    decreases |texts|
  {
    hide ListenerOf;
    assert texts[..i + 1][..i] == texts[..i];
    var n := |texts| - 1;
    if i < n {
      assert texts[..n][..i] == texts[..i];
      ListenersStep(texts[..n], i);
    } else {
      assert texts[..i + 1] == texts;
    }
  }

  lemma {:induction false} HopsStep(texts: seq<string>, i: nat)
    requires i < |texts| && Hops(texts[..i]).Ok?
    ensures var h := HopOf(texts[i]);
      && Hops(texts[..i + 1]) == (if h.Err? then Err(h.error) else Ok(Hops(texts[..i]).value + [h.value]))
      && (h.Err? ==> Hops(texts) == Err(h.error))
    decreases |texts|
  {
    hide HopOf;
    assert texts[..i + 1][..i] == texts[..i];
    var n := |texts| - 1;
    if i < n {
      assert texts[..n][..i] == texts[..i];
      HopsStep(texts[..n], i);
    } else {
      assert texts[..i + 1] == texts;
    }
  }

  // ----- what an accepted configuration guarantees -----

  /** The runtime's preconditions. */
  ghost predicate RuntimeReady(c: Config) {
    && c.listeners != [] && Distinct(c.listeners)
    && (forall i :: 0 <= i < |c.listeners| ==> ListenerReady(c.listeners[i]))
    && (forall i :: 0 <= i < |c.chain| ==> SplitHostPort(c.chain[i].addr).Some?)
    && (c.chain != [] ==> c.mode.Userspace? && NoUdp(c.listeners))
    && 1024 <= c.bufSize <= 1048576
    && (c.mark.Some? ==> c.mark.value < U32)
    && (c.workerThreads.Some? ==> c.workerThreads.value >= 1)
  }

  /** Round-robin has something to pick from, and every pick can be dialled. */
  ghost predicate ListenerReady(l: Listener) {
    && l.targets != [] && (forall t :: t in l.targets ==> SplitHostPort(t).Some?)
    && l.port <= U16_MAX
  }

  lemma ListenerOfReady(text: string)
    requires ListenerOf(text).Ok?
    ensures ListenerReady(ListenerOf(text).value)
  {
    hide ParseNode, ValidateHostPort, SplitHostPort;
    forall t | t in ListenerOf(text).value.targets ensures SplitHostPort(t).Some? {
      SplittersAgree(t);
    }
  }

  /** A hop's stored address splits back into the host and port of the node it was written as. */
  lemma HopOfReady(text: string)
    requires HopOf(text).Ok?
    ensures ParseNode(text).Ok? && ParseNode(text).value.port.Some?
    ensures SplitHostPort(HopOf(text).value.addr) == Some((ParseNode(text).value.host, ParseNode(text).value.port.value))
  {
    hide ParseNode, ValidateHostPort, SplitHostPort;
    StoredHopAddress(text);
  }

  /** Every accepted configuration meets the runtime's preconditions. */
  lemma AcceptedIsReady(raw: RawArgs)
    requires Build(raw).Ok?
    ensures RuntimeReady(Build(raw).value)
  {
    ListenersAre(raw.listens);
    HopsAre(raw.forwards);
    hide ListenerOf, HopOf, SplitHostPort, ListenerReady, Listeners, Hops;
    var c := Build(raw).value;
    forall i | 0 <= i < |c.listeners| ensures ListenerReady(c.listeners[i]) {
      ListenerOfReady(raw.listens[i]);
    }
    forall i | 0 <= i < |c.chain| ensures SplitHostPort(c.chain[i].addr).Some? {
      HopOfReady(raw.forwards[i]);
    }
  }

  /** What an operator must supply, independent of the order of the checks. */
  ghost predicate Acceptable(raw: RawArgs) {
    && raw.listens != []
    && (forall i :: 0 <= i < |raw.listens| ==> ListenerOf(raw.listens[i]).Ok?)
    && (forall i :: 0 <= i < |raw.forwards| ==> HopOf(raw.forwards[i]).Ok?)
    && (raw.forwards != [] ==> !raw.natMode)
    && (raw.forwards != [] ==> forall i :: 0 <= i < |raw.listens| ==> ListenerOf(raw.listens[i]).value.proto.Tcp?)
    && (forall i, j :: 0 <= i < j < |raw.listens| ==>
          var a, b := ListenerOf(raw.listens[i]).value, ListenerOf(raw.listens[j]).value;
          a.proto != b.proto || a.bind != b.bind)
    && (raw.bufSizeKb.Some? ==> 1 <= raw.bufSizeKb.value <= 1024)
    && (raw.mark.Some? ==> raw.mark.value >= 0)
    && raw.workerThreads != Some(0)
  }

  lemma BuildIff(raw: RawArgs)
    ensures Build(raw).Ok? <==> Acceptable(raw)
  {
    ListenersAre(raw.listens);
    HopsAre(raw.forwards);
    hide ListenerOf, HopOf, Listeners, Hops;
  }

  /** Two `-L` values naming the same protocol, port and interface are refused however the port is
      spelled and whether the interface is left out or written `0.0.0.0`. */
  lemma SameEndpointRefused(raw: RawArgs, i: nat, j: nat, a: Node, b: Node)
    requires i < j < |raw.listens|
    requires ParseNode(raw.listens[i]) == Ok(a) && ParseNode(raw.listens[j]) == Ok(b)
    requires a.scheme == b.scheme && a.port == b.port
    requires (if a.host == "" then "0.0.0.0" else a.host) == (if b.host == "" then "0.0.0.0" else b.host)
    ensures Build(raw).Err?
  {
    BuildIff(raw);
    hide Build, ParseNode, FirstBadTarget, ProtocolOf;
  }

  /** The stored mark is the one asked for exactly when that fits in 32 bits. */
  lemma MarkIsKeptIff(raw: RawArgs)
    requires Build(raw).Ok? && raw.mark.Some?
    ensures var kept := Build(raw).value.mark;
      kept.Some? && (kept.value == raw.mark.value <==> raw.mark.value < U32)
  {
    hide Build, Listeners, Hops, Finish;
    BuildFinishes(raw);
    FinishMark(raw, Listeners(raw.listens).value, Hops(raw.forwards).value);
    LowBits(raw.mark.value);
  }

  lemma LowBits(m: nat)
    ensures m % U32 == m <==> m < U32
  {
  }

  lemma BuildFinishes(raw: RawArgs)
    requires Build(raw).Ok?
    ensures Listeners(raw.listens).Ok? && Hops(raw.forwards).Ok?
    ensures Build(raw) == Finish(raw, Listeners(raw.listens).value, Hops(raw.forwards).value)
  {
    hide Listeners, Hops, Finish;
  }

  lemma FinishMark(raw: RawArgs, ls: seq<Listener>, chain: seq<Hop>)
    requires Finish(raw, ls, chain).Ok? && raw.mark.Some?
    ensures Finish(raw, ls, chain).value.mark == Some(raw.mark.value % U32)
    ensures raw.mark.value >= 0
  {
  }
}

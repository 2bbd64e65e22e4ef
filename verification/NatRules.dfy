/** NAT mode, from listeners to the fate of a packet. */
module NatRules {
  import opened Common
  import opened Text
  import opened Ip
  import opened HostPort
  import opened Cli
  import opened Config
  import opened Nftables

  datatype NatError = NotOneTarget(name: string, count: nat) | UnsplitTarget(target: string) | Unresolved(host: string)

  /** What a host that is no IPv4 literal resolves to, in order: an IPv6 literal to itself, a name to the
      addresses the system lookup returns, or nothing when the lookup fails. */
  type Resolver = string -> seq<IpAddr>

  ghost predicate Proper(resolve: Resolver) {
    forall h, i :: 0 <= i < |resolve(h)| ==> ValidIp(resolve(h)[i])
  }

  /** The first IPv4 address, or else the last address of all. */
  function Preferred(ips: seq<IpAddr>): (r: Option<IpAddr>)
    ensures r.None? <==> ips == []
    ensures r.Some? ==> r.value in ips
  {
    if ips == [] then None
    else if ips[0].V4? then Some(ips[0])
    else
      var rest := Preferred(ips[1..]);
      if rest.None? then Some(ips[0]) else rest
  }

  /** `resolve_ip`, with its loop. */
  method ResolveIp(host: string, resolve: Resolver) returns (r: Option<IpAddr>)
    ensures r == IpOf(host, resolve)
  {
    if ParseIpv4(host).Some? {
      return Some(V4(ParseIpv4(host).value));
    }
    var ips := resolve(host);
    r := None;
    for i := 0 to |ips|
      invariant forall j :: 0 <= j < i ==> ips[j].V6?
      invariant r == if i == 0 then None else Some(ips[i - 1])
    {
      if ips[i].V4? {
        FirstV4(ips, i);
        return Some(ips[i]);
      }
      r := Some(ips[i]);
    }
    NoV4(ips);
  }

  /** An IPv4 address is preferred, the first of them. */
  lemma {:induction false} FirstV4(ips: seq<IpAddr>, i: nat)
    requires i < |ips| && ips[i].V4? && forall j :: 0 <= j < i ==> ips[j].V6?
    ensures Preferred(ips) == Some(ips[i])
    decreases i
  {
    if i > 0 {
      FirstV4(ips[1..], i - 1);
    }
  }

  /** Without one, the last address is taken. */
  lemma {:induction false} NoV4(ips: seq<IpAddr>)
    requires forall j :: 0 <= j < |ips| ==> ips[j].V6?
    ensures Preferred(ips) == if ips == [] then None else Some(ips[|ips| - 1])
  {
    if |ips| > 1 {
      NoV4(ips[1..]);
    }
  }

  /** The address of a host: a dotted quad is that address, whatever the lookup says. */
  function IpOf(host: string, resolve: Resolver): Option<IpAddr> {
    if ParseIpv4(host).Some? then Some(V4(ParseIpv4(host).value)) else Preferred(resolve(host))
  }

  lemma IpIsValid(host: string, resolve: Resolver)
    requires Proper(resolve) && IpOf(host, resolve).Some?
    ensures ValidIp(IpOf(host, resolve).value)
  {
    hide ParseIpv4;
  }

  /** `gust:tcp:80->1.2.3.4:443`. */
  function Comment(proto: Protocol, dport: nat, ip: IpAddr, port: nat): string
    requires ValidIp(ip)
  {
    "gust:" + proto.AsStr() + ":" + Decimal(dport) + "->" + FormatIp(ip) + ":" + Decimal(port)
  }

  /** The rule of one listener; its bind address plays no part. */
  function RuleOf(l: Listener, resolve: Resolver): Result<NatRule, NatError>
    requires Proper(resolve)
  {
    if |l.targets| != 1 then Err(NotOneTarget(l.name, |l.targets|))
    else
      var target := SplitHostPort(l.targets[0]);
      if target.None? then Err(UnsplitTarget(l.targets[0]))
      else
        var (host, port) := target.value;
        var found := IpOf(host, resolve);
        if found.None? then Err(Unresolved(host))
        else
          IpIsValid(host, resolve);
          var ip := found.value;
          Ok(NatRule(l.proto, l.port, ip, port, Comment(l.proto, l.port, ip, port)))
  }

  /** The rules of all listeners in order, or the first error. */
  function RulesOf(ls: seq<Listener>, resolve: Resolver): Result<seq<NatRule>, NatError>
    requires Proper(resolve)
  {
    if ls == [] then Ok([])
    else
      var n := |ls| - 1;
      var init := RulesOf(ls[..n], resolve);
      if init.Err? then init
      else
        var r := RuleOf(ls[n], resolve);
        if r.Err? then Err(r.error) else Ok(init.value + [r.value])
  }

  /** One rule for each listener, in order, unless some listener has none. */
  lemma {:induction false} RulesAre(ls: seq<Listener>, resolve: Resolver)
    requires Proper(resolve)
    ensures var r := RulesOf(ls, resolve);
      && (r.Ok? <==> forall i :: 0 <= i < |ls| ==> RuleOf(ls[i], resolve).Ok?)
      && (r.Ok? ==> |r.value| == |ls| && forall i :: 0 <= i < |ls| ==> RuleOf(ls[i], resolve) == Ok(r.value[i]))
  {
    hide RuleOf, Proper;
    if ls != [] {
      var n := |ls| - 1;
      RulesAre(ls[..n], resolve);
      assert forall i :: 0 <= i < n ==> ls[..n][i] == ls[i];
    }
  }

  /** `build_rules`. */
  method BuildRules(ls: seq<Listener>, resolve: Resolver) returns (r: Result<seq<NatRule>, NatError>)
    requires Proper(resolve)
    ensures r == RulesOf(ls, resolve)
  {
    hide Comment, SplitHostPort, Proper;
    var rules := [];
    for i := 0 to |ls|
      invariant RulesOf(ls[..i], resolve) == Ok(rules)
    {
      var l := ls[i];
      assert ls[..i + 1][..i] == ls[..i];
      if |l.targets| != 1 {
        FirstErrorWins(ls, i, resolve);
        return Err(NotOneTarget(l.name, |l.targets|));
      }
      var target := SplitHostPort(l.targets[0]);
      if target.None? {
        FirstErrorWins(ls, i, resolve);
        return Err(UnsplitTarget(l.targets[0]));
      }
      var (host, port) := target.value;
      var ip := ResolveIp(host, resolve);
      if ip.None? {
        FirstErrorWins(ls, i, resolve);
        return Err(Unresolved(host));
      }
      IpIsValid(host, resolve);
      rules := rules + [NatRule(l.proto, l.port, ip.value, port, Comment(l.proto, l.port, ip.value, port))];
    }
    assert ls[..|ls|] == ls;
    return Ok(rules);
  }

  lemma {:induction false} FirstErrorWins(ls: seq<Listener>, i: nat, resolve: Resolver)
    requires i < |ls| && Proper(resolve) && RulesOf(ls[..i], resolve).Ok? && RuleOf(ls[i], resolve).Err?
    ensures RulesOf(ls, resolve) == Err(RuleOf(ls[i], resolve).error)
    decreases |ls|
  {
    hide RuleOf, Proper;
    var n := |ls| - 1;
    if i < n {
      assert ls[..n][..i] == ls[..i];
      FirstErrorWins(ls[..n], i, resolve);
    }
  }

  /** The rule of a listener whose target is written as an address and a port is for that address and
      port, and matches the listener's own protocol and port. */
  lemma WrittenTarget(l: Listener, resolve: Resolver, o: seq<nat>, port: nat)
    requires Proper(resolve) && IsOctets(o) && port <= U16_MAX && l.targets == [HostColonPort(FormatIpv4(o), port)]
    ensures var r := RuleOf(l, resolve);
      r.Ok? && r.value.ip == V4(o) && r.value.port == port && r.value.proto == l.proto && r.value.dport == l.port
  {
    Ipv4Free(o, "[");
    ParseFormat(o);
    hide ParseIpv4, FormatIpv4, SplitHostPort, HostColonPort, Comment;
    StoredAddressSplits(FormatIpv4(o), port);
  }

  // ----- the comments -----

  lemma CommentIsQuotable(proto: Protocol, dport: nat, ip: IpAddr, port: nat)
    requires ValidIp(ip)
    ensures Free(Comment(proto, dport, ip, port), "\"\n")
  {
    hide Decimal, FormatIp;
    DecimalFree(dport, "\"\n");
    DecimalFree(port, "\"\n");
    IpFree(ip);
    WordsFree(proto);
    var a := "gust:" + proto.AsStr() + ":" + Decimal(dport) + "->";
    hide Free;
    FreeConcat("gust:", proto.AsStr(), "\"\n");
    FreeConcat("gust:" + proto.AsStr(), ":", "\"\n");
    FreeConcat("gust:" + proto.AsStr() + ":", Decimal(dport), "\"\n");
    FreeConcat("gust:" + proto.AsStr() + ":" + Decimal(dport), "->", "\"\n");
    FreeConcat(a, FormatIp(ip), "\"\n");
    FreeConcat(a + FormatIp(ip), ":", "\"\n");
    FreeConcat(a + FormatIp(ip) + ":", Decimal(port), "\"\n");
  }

  lemma WordsFree(proto: Protocol)
    ensures Free(proto.AsStr(), "\"\n") && Free("gust:", "\"\n") && Free(":", "\"\n") && Free("->", "\"\n")
  {
  }

  lemma IpFree(ip: IpAddr)
    requires ValidIp(ip)
    ensures Free(FormatIp(ip), "\"\n")
  {
    if ip.V4? {
      Ipv4Free(ip.octets, "\"\n");
    }
  }

  /** The comment by which the status report finds a rule again: marked as ours, and naming protocol, port
      and destination. */
  lemma CommentNames(proto: Protocol, dport: nat, o: seq<nat>, port: nat)
    requires IsOctets(o)
    ensures var c := Comment(proto, dport, V4(o), port);
      && "gust:" <= c
      && c == "gust:" + (if proto.Tcp? then "tcp" else "udp") + ":" + Decimal(dport) + "->" + FormatIpv4(o) + ":" + Decimal(port)
  {
    hide Decimal, FormatIpv4;
    var rest := proto.AsStr() + (":" + (Decimal(dport) + ("->" + (FormatIpv4(o) + (":" + Decimal(port))))));
    Nest5("gust:" + proto.AsStr() + ":", Decimal(dport), "->", FormatIpv4(o), ":", Decimal(port));
    assert Comment(proto, dport, V4(o), port) == "gust:" + rest;
  }

  /** The rules made from a configuration are ones that `nft` reads back unchanged. */
  lemma {:induction false} RulesAreReadable(ls: seq<Listener>, resolve: Resolver)
    requires Proper(resolve) && RulesOf(ls, resolve).Ok? && forall i :: 0 <= i < |ls| ==> ls[i].port <= U16_MAX
    ensures AllTyped(RulesOf(ls, resolve).value) && AllQuotable(RulesOf(ls, resolve).value)
  {
    RulesAre(ls, resolve);
    hide RulesOf;
    var rules := RulesOf(ls, resolve).value;
    forall i | 0 <= i < |rules| ensures Typed(rules[i]) && Quotable(rules[i]) {
      assert RuleOf(ls[i], resolve) == Ok(rules[i]);
      CommentIsQuotable(rules[i].proto, rules[i].dport, rules[i].ip, rules[i].port);
    }
  }

  // ----- the fate of a packet -----

  /** What the installed text does to a packet. */
  function Fate(rules: seq<NatRule>, f: Family, proto: Protocol, dport: nat): Option<NatRule>
    requires AllTyped(rules)
  {
    TablesOfTyped(rules);
    var read := ReadRuleset(TablesText(TablesOf(rules)));
    if read.None? then None else Dnat(read.value, f, proto, dport)
  }

  /** Same family, protocol and port. */
  predicate SameKey(a: NatRule, b: NatRule) {
    a.Family() == b.Family() && a.proto == b.proto && a.dport == b.dport
  }

  /** Packets for a listener's port reach that listener's own target if and only if the first listener
      of the same protocol, port and target family has the same target. */
  lemma {:induction false} ListenerIsServedIff(ls: seq<Listener>, resolve: Resolver, rules: seq<NatRule>, i: nat, k: nat)
    requires Proper(resolve) && RulesOf(ls, resolve) == Ok(rules) && forall j :: 0 <= j < |ls| ==> ls[j].port <= U16_MAX
    requires k <= i < |rules|
    requires SameKey(rules[k], rules[i]) && forall j :: 0 <= j < k ==> !SameKey(rules[j], rules[i])
    ensures |rules| == |ls| && AllTyped(rules)
    ensures var fate := Fate(rules, rules[i].Family(), ls[i].proto, ls[i].port);
      && fate.Some?
      && ((fate.value.ip, fate.value.port) == (rules[i].ip, rules[i].port)
          <==> (rules[k].ip, rules[k].port) == (rules[i].ip, rules[i].port))
  {
    hide ReadRuleset, TablesText, TablesOf, Dnat, AllTyped, AllQuotable, Comment, SplitHostPort, RulesOf;
    RulesAre(ls, resolve);
    RulesAreReadable(ls, resolve);
    assert RuleOf(ls[i], resolve) == Ok(rules[i]);
    PacketMeetsFirstRule(rules, rules[i].Family(), ls[i].proto, ls[i].port);
    assert IsFirst(rules, k, rules[i].Family(), ls[i].proto, ls[i].port);
  }

  /** NAT mode ignores bind addresses: of two listeners on one port with different binds, which the
      duplicate check lets through, the second gets no traffic of its target's family. */
  lemma {:induction false} BoundElsewhereIsShadowed(a: Listener, b: Listener, resolve: Resolver)
    requires Proper(resolve) && RuleOf(a, resolve).Ok? && RuleOf(b, resolve).Ok?
    requires a.proto == b.proto && a.port == b.port <= U16_MAX && a.bind != b.bind
    requires RuleOf(a, resolve).value.Family() == RuleOf(b, resolve).value.Family()
    ensures Distinct([a, b])
    ensures RulesOf([a, b], resolve).Ok? && AllTyped(RulesOf([a, b], resolve).value)
    ensures Fate(RulesOf([a, b], resolve).value, RuleOf(b, resolve).value.Family(), b.proto, b.port) == Some(RuleOf(a, resolve).value)
  {
    hide ReadRuleset, TablesText, TablesOf, Dnat, AllTyped, AllQuotable, Comment, SplitHostPort;
    var ls := [a, b];
    RulesAre(ls, resolve);
    var rules := RulesOf(ls, resolve).value;
    RulesAreReadable(ls, resolve);
    assert RuleOf(ls[0], resolve) == Ok(rules[0]) && RuleOf(ls[1], resolve) == Ok(rules[1]);
    PacketMeetsFirstRule(rules, rules[1].Family(), b.proto, b.port);
    assert IsFirst(rules, 0, rules[1].Family(), b.proto, b.port);
  }

  /** The same for every configuration that is accepted: if an earlier listener has the protocol, port
      and target family of listener `j`, packets for `j` go to that one or to one before it. */
  lemma {:induction false} EarlierListenerTakesAll(raw: RawArgs, resolve: Resolver, rules: seq<NatRule>, i: nat, j: nat) returns (k: nat)
    requires Build(raw).Ok? && Proper(resolve) && RulesOf(Build(raw).value.listeners, resolve) == Ok(rules)
    requires i < j < |rules| && SameKey(rules[i], rules[j])
    ensures k <= i && SameKey(rules[k], rules[j]) && |rules| == |Build(raw).value.listeners| && AllTyped(rules)
    ensures var l := Build(raw).value.listeners[j];
      Fate(rules, rules[j].Family(), l.proto, l.port) == Some(rules[k])
  {
    hide ReadRuleset, TablesText, TablesOf, Dnat, AllTyped, AllQuotable, Comment, SplitHostPort, RulesOf, Build;
    var ls := Build(raw).value.listeners;
    AcceptedPorts(raw);
    RulesAre(ls, resolve);
    RulesAreReadable(ls, resolve);
    assert RuleOf(ls[j], resolve) == Ok(rules[j]);
    PacketMeetsFirstRule(rules, rules[j].Family(), ls[j].proto, ls[j].port);
    k := Earliest(rules, i, rules[j].Family(), ls[j].proto, ls[j].port);
  }

  lemma AcceptedPorts(raw: RawArgs)
    requires Build(raw).Ok?
    ensures forall i :: 0 <= i < |Build(raw).value.listeners| ==> Build(raw).value.listeners[i].port <= U16_MAX
  {
    hide Build;
    AcceptedIsReady(raw);
  }

  /** A listener that is the first for its protocol and port, with a target written as an IPv4 address and
      port: the kernel sends its IPv4 packets there. */
  lemma {:induction false} WrittenTargetIsServed(ls: seq<Listener>, resolve: Resolver, rules: seq<NatRule>, i: nat, o: seq<nat>, port: nat)
    requires Proper(resolve) && RulesOf(ls, resolve) == Ok(rules) && forall j :: 0 <= j < |ls| ==> ls[j].port <= U16_MAX
    requires i < |ls| && IsOctets(o) && port <= U16_MAX && ls[i].targets == [HostColonPort(FormatIpv4(o), port)]
    requires forall j :: 0 <= j < i ==> ls[j].proto != ls[i].proto || ls[j].port != ls[i].port
    ensures AllTyped(rules)
    ensures var fate := Fate(rules, Inet4, ls[i].proto, ls[i].port); fate.Some? && fate.value.ip == V4(o) && fate.value.port == port
  {
    hide ReadRuleset, TablesText, TablesOf, Dnat, AllTyped, AllQuotable, RulesOf, RuleOf, FormatIpv4, HostColonPort, Proper;
    RulesAre(ls, resolve);
    RulesAreReadable(ls, resolve);
    WrittenTarget(ls[i], resolve, o, port);
    forall j | 0 <= j < i ensures !Matches(rules[j], ls[i].proto, ls[i].port) {
      RuleKey(ls[j], resolve);
    }
    PacketMeetsFirstRule(rules, Inet4, ls[i].proto, ls[i].port);
    assert IsFirst(rules, i, Inet4, ls[i].proto, ls[i].port);
  }

  lemma RuleKey(l: Listener, resolve: Resolver)
    requires Proper(resolve) && RuleOf(l, resolve).Ok?
    ensures RuleOf(l, resolve).value.proto == l.proto && RuleOf(l, resolve).value.dport == l.port
  {
    hide SplitHostPort, IpOf, Comment;
  }
}

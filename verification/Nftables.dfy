/** NAT mode: the DNAT rules of a configuration, the ruleset text that is fed to `nft`, and a reader of
    that text against which it is judged. */
module Nftables {
  import opened Common
  import opened Text
  import opened Ip
  import opened Config

  /** An IPv6 address is kept as its printed form. */
  datatype IpAddr = V4(octets: seq<nat>) | V6(text: string)

  datatype Family = Inet4 | Inet6

  datatype NatRule = NatRule(proto: Protocol, dport: nat, ip: IpAddr, port: nat, comment: string)
  {
    function Family(): Family {
      if ip.V4? then Inet4 else Inet6
    }
  }

  datatype Table = Table(family: Family, rules: seq<NatRule>)

  predicate IsV6Char(c: char) {
    IsDigit(c) || 'a' <= c <= 'f' || c == ':' || c == '.'
  }

  predicate ValidIp(ip: IpAddr) {
    match ip
    case V4(o) => IsOctets(o)
    case V6(t) => forall i :: 0 <= i < |t| ==> IsV6Char(t[i])
  }

  /** What the types of the rule's fields guarantee. */
  predicate Typed(r: NatRule) {
    r.dport <= U16_MAX && r.port <= U16_MAX && ValidIp(r.ip)
  }

  predicate AllTyped(rules: seq<NatRule>) {
    forall i :: 0 <= i < |rules| ==> Typed(rules[i])
  }

  /** The comment stays within its quotes and its line. */
  predicate Quotable(r: NatRule) {
    Free(r.comment, "\"\n")
  }

  predicate AllQuotable(rules: seq<NatRule>) {
    forall i :: 0 <= i < |rules| ==> Quotable(rules[i])
  }

  // ----- the text -----

  const INDENT := "        "
  const DPORT := "dport "
  const COUNTER := "counter comment \""
  const DNAT := " dnat to "
  const TABLE := "table "
  const GUST := "gust {\n"
  const CHAIN := "    chain prerouting {\n"
  const HOOK := "        type nat hook prerouting priority dstnat; policy accept;\n"
  const CLOSE := "    }\n"
  const POST_CHAIN := "    chain postrouting {\n"
  const POST_HOOK := "        type nat hook postrouting priority srcnat; policy accept;\n"
  const MASQUERADE := "        ct status dnat counter masquerade fully-random\n"
  const END := "}\n"

  function FamilyText(f: Family): string {
    if f.Inet4? then "ip" else "ip6"
  }

  function FormatIp(ip: IpAddr): string
    requires ValidIp(ip)
  {
    match ip
    case V4(o) => FormatIpv4(o)
    case V6(t) => t
  }

  /** `format_dest`. */
  function FormatDest(ip: IpAddr, port: nat): string
    requires ValidIp(ip)
  {
    if ip.V4? then FormatIp(ip) + ([':'] + Decimal(port))
    else ['['] + (FormatIp(ip) + ([']'] + ([':'] + Decimal(port))))
  }

  /** One rule, without the line feed. */
  function RuleLine(r: NatRule): string
    requires Typed(r)
  {
    INDENT + (r.proto.AsStr() + ([' '] + (DPORT + (Decimal(r.dport) + ([' '] + (COUNTER + (r.comment + (['"'] + (DNAT + FormatDest(r.ip, r.port))))))))))
  }

  function RuleLines(rules: seq<NatRule>): string
    requires AllTyped(rules)
  {
    if rules == [] then "" else RuleLine(rules[0]) + (['\n'] + RuleLines(rules[1..]))
  }

  function Head(f: Family): string {
    TABLE + (FamilyText(f) + ([' '] + (GUST + (CHAIN + HOOK))))
  }

  function Tail(): string {
    CLOSE + Masquerade()
  }

  function Masquerade(): string {
    POST_CHAIN + (POST_HOOK + (MASQUERADE + (CLOSE + END)))
  }

  function TableText(f: Family, rules: seq<NatRule>): string
    requires AllTyped(rules)
  {
    Head(f) + (RuleLines(rules) + Tail())
  }

  /** The rules of one family, in order. */
  function Of(rules: seq<NatRule>, f: Family): seq<NatRule> {
    if rules == [] then []
    else if rules[0].Family() == f then [rules[0]] + Of(rules[1..], f)
    else Of(rules[1..], f)
  }

  lemma {:induction false} OfMembers(rules: seq<NatRule>, f: Family)
    ensures forall i :: 0 <= i < |Of(rules, f)| ==> Of(rules, f)[i] in rules && Of(rules, f)[i].Family() == f
  {
    if rules != [] {
      OfMembers(rules[1..], f);
    }
  }

  /** The tables a rule list stands for: one for each family that occurs. */
  function TablesOf(rules: seq<NatRule>): seq<Table> {
    (if Of(rules, Inet4) == [] then [] else [Table(Inet4, Of(rules, Inet4))])
    + (if Of(rules, Inet6) == [] then [] else [Table(Inet6, Of(rules, Inet6))])
  }

  function TablesText(tables: seq<Table>): string
    requires forall i :: 0 <= i < |tables| ==> AllTyped(tables[i].rules)
  {
    if tables == [] then "" else TableText(tables[0].family, tables[0].rules) + TablesText(tables[1..])
  }

  /** The frame of a table as it stands in the text. */
  lemma FrameText(f: Family)
    ensures TABLE + FamilyText(f) + [' '] + GUST == (if f.Inet4? then "table ip gust {\n" else "table ip6 gust {\n")
    ensures CHAIN == "    chain prerouting {\n" && POST_CHAIN == "    chain postrouting {\n" && CLOSE == "    }\n" && END == "}\n"
    ensures HOOK == "        type nat hook prerouting priority dstnat; policy accept;\n"
    ensures POST_HOOK == "        type nat hook postrouting priority srcnat; policy accept;\n"
    ensures MASQUERADE == "        ct status dnat counter masquerade fully-random\n"
    ensures INDENT == "        " && DPORT == "dport " && COUNTER == "counter comment \"" && DNAT == " dnat to "
  {
    assert f.Inet4? ==> TABLE + "ip" + [' '] + GUST == "table ip gust {\n";
    assert f.Inet6? ==> TABLE + "ip6" + [' '] + GUST == "table ip6 gust {\n";
  }

  // ----- building it -----

  /** `build_table`. */
  method BuildTable(f: Family, rules: seq<NatRule>) returns (s: string)
    requires AllTyped(rules)
    ensures s == TableText(f, rules)
  {
    hide RuleLine, RuleLines, Head, Tail;
    s := "";
    s := s + (TABLE + FamilyText(f) + " " + GUST);
    s := s + CHAIN;
    s := s + HOOK;
    HeadIs(f, s);
    for i := 0 to |rules|
      invariant s == Head(f) + RuleLines(rules[..i])
    {
      var line := FormatRule(rules[i]);
      RuleLinesSnoc(rules, i);
      Assoc(Head(f), RuleLines(rules[..i]), line);
      s := s + line;
    }
    assert rules[..|rules|] == rules;
    ghost var body := s;
    s := s + CLOSE;
    s := s + POST_CHAIN;
    s := s + POST_HOOK;
    s := s + MASQUERADE;
    s := s + CLOSE;
    s := s + END;
    TailIs(body, s);
    Assoc(Head(f), RuleLines(rules), Tail());
  }

  /** The line pushed for one rule. */
  method FormatRule(r: NatRule) returns (line: string)
    requires Typed(r)
    ensures line == RuleLine(r) + ['\n']
  {
    hide Decimal, FormatDest;
    line := INDENT + r.proto.AsStr() + " " + DPORT + Decimal(r.dport) + " " + COUNTER + r.comment
      + "\"" + DNAT + FormatDest(r.ip, r.port) + "\n";
    LineIs(line, r);
  }

  lemma HeadIs(f: Family, s: string)
    requires s == "" + (TABLE + FamilyText(f) + " " + GUST) + CHAIN + HOOK
    ensures s == Head(f) + RuleLines([])
  {
    hide FamilyText;
    HeadNest(TABLE, FamilyText(f), " ", GUST, CHAIN, HOOK);
  }

  lemma HeadNest(a: string, b: string, c: string, d: string, e: string, f: string)
    ensures "" + (a + b + c + d) + e + f == a + (b + (c + (d + (e + f)))) + ""
  {
  }

  lemma LineIs(line: string, r: NatRule)
    requires Typed(r)
    requires line == INDENT + r.proto.AsStr() + " " + DPORT + Decimal(r.dport) + " " + COUNTER + r.comment
      + "\"" + DNAT + FormatDest(r.ip, r.port) + "\n"
    ensures line == RuleLine(r) + ['\n']
  {
    Nest(INDENT, r.proto.AsStr(), " ", DPORT, Decimal(r.dport), " ", COUNTER, r.comment, "\"", DNAT, FormatDest(r.ip, r.port));
  }

  lemma Nest(a: string, b: string, c: string, d: string, e: string, f: string, g: string, h: string, i: string, j: string, k: string)
    ensures a + b + c + d + e + f + g + h + i + j + k
      == a + (b + (c + (d + (e + (f + (g + (h + (i + (j + k)))))))))
  {
    Nest5(a, b, c, d, e, f);
    Nest5(f, g, h, i, j, k);
    var x := a + b + c + d + e;
    Nest5(x, f, g, h, i, j + k);
    assert x + f + g + h + i + j + k == x + f + g + h + i + (j + k);
    Nest5(a, b, c, d, e, f + (g + (h + (i + (j + k)))));
  }

  lemma Nest5(a: string, b: string, c: string, d: string, e: string, f: string)
    ensures a + b + c + d + e + f == a + (b + (c + (d + (e + f))))
  {
  }

  lemma {:induction false} RuleLinesSnoc(rules: seq<NatRule>, i: nat)
    requires i < |rules| && AllTyped(rules)
    ensures RuleLines(rules[..i + 1]) == RuleLines(rules[..i]) + (RuleLine(rules[i]) + ['\n'])
    decreases i
  {
    hide RuleLine;
    if i > 0 {
      var rest := rules[1..];
      RuleLinesSnoc(rest, i - 1);
      assert rules[..i + 1][1..] == rest[..i] && rules[..i][1..] == rest[..i - 1];
      var l := RuleLine(rules[0]);
      var m := RuleLine(rules[i]) + ['\n'];
      Assoc(['\n'], RuleLines(rest[..i - 1]), m);
      Assoc(l, ['\n'] + RuleLines(rest[..i - 1]), m);
    } else {
      assert rules[..1][1..] == [];
    }
  }

  lemma TailIs(body: string, s: string)
    requires s == body + CLOSE + POST_CHAIN + POST_HOOK + MASQUERADE + CLOSE + END
    ensures s == body + Tail()
  {
    TailNest(body, CLOSE, POST_CHAIN, POST_HOOK, MASQUERADE, CLOSE, END);
  }

  lemma TailNest(a: string, b: string, c: string, d: string, e: string, f: string, g: string)
    ensures a + b + c + d + e + f + g == a + (b + (c + (d + (e + (f + g)))))
  {
  }

  /** `build_ruleset`. */
  method BuildRuleset(rules: seq<NatRule>) returns (s: string)
    requires AllTyped(rules)
    ensures TablesTyped(TablesOf(rules))
    ensures s == TablesText(TablesOf(rules))
  {
    hide TableText;
    TablesOfTyped(rules);
    var v4 := FilterFamily(rules, Inet4);
    var v6 := FilterFamily(rules, Inet6);
    s := "";
    if v4 != [] {
      var t := BuildTable(Inet4, v4);
      s := s + t;
    }
    if v6 != [] {
      var t := BuildTable(Inet6, v6);
      s := s + t;
    }
    TablesTextOf(rules);
  }

  method FilterFamily(rules: seq<NatRule>, f: Family) returns (r: seq<NatRule>)
    requires AllTyped(rules)
    ensures r == Of(rules, f) && AllTyped(r)
  {
    r := [];
    for i := 0 to |rules|
      invariant r == Of(rules[..i], f)
    {
      OfConcat(rules[..i], [rules[i]], f);
      assert rules[..i] + [rules[i]] == rules[..i + 1];
      assert [rules[i]][1..] == [];
      if rules[i].Family() == f {
        r := r + [rules[i]];
      }
    }
    assert rules[..|rules|] == rules;
    OfMembers(rules, f);
  }

  lemma {:induction false} OfConcat(a: seq<NatRule>, b: seq<NatRule>, f: Family)
    ensures Of(a + b, f) == Of(a, f) + Of(b, f)
  {
    if a == [] {
      assert a + b == b;
    } else {
      OfConcat(a[1..], b, f);
      assert (a + b)[0] == a[0] && (a + b)[1..] == a[1..] + b;
      if a[0].Family() == f {
        Assoc([a[0]], Of(a[1..], f), Of(b, f));
      }
    }
  }

  predicate TablesTyped(tables: seq<Table>) {
    forall i :: 0 <= i < |tables| ==> AllTyped(tables[i].rules)
  }

  predicate TablesQuotable(tables: seq<Table>) {
    forall i :: 0 <= i < |tables| ==> AllQuotable(tables[i].rules)
  }

  lemma TablesOfTyped(rules: seq<NatRule>)
    requires AllTyped(rules)
    ensures TablesTyped(TablesOf(rules))
    ensures AllTyped(Of(rules, Inet4)) && AllTyped(Of(rules, Inet6))
    ensures TablesFit(TablesOf(rules))
    ensures AllQuotable(rules) ==> TablesQuotable(TablesOf(rules))
  {
    OfMembers(rules, Inet4);
    OfMembers(rules, Inet6);
    hide Of, Typed, Quotable;
  }

  lemma TablesTextOf(rules: seq<NatRule>)
    requires AllTyped(rules) && TablesTyped(TablesOf(rules))
    requires AllTyped(Of(rules, Inet4)) && AllTyped(Of(rules, Inet6))
    ensures TablesText(TablesOf(rules)) ==
      (if Of(rules, Inet4) == [] then "" else TableText(Inet4, Of(rules, Inet4)))
      + (if Of(rules, Inet6) == [] then "" else TableText(Inet6, Of(rules, Inet6)))
  {
    hide TableText, Of;
    var t := TablesOf(rules);
    if |t| == 2 {
      assert t[1..] == [Table(Inet6, Of(rules, Inet6))];
      OneTable(t[1..][0]);
    } else if |t| == 1 {
      assert t == [t[0]];
      OneTable(t[0]);
    }
  }

  lemma OneTable(t: Table)
    requires AllTyped(t.rules)
    ensures TablesText([t]) == TableText(t.family, t.rules)
  {
    hide TableText;
    assert [t][1..] == [];
    assert TablesText([t]) == TableText(t.family, t.rules) + TablesText([]);
  }

  // ----- reading it -----

  function Strip(s: string, p: string): (r: Option<string>)
    ensures r.Some? ==> s == p + r.value
  {
    if |p| <= |s| && s[..|p|] == p then Some(s[|p|..]) else None
  }

  lemma StripConcat(p: string, rest: string)
    ensures Strip(p + rest, p) == Some(rest)
  {
  }

  /** The text before the first `c`, and what follows that `c`. */
  function UpTo(s: string, c: char): (r: Option<(string, string)>)
    ensures r.Some? ==> s == r.value.0 + ([c] + r.value.1)
  {
    match Find(s, [c])
    case None => None
    case Some(k) => Some((s[..k], s[k + 1..]))
  }

  lemma UpToConcat(a: string, c: char, b: string)
    requires Free(a, [c])
    ensures UpTo(a + ([c] + b), c) == Some((a, b))
  {
    FindSplits(a, c, b, [c]);
    Assoc(a, [c], b);
  }

  /** `1.2.3.4:80` or `[::1]:80`. */
  function ReadDest(s: string): Option<(IpAddr, nat)> {
    if s != "" && s[0] == '[' then
      var a := UpTo(s[1..], ']');
      if a.None? then None
      else
        var b := Strip(a.value.1, [':']);
        if b.None? || !ValidIp(V6(a.value.0)) || ParseUint(b.value, U16_MAX).None? then None
        else Some((V6(a.value.0), ParseUint(b.value, U16_MAX).value))
    else
      var a := UpTo(s, ':');
      if a.None? || ParseIpv4(a.value.0).None? || ParseUint(a.value.1, U16_MAX).None? then None
      else Some((V4(ParseIpv4(a.value.0).value), ParseUint(a.value.1, U16_MAX).value))
  }

  /** From the quoted comment to the end of the line. */
  function ReadAction(s: string, proto: Protocol, dport: nat): Option<NatRule> {
    var a := UpTo(s, '"');
    if a.None? then None
    else
      var b := Strip(a.value.1, DNAT);
      if b.None? || ReadDest(b.value).None? then None
      else
        var d := ReadDest(b.value).value;
        Some(NatRule(proto, dport, d.0, d.1, a.value.0))
  }

  /** From the port to the end of the line. */
  function ReadMatch(s: string, proto: Protocol): Option<NatRule> {
    var a := UpTo(s, ' ');
    if a.None? || ParseUint(a.value.0, U16_MAX).None? then None
    else
      var b := Strip(a.value.1, COUNTER);
      if b.None? then None else ReadAction(b.value, proto, ParseUint(a.value.0, U16_MAX).value)
  }

  function ReadRule(line: string): Option<NatRule> {
    var a := Strip(line, INDENT);
    if a.None? then None
    else
      var b := UpTo(a.value, ' ');
      if b.None? || ProtocolOf(b.value.0).None? then None
      else
        var c := Strip(b.value.1, DPORT);
        if c.None? then None else ReadMatch(c.value, ProtocolOf(b.value.0).value)
  }

  /** Rule lines up to the closing brace of the chain. */
  function ReadRules(text: string): (r: Option<(seq<NatRule>, string)>)
    ensures r.Some? ==> |r.value.1| < |text|
    decreases |text|
  {
    var end := Strip(text, CLOSE);
    if end.Some? then Some(([], end.value))
    else
      var a := UpTo(text, '\n');
      if a.None? || ReadRule(a.value.0).None? then None
      else
        var more := ReadRules(a.value.1);
        if more.None? then None
        else Some(([ReadRule(a.value.0).value] + more.value.0, more.value.1))
  }

  function ReadFamily(s: string): Option<Family> {
    if s == "ip" then Some(Inet4) else if s == "ip6" then Some(Inet6) else None
  }

  /** One table; every rule's address must be of the table's family. */
  function ReadTable(text: string): (r: Option<(Table, string)>)
    ensures r.Some? ==> |r.value.1| < |text|
  {
    var a := Strip(text, TABLE);
    if a.None? then None
    else
      var b := UpTo(a.value, ' ');
      if b.None? || ReadFamily(b.value.0).None? then None
      else
        var f := ReadFamily(b.value.0).value;
        var c := Strip(b.value.1, GUST + (CHAIN + HOOK));
        if c.None? then None
        else
          var d := ReadRules(c.value);
          if d.None? || exists i :: 0 <= i < |d.value.0| && d.value.0[i].Family() != f then None
          else
            var e := Strip(d.value.1, Masquerade());
            if e.None? then None else Some((Table(f, d.value.0), e.value))
  }

  function ReadRuleset(text: string): Option<seq<Table>>
    decreases |text|
  {
    if text == "" then Some([])
    else
      var t := ReadTable(text);
      if t.None? then None
      else
        var more := ReadRuleset(t.value.1);
        if more.None? then None else Some([t.value.0] + more.value)
  }

  // ----- reading undoes building -----

  lemma ReadFormatDest(ip: IpAddr, port: nat)
    requires ValidIp(ip) && port <= U16_MAX
    ensures ReadDest(FormatDest(ip, port)) == Some((ip, port))
  {
    hide Decimal, ParseUint, FormatIpv4, ParseIpv4, UpTo, Strip;
    DecimalParses(port, U16_MAX);
    var s := FormatDest(ip, port);
    match ip
    case V4(o) =>
      Ipv4Free(o, ":");
      ParseFormat(o);
      UpToConcat(FormatIpv4(o), ':', Decimal(port));
      assert s[0] == FormatIpv4(o)[0];
    case V6(t) =>
      assert s[1..] == t + ([']'] + ([':'] + Decimal(port)));
      UpToConcat(t, ']', [':'] + Decimal(port));
      StripConcat([':'], Decimal(port));
  }

  lemma ReadActionOf(r: NatRule)
    requires Typed(r) && Quotable(r)
    ensures ReadAction(r.comment + (['"'] + (DNAT + FormatDest(r.ip, r.port))), r.proto, r.dport) == Some(r)
  {
    hide FormatDest, ReadDest, UpTo, Strip;
    ReadFormatDest(r.ip, r.port);
    UpToConcat(r.comment, '"', DNAT + FormatDest(r.ip, r.port));
    StripConcat(DNAT, FormatDest(r.ip, r.port));
  }

  lemma ReadMatchOf(r: NatRule, action: string)
    requires Typed(r) && ReadAction(action, r.proto, r.dport) == Some(r)
    ensures ReadMatch(Decimal(r.dport) + ([' '] + (COUNTER + action)), r.proto) == Some(r)
  {
    hide ReadAction, Decimal, UpTo, Strip, ParseUint;
    DecimalParses(r.dport, U16_MAX);
    DecimalFree(r.dport, " ");
    UpToConcat(Decimal(r.dport), ' ', COUNTER + action);
    StripConcat(COUNTER, action);
  }

  lemma ProtoReads(p: Protocol)
    ensures ProtocolOf(p.AsStr()) == Some(p) && Free(p.AsStr(), " \n")
  {
  }

  lemma ReadRuleLine(r: NatRule)
    requires Typed(r) && Quotable(r)
    ensures ReadRule(RuleLine(r)) == Some(r)
  {
    hide ReadAction, ReadMatch, ProtocolOf, Decimal, UpTo, Strip, FormatDest;
    var action := r.comment + (['"'] + (DNAT + FormatDest(r.ip, r.port)));
    var rest := Decimal(r.dport) + ([' '] + (COUNTER + action));
    ReadActionOf(r);
    ReadMatchOf(r, action);
    ProtoReads(r.proto);
    StripConcat(INDENT, r.proto.AsStr() + ([' '] + (DPORT + rest)));
    UpToConcat(r.proto.AsStr(), ' ', DPORT + rest);
    StripConcat(DPORT, rest);
  }

  lemma LineIsFree(r: NatRule)
    requires Typed(r) && Quotable(r)
    ensures Free(RuleLine(r), "\n")
  {
    hide Decimal, FormatDest;
    DestFree(r);
    ProtoReads(r.proto);
    DecimalFree(r.dport, "\n");
    LiteralsFree();
    hide Free;
    var a := DNAT + FormatDest(r.ip, r.port);
    FreeConcat(DNAT, FormatDest(r.ip, r.port), "\n");
    CharFree('"');
    CharFree(' ');
    FreeConcat(['"'], a, "\n");
    CommentFree(r);
    FreeConcat(r.comment, ['"'] + a, "\n");
    var b := r.comment + (['"'] + a);
    FreeConcat(COUNTER, b, "\n");
    FreeConcat([' '], COUNTER + b, "\n");
    FreeConcat(Decimal(r.dport), [' '] + (COUNTER + b), "\n");
    var c := Decimal(r.dport) + ([' '] + (COUNTER + b));
    FreeConcat(DPORT, c, "\n");
    FreeConcat([' '], DPORT + c, "\n");
    ProtoFree(r.proto);
    FreeConcat(r.proto.AsStr(), [' '] + (DPORT + c), "\n");
    FreeConcat(INDENT, r.proto.AsStr() + ([' '] + (DPORT + c)), "\n");
  }

  lemma LiteralsFree()
    ensures Free(DNAT, "\n") && Free(COUNTER, "\n") && Free(DPORT, "\n") && Free(INDENT, "\n")
  {
  }

  lemma CharFree(c: char)
    requires c != '\n'
    ensures Free([c], "\n")
  {
  }

  lemma ProtoFree(p: Protocol)
    ensures Free(p.AsStr(), "\n")
  {
  }

  lemma CommentFree(r: NatRule)
    requires Typed(r) && Quotable(r)
    ensures Free(r.comment, "\n")
  {
  }

  lemma DestFree(r: NatRule)
    requires Typed(r)
    ensures Free(FormatDest(r.ip, r.port), "\n")
  {
    hide Decimal, FormatIpv4;
    DecimalFree(r.port, "\n");
    if r.ip.V4? {
      Ipv4Free(r.ip.octets, "\n");
    }
  }

  /** A rule line is deeper than a closing brace. */
  lemma NotClose(r: NatRule, rest: string)
    requires Typed(r)
    ensures Strip(RuleLine(r) + (['\n'] + rest), CLOSE).None?
  {
    var s := RuleLine(r) + (['\n'] + rest);
    assert s[4] == INDENT[4];
    assert |s| >= 6 && s[..6][4] == ' ';
  }

  lemma {:induction false} ReadRuleLines(rules: seq<NatRule>, rest: string)
    requires AllTyped(rules) && AllQuotable(rules)
    ensures ReadRules(RuleLines(rules) + (CLOSE + rest)) == Some((rules, rest))
  {
    hide RuleLine, ReadRule, UpTo, Strip;
    var text := RuleLines(rules) + (CLOSE + rest);
    StripConcat(CLOSE, rest);
    if rules == [] {
      assert text == CLOSE + rest;
    } else {
      var r := rules[0];
      var more := RuleLines(rules[1..]) + (CLOSE + rest);
      Assoc(RuleLine(r), ['\n'] + RuleLines(rules[1..]), CLOSE + rest);
      Assoc(['\n'], RuleLines(rules[1..]), CLOSE + rest);
      assert text == RuleLine(r) + (['\n'] + more);
      NotClose(r, more);
      LineIsFree(r);
      UpToConcat(RuleLine(r), '\n', more);
      ReadRuleLine(r);
      ReadRuleLines(rules[1..], rest);
      assert [r] + rules[1..] == rules;
    }
  }

  lemma FamilyReads(f: Family)
    ensures ReadFamily(FamilyText(f)) == Some(f) && Free(FamilyText(f), " ")
  {
  }

  lemma ReadTableText(f: Family, rules: seq<NatRule>, rest: string)
    requires AllTyped(rules) && AllQuotable(rules) && forall i :: 0 <= i < |rules| ==> rules[i].Family() == f
    ensures ReadTable(TableText(f, rules) + rest) == Some((Table(f, rules), rest))
  {
    hide UpTo, Strip, ReadRules, RuleLines, FamilyText, ReadFamily, Masquerade;
    var d := RuleLines(rules) + (CLOSE + (Masquerade() + rest));
    var c := GUST + (CHAIN + HOOK);
    TextShape(f, rules, rest);
    StripConcat(TABLE, FamilyText(f) + ([' '] + (c + d)));
    FamilyReads(f);
    UpToConcat(FamilyText(f), ' ', c + d);
    StripConcat(c, d);
    ReadRuleLines(rules, Masquerade() + rest);
    StripConcat(Masquerade(), rest);
  }

  lemma TextShape(f: Family, rules: seq<NatRule>, rest: string)
    requires AllTyped(rules)
    ensures TableText(f, rules) + rest ==
      TABLE + (FamilyText(f) + ([' '] + (GUST + (CHAIN + HOOK) + (RuleLines(rules) + (CLOSE + (Masquerade() + rest))))))
  {
    hide RuleLines, FamilyText, Masquerade;
    Shape(TABLE, FamilyText(f), [' '], GUST + (CHAIN + HOOK), RuleLines(rules), CLOSE, Masquerade(), rest);
  }

  lemma Shape(a: string, b: string, c: string, d: string, e: string, f: string, g: string, h: string)
    ensures (a + (b + (c + d))) + (e + (f + g)) + h == a + (b + (c + (d + (e + (f + (g + h))))))
  {
    Assoc(a + (b + (c + d)), e + (f + g), h);
    Assoc(e, f + g, h);
    Assoc(f, g, h);
    Assoc(a, b + (c + d), e + (f + (g + h)));
    Assoc(b, c + d, e + (f + (g + h)));
    Assoc(c, d, e + (f + (g + h)));
  }

  predicate TablesFit(tables: seq<Table>) {
    forall i, j :: 0 <= i < |tables| && 0 <= j < |tables[i].rules| ==> tables[i].rules[j].Family() == tables[i].family
  }

  lemma {:induction false} ReadTables(tables: seq<Table>)
    requires TablesTyped(tables) && TablesQuotable(tables) && TablesFit(tables)
    ensures ReadRuleset(TablesText(tables)) == Some(tables)
  {
    hide TableText, ReadTable, AllTyped, AllQuotable;
    if tables != [] {
      var t := tables[0];
      ReadTableText(t.family, t.rules, TablesText(tables[1..]));
      TextNotEmpty(t);
      ReadTables(tables[1..]);
      assert tables == [t] + tables[1..];
    }
  }

  lemma TextNotEmpty(t: Table)
    requires AllTyped(t.rules)
    ensures TableText(t.family, t.rules) != ""
  {
    hide RuleLines, Masquerade;
    assert |TABLE| == 6;
  }

  /** Reading the emitted ruleset gives exactly the IPv4 rules in the `ip` table and the IPv6 rules in
      the `ip6` table, in order, with nothing lost, added or changed, and no table without rules,
      if and only if no comment holds a quote or a line feed. */
  lemma ReadBackIff(rules: seq<NatRule>)
    requires AllTyped(rules)
    ensures TablesTyped(TablesOf(rules))
    ensures ReadRuleset(TablesText(TablesOf(rules))) == Some(TablesOf(rules)) <==> AllQuotable(rules)
  {
    hide ReadRuleset, TablesText, TablesOf, Quotable;
    TablesOfTyped(rules);
    if AllQuotable(rules) {
      ReadTables(TablesOf(rules));
    } else if ReadRuleset(TablesText(TablesOf(rules))) == Some(TablesOf(rules)) {
      ReadIsQuotable(TablesText(TablesOf(rules)));
      AllRulesInTables(rules);
    }
  }

  lemma FreeOfParts(a: string, b: string, pat: string)
    requires Free(a + b, pat)
    ensures Free(a, pat) && Free(b, pat)
  {
    forall i | 0 <= i < |a| ensures a[i] !in pat {
      assert (a + b)[i] == a[i];
    }
    forall i | 0 <= i < |b| ensures b[i] !in pat {
      assert (a + b)[|a| + i] == b[i];
    }
  }

  lemma UpToFree(s: string, c: char)
    requires UpTo(s, c).Some?
    ensures Free(UpTo(s, c).value.0, [c])
    ensures Free(s, "\n") ==> Free(UpTo(s, c).value.0, "\n") && Free(UpTo(s, c).value.1, "\n")
  {
    var r := UpTo(s, c).value;
    if Free(s, "\n") {
      FreeOfParts(r.0, [c] + r.1, "\n");
      FreeOfParts([c], r.1, "\n");
    }
  }

  /** Whatever text is read as a rule, its comment has no quote and no line feed. */
  lemma ReadRuleQuotable(line: string)
    requires Free(line, "\n") && ReadRule(line).Some?
    ensures Quotable(ReadRule(line).value)
  {
    hide UpTo, Strip, Free, ReadDest, ProtocolOf, ParseUint;
    var a := Strip(line, INDENT).value;
    FreeOfParts(INDENT, a, "\n");
    UpToFree(a, ' ');
    var b := UpTo(a, ' ').value.1;
    var c := Strip(b, DPORT).value;
    FreeOfParts(DPORT, c, "\n");
    UpToFree(c, ' ');
    var d := UpTo(c, ' ').value.1;
    var e := Strip(d, COUNTER).value;
    FreeOfParts(COUNTER, e, "\n");
    UpToFree(e, '"');
    FreeBoth(UpTo(e, '"').value.0);
  }

  lemma FreeBoth(s: string)
    requires Free(s, ['"']) && Free(s, "\n")
    ensures Free(s, "\"\n")
  {
  }

  lemma {:induction false} ReadRulesQuotable(text: string)
    requires ReadRules(text).Some?
    ensures AllQuotable(ReadRules(text).value.0)
    decreases |text|
  {
    hide UpTo, Strip, ReadRule, Quotable;
    if Strip(text, CLOSE).None? {
      UpToFree(text, '\n');
      var a := UpTo(text, '\n').value;
      ReadRuleQuotable(a.0);
      ReadRulesQuotable(a.1);
    }
  }

  lemma ReadTableQuotable(text: string)
    requires ReadTable(text).Some?
    ensures AllQuotable(ReadTable(text).value.0.rules)
  {
    hide UpTo, Strip, ReadRules, AllQuotable, Masquerade, ReadFamily;
    var a := UpTo(Strip(text, TABLE).value, ' ').value.1;
    ReadRulesQuotable(Strip(a, GUST + (CHAIN + HOOK)).value);
  }

  lemma {:induction false} ReadIsQuotable(text: string)
    requires ReadRuleset(text).Some?
    ensures TablesQuotable(ReadRuleset(text).value)
    decreases |text|
  {
    hide ReadTable, AllQuotable;
    if text != "" {
      ReadTableQuotable(text);
      ReadIsQuotable(ReadTable(text).value.1);
    }
  }

  lemma {:induction false} OfContains(rules: seq<NatRule>, i: nat)
    requires i < |rules|
    ensures rules[i] in Of(rules, rules[i].Family())
    decreases i
  {
    if i > 0 {
      OfContains(rules[1..], i - 1);
    }
  }

  lemma AllRulesInTables(rules: seq<NatRule>)
    requires TablesQuotable(TablesOf(rules))
    ensures AllQuotable(rules)
  {
    hide Quotable, Of;
    var t := TablesOf(rules);
    forall i | 0 <= i < |rules| ensures Quotable(rules[i]) {
      OfContains(rules, i);
      var f := rules[i].Family();
      var k := if f.Inet4? || Of(rules, Inet4) == [] then 0 else 1;
      assert t[k] == Table(f, Of(rules, f));
      assert AllQuotable(t[k].rules);
    }
  }

  /** The two tables together hold each rule as often as it was given. */
  lemma {:induction false} NothingLost(rules: seq<NatRule>)
    ensures multiset(Of(rules, Inet4)) + multiset(Of(rules, Inet6)) == multiset(rules)
  {
    if rules != [] {
      NothingLost(rules[1..]);
      assert rules == [rules[0]] + rules[1..];
    }
  }

  // ----- what a packet meets -----

  predicate Matches(r: NatRule, proto: Protocol, dport: nat) {
    r.proto == proto && r.dport == dport
  }

  /** The kernel takes the first rule of a chain that matches. */
  function FirstMatch(rules: seq<NatRule>, proto: Protocol, dport: nat): Option<NatRule> {
    if rules == [] then None
    else if Matches(rules[0], proto, dport) then Some(rules[0])
    else FirstMatch(rules[1..], proto, dport)
  }

  /** Where a packet of a family goes under a set of tables. */
  function Dnat(tables: seq<Table>, f: Family, proto: Protocol, dport: nat): Option<NatRule> {
    if tables == [] then None
    else if tables[0].family == f then FirstMatch(tables[0].rules, proto, dport)
    else Dnat(tables[1..], f, proto, dport)
  }

  /** Rule `i` is the first of the input that applies to the packet. */
  predicate IsFirst(rules: seq<NatRule>, i: nat, f: Family, proto: Protocol, dport: nat)
    requires i < |rules|
  {
    && rules[i].Family() == f && Matches(rules[i], proto, dport)
    && forall j :: 0 <= j < i ==> !(rules[j].Family() == f && Matches(rules[j], proto, dport))
  }

  lemma {:induction false} FirstOfFamily(rules: seq<NatRule>, i: nat, f: Family, proto: Protocol, dport: nat)
    requires i < |rules| && IsFirst(rules, i, f, proto, dport)
    ensures FirstMatch(Of(rules, f), proto, dport) == Some(rules[i])
    decreases i
  {
    if i > 0 {
      assert IsFirst(rules[1..], i - 1, f, proto, dport);
      FirstOfFamily(rules[1..], i - 1, f, proto, dport);
      if rules[0].Family() == f {
        assert Of(rules, f)[1..] == Of(rules[1..], f);
      }
    }
  }

  lemma {:induction false} NoneOfFamily(rules: seq<NatRule>, proto: Protocol, dport: nat)
    requires forall j :: 0 <= j < |rules| ==> !Matches(rules[j], proto, dport)
    ensures FirstMatch(rules, proto, dport).None?
  {
    if rules != [] {
      NoneOfFamily(rules[1..], proto, dport);
    }
  }

  lemma DnatOfTables(rules: seq<NatRule>, f: Family, proto: Protocol, dport: nat)
    ensures Dnat(TablesOf(rules), f, proto, dport) == FirstMatch(Of(rules, f), proto, dport)
  {
    hide Of;
    var t := TablesOf(rules);
    if |t| == 2 {
      assert t[1..] == [Table(Inet6, Of(rules, Inet6))] && t[1..][1..] == [];
    } else if |t| == 1 {
      assert t[1..] == [];
    }
  }

  /** `hit` is the first rule of the family that matches the packet, if there is one. */
  ghost predicate IsFirstHit(rules: seq<NatRule>, f: Family, proto: Protocol, dport: nat, hit: Option<NatRule>) {
    && (forall i :: 0 <= i < |rules| && IsFirst(rules, i, f, proto, dport) ==> hit == Some(rules[i]))
    && (hit.None? <==> forall i :: 0 <= i < |rules| ==> !(rules[i].Family() == f && Matches(rules[i], proto, dport)))
  }

  lemma FirstMatchIsFirst(rules: seq<NatRule>, f: Family, proto: Protocol, dport: nat)
    ensures IsFirstHit(rules, f, proto, dport, FirstMatch(Of(rules, f), proto, dport))
  {
    hide Of, FirstMatch;
    forall i | 0 <= i < |rules| && IsFirst(rules, i, f, proto, dport)
      ensures FirstMatch(Of(rules, f), proto, dport) == Some(rules[i])
    {
      FirstOfFamily(rules, i, f, proto, dport);
    }
    if i :| 0 <= i < |rules| && rules[i].Family() == f && Matches(rules[i], proto, dport) {
      var k := Earliest(rules, i, f, proto, dport);
    } else {
      OfMembers(rules, f);
      NoneOfFamily(Of(rules, f), proto, dport);
    }
  }

  /** What the emitted text does to a packet: it is sent to the first rule of its family in the input
      that matches its protocol and port, repeated ports included, and left alone if there is none. */
  lemma PacketMeetsFirstRule(rules: seq<NatRule>, f: Family, proto: Protocol, dport: nat)
    requires AllTyped(rules) && AllQuotable(rules)
    ensures TablesTyped(TablesOf(rules))
    ensures var read := ReadRuleset(TablesText(TablesOf(rules)));
      read.Some? && IsFirstHit(rules, f, proto, dport, Dnat(read.value, f, proto, dport))
  {
    hide ReadRuleset, TablesText, TablesOf, Dnat, FirstMatch, Of, IsFirstHit;
    ReadBackIff(rules);
    DnatOfTables(rules, f, proto, dport);
    FirstMatchIsFirst(rules, f, proto, dport);
  }

  lemma {:induction false} Earliest(rules: seq<NatRule>, i: nat, f: Family, proto: Protocol, dport: nat) returns (k: nat)
    requires i < |rules| && rules[i].Family() == f && Matches(rules[i], proto, dport)
    ensures k <= i && IsFirst(rules, k, f, proto, dport)
  {
    if j :| 0 <= j < i && rules[j].Family() == f && Matches(rules[j], proto, dport) {
      k := Earliest(rules, j, f, proto, dport);
    } else {
      k := i;
    }
  }
}

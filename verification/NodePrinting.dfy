/** Printing node strings, and the proof that parsing undoes printing. */
module NodePrinting {
  import opened Common
  import opened Text
  import opened Node

  /** How a node is written down: which bytes stay unescaped, whether the host is bracketed, and in
      which order the query is listed. */
  datatype Spelling = Spelling(safe: char -> bool, bracketed: bool, pairs: seq<(string, string)>)

  // ----- printing -----

  function UserText(u: string, safe: char -> bool): string
    requires IsBytes(u)
  {
    Encode(u, c => safe(c) && c != ':')
  }

  /** `user@`, `user:pass@` or nothing. */
  function UserInfoText(n: Node, safe: char -> bool): Option<string>
    requires n.user.Some? ==> IsBytes(n.user.value)
    requires n.pass.Some? ==> IsBytes(n.pass.value)
  {
    if n.user.None? then None
    else if n.pass.None? then Some(UserText(n.user.value, safe))
    else Some(UserText(n.user.value, safe) + ":" + Encode(n.pass.value, safe))
  }

  function HostText(n: Node, bracketed: bool): string {
    (if bracketed then "[" + n.host + "]" else n.host)
    + PortText(n.port)
  }

  function AuthorityText(n: Node, sp: Spelling): string
    requires n.user.Some? ==> IsBytes(n.user.value)
    requires n.pass.Some? ==> IsBytes(n.pass.value)
  {
    var ui := UserInfoText(n, sp.safe);
    (if ui.None? then "" else ui.value + "@") + HostText(n, sp.bracketed)
  }

  function PairTexts(pairs: seq<(string, string)>): (t: seq<string>)
    ensures |t| == |pairs|
    ensures forall i :: 0 <= i < |t| ==> t[i] == pairs[i].0 + "=" + pairs[i].1
  {
    seq(|pairs|, i requires 0 <= i < |pairs| => pairs[i].0 + "=" + pairs[i].1)
  }

  function QueryText(pairs: seq<(string, string)>): string {
    if pairs == [] then "" else Join(PairTexts(pairs), '&')
  }

  function TailText(target: string, pairs: seq<(string, string)>): string {
    (if target == "" then "" else "/" + target) + (if pairs == [] then "" else "?" + QueryText(pairs))
  }

  function Print(n: Node, sp: Spelling): string
    requires n.user.Some? ==> IsBytes(n.user.value)
    requires n.pass.Some? ==> IsBytes(n.pass.value)
  {
    n.scheme + "://" + AuthorityText(n, sp) + TailText(n.target, sp.pairs)
  }

  // ----- well-formedness -----

  predicate SchemeChar(c: char) {
    'a' <= c <= 'z' || '0' <= c <= '9' || c == '+' || c == '-' || c == '.'
  }

  /** What a listing of pairs means: later pairs win. */
  function MapOf(pairs: seq<(string, string)>): map<string, string> {
    if pairs == [] then map[]
    else
      var (key, value) := pairs[|pairs| - 1];
      MapOf(pairs[..|pairs| - 1])[key := value]
  }

  ghost predicate DistinctKeys(pairs: seq<(string, string)>) {
    forall i, j :: 0 <= i < j < |pairs| ==> pairs[i].0 != pairs[j].0
  }

  /** With distinct keys every pair is in the map with its own value. */
  lemma {:induction false} MapOfDistinct(pairs: seq<(string, string)>, i: nat)
    requires DistinctKeys(pairs) && i < |pairs|
    ensures pairs[i].0 in MapOf(pairs) && MapOf(pairs)[pairs[i].0] == pairs[i].1
    decreases |pairs|
  {
    var k := |pairs| - 1;
    if i < k {
      MapOfDistinct(pairs[..k], i);
    }
  }

  predicate WellFormedHost(n: Node, bracketed: bool) {
    && Free(n.host, "/?@")
    && (if bracketed then ']' !in n.host
        else (n.host != "" ==> n.host[0] != '[') && (n.port.None? ==> ':' !in n.host))
    && (n.port.Some? ==> n.port.value <= U16_MAX)
  }

  ghost predicate WellFormed(n: Node, sp: Spelling) {
    && n.scheme != "" && (forall i :: 0 <= i < |n.scheme| ==> SchemeChar(n.scheme[i]))
    && (n.user.Some? ==> IsBytes(n.user.value))
    && (n.pass.Some? ==> n.user.Some? && IsBytes(n.pass.value))
    && !sp.safe('%') && !sp.safe('/') && !sp.safe('?')
    && WellFormedHost(n, sp.bracketed)
    && Free(n.target, "?")
    && (n.target != "" ==> n.target[0] != '/' && n.target[|n.target| - 1] != '/')
    && (forall i :: 0 <= i < |sp.pairs| ==> Free(sp.pairs[i].0, "=&") && Free(sp.pairs[i].1, "&"))
    && n.query == MapOf(sp.pairs)
  }

  // ----- each piece parses back -----

  function PortText(port: Option<nat>): string {
    if port.None? then "" else ":" + Decimal(port.value)
  }

  lemma BracketedHostParses(host: string, port: Option<nat>)
    requires ']' !in host && (port.Some? ==> port.value <= U16_MAX)
    ensures ParseHostPort("[" + host + "]" + PortText(port)) == Ok((host, port))
  {
    var after := PortText(port);
    var hp := "[" + host + "]" + after;
    assert hp[1..] == host + [']'] + after;
    FindSplits(host, ']', after, "]");
    if port.Some? {
      DecimalParses(port.value, U16_MAX);
      assert after[1..] == Decimal(port.value);
    }
  }

  lemma PlainHostParses(host: string, port: Option<nat>)
    requires (host != "" ==> host[0] != '[') && (port.None? ==> ':' !in host)
    requires port.Some? ==> port.value <= U16_MAX
    ensures ParseHostPort(host + PortText(port)) == Ok((host, port))
  {
    hide Decimal, ParseUint, RFind;
    if port.Some? {
      var t := Decimal(port.value);
      DecimalParses(port.value, U16_MAX);
      DecimalFree(port.value, ":");
      assert host + PortText(port) == host + [':'] + t;
      RFindSplits(host, ':', t, ":");
      StartsAlike(host, t);
    } else {
      assert host + PortText(port) == host;
      assert Free(host, ":");
    }
  }

  lemma StartsAlike(host: string, t: string)
    requires host != "" ==> host[0] != '['
    ensures (host + [':'] + t)[0] != '['
  {
  }

  lemma HostParses(n: Node, bracketed: bool)
    requires WellFormedHost(n, bracketed)
    ensures ParseHostPort(HostText(n, bracketed)) == Ok((n.host, n.port))
  {
    if bracketed {
      BracketedHostParses(n.host, n.port);
    } else {
      PlainHostParses(n.host, n.port);
    }
  }

  lemma HostTextFree(n: Node, bracketed: bool)
    requires WellFormedHost(n, bracketed)
    ensures Free(HostText(n, bracketed), "/?@")
  {
    var h := if bracketed then "[" + n.host + "]" else n.host;
    if bracketed {
      FreeConcat("[", n.host, "/?@");
      FreeConcat("[" + n.host, "]", "/?@");
    }
    if n.port.Some? {
      DecimalFree(n.port.value, "/?@");
      FreeConcat(":", Decimal(n.port.value), "/?@");
    }
    FreeConcat(h, PortText(n.port), "/?@");
  }

  lemma CredentialsParse(n: Node, sp: Spelling)
    requires WellFormed(n, sp)
    ensures Credentials(UserInfoText(n, sp.safe)) == (n.user, n.pass)
    ensures n.user.Some? ==> Free(UserInfoText(n, sp.safe).value, "/?")
  {
    hide Decode, Encode, Find;
    if n.user.Some? {
      var userSafe := c => sp.safe(c) && c != ':';
      var u := UserText(n.user.value, sp.safe);
      DecodeEncode(n.user.value, userSafe);
      EncodeFree(n.user.value, userSafe, "/?:");
      if n.pass.Some? {
        var p := Encode(n.pass.value, sp.safe);
        DecodeEncode(n.pass.value, sp.safe);
        EncodeFree(n.pass.value, sp.safe, "/?");
        assert u + ":" + p == u + [':'] + p;
        FindSplits(u, ':', p, ":");
      }
    }
  }

  lemma AuthoritySplits(ui: Option<string>, host: string)
    requires Free(host, "@")
    ensures SplitAuthority((if ui.None? then "" else ui.value + "@") + host) == (ui, host)
  {
    if ui.Some? {
      assert ui.value + "@" + host == ui.value + ['@'] + host;
      RFindSplits(ui.value, '@', host, "@");
    } else {
      assert "" + host == host;
    }
  }

  lemma AuthorityParses(n: Node, sp: Spelling)
    requires WellFormed(n, sp)
    ensures SplitAuthority(AuthorityText(n, sp)) == (UserInfoText(n, sp.safe), HostText(n, sp.bracketed))
    ensures Free(AuthorityText(n, sp), "/?")
  {
    var host := HostText(n, sp.bracketed);
    HostTextFree(n, sp.bracketed);
    AuthoritySplits(UserInfoText(n, sp.safe), host);
    CredentialsParse(n, sp);
    assert Free(host, "/?");
    if n.user.Some? {
      var ui := UserInfoText(n, sp.safe).value;
      FreeConcat(ui, "@", "/?");
      FreeConcat(ui + "@", host, "/?");
    } else {
      assert "" + host == host;
    }
  }

  lemma TailParses(target: string, pairs: seq<(string, string)>)
    requires Free(target, "?")
    ensures SplitRemainder(TailText(target, pairs)) == (target, QueryText(pairs))
    ensures TailText(target, pairs) != "" ==> TailText(target, pairs)[0] in "/?"
  {
    var q := QueryText(pairs);
    var rem := TailText(target, pairs);
    if target == "" && pairs != [] {
      assert rem == "?" + q;
    } else if target != "" && pairs == [] {
      assert rem == "/" + target && Free(rem, "?");
    } else if target != "" {
      assert rem == ("/" + target) + ['?'] + q;
      FindSplits("/" + target, '?', q, "?");
    }
  }

  lemma PairParses(key: string, value: string)
    requires Free(key, "=&") && Free(value, "&")
    ensures Pair(key + "=" + value) == (key, value)
    ensures '&' !in key + "=" + value
  {
    assert key + "=" + value == key + ['='] + value;
    FindSplits(key, '=', value, "=");
  }

  lemma {:induction false} QueryMapOfPairs(pairs: seq<(string, string)>)
    requires forall i :: 0 <= i < |pairs| ==> Free(pairs[i].0, "=&") && Free(pairs[i].1, "&")
    ensures QueryMap(PairTexts(pairs)) == MapOf(pairs)
    decreases |pairs|
  {
    hide Pair;
    if pairs != [] {
      var k := |pairs| - 1;
      assert PairTexts(pairs)[..k] == PairTexts(pairs[..k]);
      QueryMapOfPairs(pairs[..k]);
      PairParses(pairs[k].0, pairs[k].1);
    }
  }

  lemma QueryParses(pairs: seq<(string, string)>)
    requires forall i :: 0 <= i < |pairs| ==> Free(pairs[i].0, "=&") && Free(pairs[i].1, "&")
    ensures QueryMap(Split(QueryText(pairs), '&')) == MapOf(pairs)
  {
    if pairs == [] {
      assert Split("", '&') == [""];
      assert [""][..0] == [];
    } else {
      QueryMapOfPairs(pairs);
      forall i | 0 <= i < |pairs| ensures '&' !in PairTexts(pairs)[i] {
        PairParses(pairs[i].0, pairs[i].1);
      }
      SplitJoin(PairTexts(pairs), '&');
    }
  }

  lemma {:induction false} SchemeFound(scheme: string, rest: string)
    requires forall i :: 0 <= i < |scheme| ==> SchemeChar(scheme[i])
    ensures FindScheme(scheme + "://" + rest) == Some(|scheme|)
  {
    var s := scheme + "://" + rest;
    if scheme == "" {
      assert s[..3] == "://";
    } else {
      assert s[..3][0] == scheme[0];
      assert s[1..] == scheme[1..] + "://" + rest;
      SchemeFound(scheme[1..], rest);
    }
  }

  lemma {:induction false} LowerScheme(scheme: string)
    requires forall i :: 0 <= i < |scheme| ==> SchemeChar(scheme[i])
    ensures Lower(scheme) == scheme
  {
  }

  lemma EndOfAuthority(a: string, t: string)
    requires Free(a, "/?") && (t != "" ==> t[0] in "/?")
    ensures AuthorityEnd(a + t) == |a| && (a + t)[..|a|] == a && (a + t)[|a|..] == t
  {
    if t == "" {
      assert a + t == a;
    } else {
      assert a + t == a + [t[0]] + t[1..];
      FindSplits(a, t[0], t[1..], "/?");
    }
  }

  lemma PartsParse(n: Node, sp: Spelling)
    requires WellFormed(n, sp)
    ensures ParseParts(n.scheme, AuthorityText(n, sp), TailText(n.target, sp.pairs)) == Ok(n)
  {
    AuthorityParses(n, sp);
    TailParses(n.target, sp.pairs);
    CredentialsParse(n, sp);
    HostParses(n, sp.bracketed);
    QueryParses(sp.pairs);
    assert TrimChar(n.target, '/') == n.target;
  }

  /** Parsing undoes printing: every component comes back, for every choice of unescaped bytes (raw
      `@` in user or password included), bracketed or plain host, and listing of the query. The one
      demand on the whole text is that it does not end in white space, which `parse_node` trims. */
  lemma ParsePrint(n: Node, sp: Spelling)
    requires WellFormed(n, sp)
    requires SpaceAtEnd(Print(n, sp)) == 0
    ensures ParseNode(Print(n, sp)) == Ok(n)
  {
    hide ParseParts, AuthorityText, TailText, Trim, FindScheme, AuthorityEnd, Lower, SpaceAtEnd, SplitRemainder, QueryText;
    var a, t := AuthorityText(n, sp), TailText(n.target, sp.pairs);
    var s := n.scheme + "://" + (a + t);
    assert s == Print(n, sp);
    UntrimmedPrint(n.scheme, s);
    SchemeFound(n.scheme, a + t);
    LowerScheme(n.scheme);
    assert s[..|n.scheme|] == n.scheme && s[|n.scheme| + 3..] == a + t;
    AuthorityParses(n, sp);
    TailParses(n.target, sp.pairs);
    EndOfAuthority(a, t);
    PartsParse(n, sp);
  }

  lemma UntrimmedPrint(scheme: string, s: string)
    requires scheme != "" && SchemeChar(scheme[0]) && scheme <= s && SpaceAtEnd(s) == 0
    ensures Trim(s) == s
  {
    NoSpaceAtStart(s);
    assert TrimStart(s) == s;
  }

  lemma NoSpaceAtStart(s: string)
    requires s != "" && SchemeChar(s[0])
    ensures SpaceAtStart(s) == 0
  {
    assert 43 <= s[0] as int < 128;
  }
}

/** The program's two `host:port` splitters and the texts they accept. */
module HostPort {
  import opened Common
  import opened Text

  // ----- netopt::split_host_port -----

  /** `split_host_port`: brackets are stripped, the host must not be empty. */
  function SplitHostPort(s: string): (r: Option<(string, nat)>)
    ensures r.Some? ==> r.value.0 != "" && r.value.1 <= U16_MAX
  {
    if s != "" && s[0] == '[' then
      var rest := s[1..];
      match Find(rest, "]")
      case None => None
      case Some(close) =>
        var after := rest[close + 1..];
        if after != "" && after[0] == ':' then WithPort(rest[..close], after[1..]) else None
    else
      match RFind(s, ":")
      case None => None
      case Some(c) => WithPort(s[..c], s[c + 1..])
  }

  function WithPort(host: string, portText: string): (r: Option<(string, nat)>)
    ensures r.Some? ==> r.value.0 != "" && r.value.1 <= U16_MAX
  {
    match ParseUint(portText, U16_MAX)
    case None => None
    case Some(p) => if host == "" then None else Some((host, p))
  }

  // ----- config::validate_hostport -----

  datatype HostPortError =
    | UnterminatedBracket | NoPortAfterBracket | NoPort | NoHost | BadPort(text: string)

  /** `validate_hostport`: a separate scanner with its own order of checks. */
  function ValidateHostPort(s: string): Result<(), HostPortError> {
    if s != "" && s[0] == '[' then
      var rest := s[1..];
      match Find(rest, "]")
      case None => Err(UnterminatedBracket)
      case Some(close) =>
        var after := rest[close + 1..];
        if after == "" || after[0] != ':' then Err(NoPortAfterBracket)
        else CheckParts(rest[..close], after[1..])
    else
      match RFind(s, ":")
      case None => Err(NoPort)
      case Some(c) => CheckParts(s[..c], s[c + 1..])
  }

  function CheckParts(host: string, portText: string): Result<(), HostPortError> {
    if host == "" then Err(NoHost)
    else if ParseUint(portText, U16_MAX).None? then Err(BadPort(portText))
    else Ok(())
  }

  // ----- what both accept -----

  /** `s` spells host `h` and port text `t`, with or without brackets. */
  ghost predicate Spells(s: string, h: string, t: string) {
    || (s == "[" + h + "]:" + t && ']' !in h)
    || (s == h + ":" + t && (h == "" || h[0] != '['))
  }

  /** A port text never contains the separator. */
  lemma PortTextFree(t: string)
    requires ParseUint(t, U16_MAX).Some?
    ensures Free(t, ":")
  {
    if t[0] == '+' {
      assert forall i :: 1 <= i < |t| ==> t[i] == t[1..][i - 1];
    }
  }

  /** Splitting succeeds exactly on the spellings of a non-empty host and a 16-bit port, and gives
      back that host and port. */
  lemma SplitIff(s: string, h: string, p: nat)
    ensures SplitHostPort(s) == Some((h, p))
       <==> h != "" && exists t :: Spells(s, h, t) && ParseUint(t, U16_MAX) == Some(p)
  {
    if SplitHostPort(s) == Some((h, p)) {
      var t := SplitSound(s, h, p);
    }
    if h != "" && exists t :: Spells(s, h, t) && ParseUint(t, U16_MAX) == Some(p) {
      var t :| Spells(s, h, t) && ParseUint(t, U16_MAX) == Some(p);
      SplitComplete(s, h, p, t);
    }
  }

  lemma SplitSound(s: string, h: string, p: nat) returns (t: string)
    requires SplitHostPort(s) == Some((h, p))
    ensures h != "" && Spells(s, h, t) && ParseUint(t, U16_MAX) == Some(p)
  {
    hide Find, RFind, ParseUint;
    if s[0] == '[' {
      t := s[1..][Find(s[1..], "]").value + 1..][1..];
      BracketedSpelling(s);
    } else {
      var c := RFind(s, ":").value;
      t := s[c + 1..];
      assert s == s[..c] + [s[c]] + t;
    }
  }

  lemma BracketedSpelling(s: string)
    requires s != "" && s[0] == '[' && Find(s[1..], "]").Some?
    requires var after := s[1..][Find(s[1..], "]").value + 1..]; after != "" && after[0] == ':'
    ensures var close := Find(s[1..], "]").value;
      s == "[" + s[1..][..close] + "]:" + s[1..][close + 1..][1..] && ']' !in s[1..][..close]
  {
    hide Find;
    var rest := s[1..];
    var close := Find(rest, "]").value;
    assert rest == rest[..close] + [rest[close]] + rest[close + 1..];
    assert rest[close + 1..] == [rest[close + 1]] + rest[close + 1..][1..];
  }

  lemma SplitComplete(s: string, h: string, p: nat, t: string)
    requires h != "" && Spells(s, h, t) && ParseUint(t, U16_MAX) == Some(p)
    ensures SplitHostPort(s) == Some((h, p))
  {
    hide Find, RFind, ParseUint;
    if s == "[" + h + "]:" + t && ']' !in h {
      var rest := s[1..];
      assert rest == h + [']'] + (":" + t);
      FindSplits(h, ']', ":" + t, "]");
      assert (":" + t)[1..] == t;
    } else {
      PortTextFree(t);
      assert s == h + [':'] + t;
      RFindSplits(h, ':', t, ":");
    }
  }

  /** The validator used at start-up accepts exactly what the dialer's splitter accepts. */
  lemma SplittersAgree(s: string)
    ensures ValidateHostPort(s).Ok? <==> SplitHostPort(s).Some?
  {
  }

  // ----- stored addresses -----

  /** `Node::authority` and `Node::bind_string` both print `host:port` without brackets. */
  function HostColonPort(host: string, port: nat): string {
    host + ":" + Decimal(port)
  }

  /** A stored address whose host does not open a bracket splits back into the same parts. */
  lemma StoredAddressSplits(host: string, port: nat)
    requires port <= U16_MAX && host != "" && host[0] != '['
    ensures SplitHostPort(HostColonPort(host, port)) == Some((host, port))
  {
    DecimalParses(port, U16_MAX);
    SplitComplete(HostColonPort(host, port), host, port, Decimal(port));
  }

  /** Without a closing bracket, a host that opens one makes the stored address unusable. */
  lemma OpenBracketRejected(host: string, port: nat)
    requires host == "" || (host[0] == '[' && ']' !in host)
    ensures SplitHostPort(HostColonPort(host, port)).None?
  {
    var s := HostColonPort(host, port);
    DecimalFree(port, ":]");
    if host != "" {
      assert Free(s[1..], "]");
    } else {
      assert s == "" + [':'] + Decimal(port);
      RFindSplits("", ':', Decimal(port), ":");
    }
  }
}

/** Node strings: `scheme://[user:pass@]host:port[/target][?query]`. */
module Node {
  import opened Common
  import opened Text
  import opened HostPort

  datatype Node = Node(
    scheme: string,
    user: Option<string>,
    pass: Option<string>,
    host: string,
    port: Option<nat>,
    target: string,
    query: map<string, string>)
  {
    /** `Node::authority`. */
    function Authority(): Option<string> {
      if port.None? then None else Some(HostColonPort(host, port.value))
    }

    /** `Node::bind_string`: an empty host binds every interface. */
    function BindString(): Option<string> {
      if port.None? then None
      else Some(HostColonPort(if host == "" then "0.0.0.0" else host, port.value))
    }

    /** `Node::targets`. */
    function Targets(): seq<string> {
      NonEmptyTrimmed(Split(target, ','))
    }
  }

  function NonEmptyTrimmed(parts: seq<string>): (r: seq<string>)
    ensures forall t :: t in r ==> t != ""
  {
    if parts == [] then []
    else (if Trim(parts[0]) == "" then [] else [Trim(parts[0])]) + NonEmptyTrimmed(parts[1..])
  }

  datatype NodeError =
    | EmptyText | NoScheme | EmptyScheme | OpenBracket | JunkAfterBracket(after: string) | BadPortText(text: string)

  // ----- percent decoding -----

  /** `char::to_digit(16)`. */
  function HexDigit(c: char): (r: Option<nat>)
    ensures r.Some? ==> r.value < 16
  {
    if '0' <= c <= '9' then Some(c as int - '0' as int)
    else if 'a' <= c <= 'f' then Some(c as int - 'a' as int + 10)
    else if 'A' <= c <= 'F' then Some(c as int - 'A' as int + 10)
    else None
  }

  const LOWER_HEX := "0123456789abcdef"
  const UPPER_HEX := "0123456789ABCDEF"

  /** Hex digits in either case and nothing else. */
  lemma HexDigitIff(c: char, d: nat)
    ensures HexDigit(c) == Some(d) <==> d < 16 && (c == LOWER_HEX[d] || c == UPPER_HEX[d])
  {
    if d < 10 {
      assert LOWER_HEX[d] as int == '0' as int + d && UPPER_HEX[d] as int == '0' as int + d;
    } else if d < 16 {
      assert LOWER_HEX[d] as int == 'a' as int + d - 10 && UPPER_HEX[d] as int == 'A' as int + d - 10;
    }
  }

  /** Whether `s` starts with a complete escape. */
  predicate StartsWithEscape(s: string) {
    |s| > 2 && s[0] == '%' && HexDigit(s[1]).Some? && HexDigit(s[2]).Some?
  }

  function EscapedByte(s: string): char
    requires StartsWithEscape(s)
  {
    (HexDigit(s[1]).value * 16 + HexDigit(s[2]).value) as char
  }

  /** What decoding means: complete escapes become bytes, everything else is kept. */
  function Decode(s: string): string {
    if s == "" then ""
    else if StartsWithEscape(s) then [EscapedByte(s)] + Decode(s[3..])
    else [s[0]] + Decode(s[1..])
  }

  lemma {:induction false} DecodePlain(s: string)
    requires '%' !in s
    ensures Decode(s) == s
  {
    if s != "" {
      DecodePlain(s[1..]);
    }
  }

  /** Decoding from position `i`. */
  lemma DecodeStep(s: string, i: nat)
    requires i < |s|
    ensures Decode(s[i..]) ==
      if s[i] == '%' && i + 2 < |s| && HexDigit(s[i + 1]).Some? && HexDigit(s[i + 2]).Some?
      then [(HexDigit(s[i + 1]).value * 16 + HexDigit(s[i + 2]).value) as char] + Decode(s[i + 3..])
      else [s[i]] + Decode(s[i + 1..])
  {
    hide HexDigit;
    assert s[i..][1..] == s[i + 1..];
    if i + 2 < |s| {
      assert s[i..][3..] == s[i + 3..];
    }
  }

  /** A text too short for an escape stands for itself. */
  lemma ShortDecodes(s: string)
    requires |s| < 3
    ensures Decode(s) == s
  {
    hide HexDigit;
    if |s| == 2 {
      assert Decode(s) == [s[0]] + Decode(s[1..]) && Decode(s[1..]) == [s[1]] + Decode(s[1..][1..]);
    } else if |s| == 1 {
      assert Decode(s) == [s[0]] + Decode(s[1..]);
    }
  }

  /** An escape in digits of either case stands for the byte of that value; a percent sign that begins
      none stands for itself. */
  lemma EscapeDecodes(h: char, l: char, rest: string)
    ensures Decode(['%', h, l] + rest) ==
      if HexDigit(h).Some? && HexDigit(l).Some?
      then [(16 * HexDigit(h).value + HexDigit(l).value) as char] + Decode(rest)
      else ['%'] + Decode([h, l] + rest)
  {
    hide HexDigit;
    var s := ['%', h, l] + rest;
    assert s[3..] == rest && s[1..] == [h, l] + rest;
  }

  /** `decode`: the shortcut for texts without `%`, then an index loop. */
  method DecodeText(s: string) returns (out: string)
    ensures out == Decode(s)
  {
    if '%' !in s {
      DecodePlain(s);
      return s;
    }
    hide Decode, HexDigit;
    out := "";
    var i := 0;
    assert s[0..] == s && s[|s|..] == "";
    assert Decode("") == "" by {
      DecodePlain("");
    }
    while i < |s|
      invariant 0 <= i <= |s|
      invariant Decode(s) == out + Decode(s[i..])
    {
      if s[i] == '%' && i + 2 < |s| {
        var hi := HexDigit(s[i + 1]);
        var lo := HexDigit(s[i + 2]);
        if hi.Some? && lo.Some? {
          DecodeStep(s, i);
          Assoc(out, [(hi.value * 16 + lo.value) as char], Decode(s[i + 3..]));
          out := out + [(hi.value * 16 + lo.value) as char];
          i := i + 3;
          continue;
        }
      }
      DecodeStep(s, i);
      Assoc(out, [s[i]], Decode(s[i + 1..]));
      out := out + [s[i]];
      i := i + 1;
    }
  }

  /** Percent-encoding of every byte outside `safe`. */
  function Encode(s: string, safe: char -> bool): string
    requires IsBytes(s)
  {
    if s == "" then ""
    else (if safe(s[0]) then [s[0]] else Escape(s[0])) + Encode(s[1..], safe)
  }

  function Escape(c: char): (e: string)
    requires c as int < 256
    ensures StartsWithEscape(e) && |e| == 3 && EscapedByte(e) == c
  {
    ['%', Hex(c as int / 16), Hex(c as int % 16)]
  }

  function Hex(d: nat): (c: char)
    requires d < 16
    ensures HexDigit(c) == Some(d)
  {
    if d < 10 then ('0' as int + d) as char else ('A' as int + d - 10) as char
  }

  /** Decoding undoes encoding, whatever is left unescaped, as long as `%` itself is escaped. */
  lemma {:induction false} DecodeEncode(s: string, safe: char -> bool)
    requires IsBytes(s) && !safe('%')
    ensures Decode(Encode(s, safe)) == s
  {
    if s != "" {
      DecodeEncode(s[1..], safe);
      var tail := Encode(s[1..], safe);
      if safe(s[0]) {
        assert ([s[0]] + tail)[1..] == tail;
      } else {
        var e := Escape(s[0]);
        assert StartsWithEscape(e + tail) && (e + tail)[3..] == tail;
        assert EscapedByte(e + tail) == s[0];
      }
    }
  }

  /** Encoding leaves none of the escaped characters behind. */
  lemma {:induction false} EncodeFree(s: string, safe: char -> bool, pat: string)
    requires IsBytes(s)
    requires forall c :: c in pat ==> !safe(c) && c != '%' && HexDigit(c).None?
    ensures Free(Encode(s, safe), pat)
  {
    if s != "" {
      EncodeFree(s[1..], safe, pat);
      assert Free(if safe(s[0]) then [s[0]] else Escape(s[0]), pat);
    }
  }

  // ----- the query -----

  /** One `key=value` or bare `key`. */
  function Pair(text: string): (string, string) {
    match Find(text, "=")
    case None => (text, "")
    case Some(eq) => (text[..eq], text[eq + 1..])
  }

  /** Later pairs win; empty pieces are skipped. */
  function QueryMap(pieces: seq<string>): map<string, string> {
    if pieces == [] then map[]
    else
      var m := QueryMap(pieces[..|pieces| - 1]);
      var last := pieces[|pieces| - 1];
      if last == "" then m else m[Pair(last).0 := Pair(last).1]
  }

  /** The query loop of `parse_node`. */
  method ParseQuery(text: string) returns (query: map<string, string>)
    ensures query == QueryMap(Split(text, '&'))
  {
    query := map[];
    var pieces := Split(text, '&');
    for i := 0 to |pieces|
      invariant query == QueryMap(pieces[..i])
    {
      assert pieces[..i + 1][..i] == pieces[..i];
      if pieces[i] != "" {
        match Find(pieces[i], "=") {
          case Some(eq) =>
            query := query[pieces[i][..eq] := pieces[i][eq + 1..]];
          case None =>
            query := query[pieces[i] := ""];
        }
      }
    }
    assert pieces[..|pieces|] == pieces;
  }

  // ----- parsing -----

  /** The first `://`. */
  function FindScheme(s: string): (r: Option<nat>)
    ensures r.Some? ==> r.value + 3 <= |s| && s[r.value..r.value + 3] == "://"
  {
    if |s| < 3 then None
    else if s[..3] == "://" then Some(0)
    else
      match FindScheme(s[1..])
      case None => None
      case Some(k) =>
        assert s[k + 1..k + 4] == s[1..][k..k + 3];
        Some(k + 1)
  }

  /** Path and query text of what follows the authority. */
  function SplitRemainder(rem: string): (string, string) {
    if rem != "" && rem[0] == '?' then ("", rem[1..])
    else if rem != "" && rem[0] == '/' then
      match Find(rem, "?")
      case Some(q) => (rem[1..q], rem[q + 1..])
      case None => (rem[1..], "")
    else ("", "")
  }

  /** Userinfo is everything before the last `@`. */
  function SplitAuthority(authority: string): (Option<string>, string) {
    match RFind(authority, "@")
    case Some(at) => (Some(authority[..at]), authority[at + 1..])
    case None => (None, authority)
  }

  /** User and password: split at the first `:`, then decoded. */
  function Credentials(userinfo: Option<string>): (Option<string>, Option<string>) {
    match userinfo
    case None => (None, None)
    case Some(ui) =>
      match Find(ui, ":")
      case Some(c) => (Some(Decode(ui[..c])), Some(Decode(ui[c + 1..])))
      case None => (Some(Decode(ui)), None)
  }

  function ParsePort(text: string): Result<Option<nat>, NodeError> {
    match ParseUint(text, U16_MAX)
    case None => Err(BadPortText(text))
    case Some(p) => Ok(Some(p))
  }

  /** `parse_host_port`: the port is optional, a bracketed host may contain colons. */
  function ParseHostPort(hp: string): Result<(string, Option<nat>), NodeError> {
    if hp == "" then Ok(("", None))
    else if hp[0] == '[' then
      var stripped := hp[1..];
      match Find(stripped, "]")
      case None => Err(OpenBracket)
      case Some(close) =>
        var after := stripped[close + 1..];
        if after == "" then Ok((stripped[..close], None))
        else if after[0] == ':' then HostWithPort(stripped[..close], after[1..])
        else Err(JunkAfterBracket(after))
    else
      match RFind(hp, ":")
      case None => Ok((hp, None))
      case Some(c) => HostWithPort(hp[..c], hp[c + 1..])
  }

  function HostWithPort(host: string, text: string): Result<(string, Option<nat>), NodeError> {
    match ParsePort(text)
    case Err(e) => Err(e)
    case Ok(p) => Ok((host, p))
  }

  /** `parse_node`. */
  function ParseNode(text: string): (r: Result<Node, NodeError>)
    ensures r.Ok? && r.value.port.Some? ==> r.value.port.value <= U16_MAX
  {
    var s := Trim(text);
    if s == "" then Err(EmptyText)
    else
      match FindScheme(s)
      case None => Err(NoScheme)
      case Some(k) => if k == 0 then Err(EmptyScheme) else ParseAfterScheme(Lower(s[..k]), s[k + 3..])
  }

  /** Where the authority ends: the first `/` or `?`, or the end. */
  function AuthorityEnd(rest: string): (n: nat)
    ensures n <= |rest|
  {
    match Find(rest, "/?") case Some(k) => k case None => |rest|
  }

  function ParseAfterScheme(scheme: string, rest: string): (r: Result<Node, NodeError>)
    ensures r.Ok? && r.value.port.Some? ==> r.value.port.value <= U16_MAX
  {
    var n := AuthorityEnd(rest);
    ParseParts(scheme, rest[..n], rest[n..])
  }

  function ParseParts(scheme: string, authority: string, rem: string): (r: Result<Node, NodeError>)
    ensures r.Ok? && r.value.port.Some? ==> r.value.port.value <= U16_MAX
  {
    var (path, queryText) := SplitRemainder(rem);
    var (userinfo, hostport) := SplitAuthority(authority);
    var (user, pass) := Credentials(userinfo);
    match ParseHostPort(hostport)
    case Err(e) => Err(e)
    case Ok((host, port)) =>
      Ok(Node(scheme, user, pass, host, port, TrimChar(path, '/'), QueryMap(Split(queryText, '&'))))
  }

  /** `parse_node` with its loops run. */
  method ReadNode(text: string) returns (r: Result<Node, NodeError>)
    ensures r == ParseNode(text)
  {
    var s := Trim(text);
    if s == "" {
      return Err(EmptyText);
    }
    var k := FindScheme(s);
    if k.None? {
      return Err(NoScheme);
    }
    if k.value == 0 {
      return Err(EmptyScheme);
    }
    var scheme := Lower(s[..k.value]);
    var rest := s[k.value + 3..];
    var n := AuthorityEnd(rest);
    var (path, queryText) := SplitRemainder(rest[n..]);
    var (userinfo, hostport) := SplitAuthority(rest[..n]);
    var user: Option<string>, pass: Option<string> := None, None;
    if userinfo.Some? {
      var ui := userinfo.value;
      var c := Find(ui, ":");
      if c.Some? {
        var u := DecodeText(ui[..c.value]);
        var p := DecodeText(ui[c.value + 1..]);
        user, pass := Some(u), Some(p);
      } else {
        var u := DecodeText(ui);
        user := Some(u);
      }
    }
    var hp := ParseHostPort(hostport);
    if hp.Err? {
      return Err(hp.error);
    }
    var query := ParseQuery(queryText);
    r := Ok(Node(scheme, user, pass, hp.value.0, hp.value.1, TrimChar(path, '/'), query));
  }

  // ----- what is accepted -----

  predicate MarkAt(s: string, j: nat) {
    j + 3 <= |s| && s[j] == ':' && s[j + 1] == '/' && s[j + 2] == '/'
  }

  /** The scheme ends at the first `://` of the text. */
  lemma {:induction false} FirstMark(s: string)
    ensures var r := FindScheme(s);
      && (r.None? ==> forall j :: !MarkAt(s, j))
      && (r.Some? ==> MarkAt(s, r.value) && forall j :: 0 <= j < r.value ==> !MarkAt(s, j))
    decreases |s|
  {
    if |s| >= 3 {
      MarkHere(s);
      if s[..3] != "://" {
        FirstMark(s[1..]);
        forall j: nat | j > 0 ensures MarkAt(s, j) == MarkAt(s[1..], j - 1) {
        }
      }
    }
  }

  lemma MarkHere(s: string)
    requires |s| >= 3
    ensures MarkAt(s, 0) <==> s[..3] == "://"
  {
    assert s[..3] == [s[0], s[1], s[2]];
  }

  /** A text without `://`, or with nothing before it, is refused, and an accepted one has as its scheme
      what stands before the first one, in lower case. */
  lemma SchemeDecides(text: string)
    ensures var s := Trim(text);
      && ((forall j :: !MarkAt(s, j)) || MarkAt(s, 0) ==> ParseNode(text).Err?)
      && (ParseNode(text).Ok? ==>
            exists k :: 0 < k && MarkAt(s, k) && (forall j :: 0 <= j < k ==> !MarkAt(s, j)) && ParseNode(text).value.scheme == Lower(s[..k]))
  {
    hide Trim, Lower, Credentials, SplitAuthority, ParseHostPort, QueryMap, Split, MarkAt;
    FirstMark(Trim(text));
  }

  /** `hp` spells host `h` and port `p`: nothing, a bracketed or a plain host, with or without a port. */
  ghost predicate SpellsEnd(hp: string, h: string, p: Option<nat>) {
    if p.None? then
      || (hp == h && (h == "" || (h[0] != '[' && ':' !in h)))
      || (hp == "[" + h + "]" && ']' !in h)
    else
      exists t :: Spells(hp, h, t) && ParseUint(t, U16_MAX) == p
  }

  /** `parse_host_port` accepts exactly the spellings of a host and an optional 16-bit port, and gives back
      that host and port. */
  lemma HostPortIff(hp: string, h: string, p: Option<nat>)
    ensures ParseHostPort(hp) == Ok((h, p)) <==> SpellsEnd(hp, h, p)
  {
    hide Find, RFind, ParseUint;
    if ParseHostPort(hp) == Ok((h, p)) {
      AcceptedSpells(hp, h, p);
    }
    if SpellsEnd(hp, h, p) {
      if p.None? {
        BareSpells(hp, h);
      } else {
        var t :| Spells(hp, h, t) && ParseUint(t, U16_MAX) == p;
        PortSpells(hp, h, t);
      }
    }
  }

  lemma AcceptedSpells(hp: string, h: string, p: Option<nat>)
    requires ParseHostPort(hp) == Ok((h, p))
    ensures SpellsEnd(hp, h, p)
  {
    hide Find, RFind, ParseUint, Spells;
    if hp != "" && hp[0] == '[' {
      BracketSpells(hp, h, p);
    } else if hp != "" && RFind(hp, ":").Some? {
      var c := RFind(hp, ":").value;
      PlainSpells(hp, c);
      assert Spells(hp, h, hp[c + 1..]) && ParseUint(hp[c + 1..], U16_MAX) == p;
    }
  }

  lemma PlainSpells(hp: string, c: nat)
    requires c < |hp| && hp[c] == ':' && hp[0] != '['
    ensures Spells(hp, hp[..c], hp[c + 1..])
  {
    assert hp == hp[..c] + [hp[c]] + hp[c + 1..];
  }

  lemma BracketSpells(hp: string, h: string, p: Option<nat>)
    requires hp != "" && hp[0] == '[' && ParseHostPort(hp) == Ok((h, p))
    ensures SpellsEnd(hp, h, p)
  {
    hide Find, RFind, ParseUint;
    var s := hp[1..];
    var close := Find(s, "]").value;
    var after := s[close + 1..];
    assert ']' !in s[..close];
    assert s == s[..close] + [s[close]] + after;
    if after != "" {
      BracketPieces(hp, h, after);
      assert Spells(hp, h, after[1..]) && ParseUint(after[1..], U16_MAX) == p;
    }
  }

  lemma BracketPieces(hp: string, h: string, after: string)
    requires hp != "" && hp[0] == '[' && hp[1..] == h + [']'] + after && after != "" && after[0] == ':'
    ensures hp == "[" + h + "]:" + after[1..]
  {
    assert after == [':'] + after[1..];
  }

  lemma BareSpells(hp: string, h: string)
    requires SpellsEnd(hp, h, None)
    ensures ParseHostPort(hp) == Ok((h, None))
  {
    hide Find, RFind;
    if hp == "[" + h + "]" && ']' !in h {
      FindSplits(h, ']', "", "]");
      assert hp[1..] == h + [']'] + "";
    } else {
      assert Free(h, ":");
    }
  }

  lemma PortSpells(hp: string, h: string, t: string)
    requires Spells(hp, h, t) && ParseUint(t, U16_MAX).Some?
    ensures ParseHostPort(hp) == Ok((h, ParseUint(t, U16_MAX)))
  {
    PortTextFree(t);
    hide Find, RFind, ParseUint;
    if hp == "[" + h + "]:" + t && ']' !in h {
      assert hp[1..] == h + [']'] + (":" + t);
      FindSplits(h, ']', ":" + t, "]");
      assert (":" + t)[1..] == t;
    } else {
      assert hp == h + [':'] + t;
      RFindSplits(h, ':', t, ":");
    }
  }

  /** Piece `i` is the last one that gives `key`. */
  ghost predicate LastFor(pieces: seq<string>, key: string, i: nat) {
    && i < |pieces| && pieces[i] != "" && Pair(pieces[i]).0 == key
    && forall j :: i < j < |pieces| && pieces[j] != "" ==> Pair(pieces[j]).0 != key
  }

  /** A key has a value exactly when a non-empty piece of the query gives it one, and it is the last such
      value; a piece without `=` gives the empty value. */
  lemma {:induction false} QueryLookup(pieces: seq<string>, key: string)
    ensures key in QueryMap(pieces) <==> exists i: nat :: LastFor(pieces, key, i)
    ensures forall i: nat :: LastFor(pieces, key, i) ==> key in QueryMap(pieces) && QueryMap(pieces)[key] == Pair(pieces[i]).1
    decreases |pieces|
  {
    hide Pair;
    if pieces != [] {
      var n := |pieces| - 1;
      var init, last := pieces[..n], pieces[n];
      QueryLookup(init, key);
      if last != "" && Pair(last).0 == key {
        assert LastFor(pieces, key, n);
      } else {
        forall i: nat ensures LastFor(pieces, key, i) == LastFor(init, key, i) {
          assert i < n ==> init[i] == pieces[i];
          assert forall j :: 0 <= j < n ==> init[j] == pieces[j];
        }
      }
    }
  }

  lemma PairIs(piece: string)
    ensures '=' !in piece ==> Pair(piece) == (piece, "")
    ensures forall k, v :: piece == k + "=" + v && '=' !in k ==> Pair(piece) == (k, v)
  {
    hide Find;
    assert '=' !in piece ==> Free(piece, "=");
    forall k, v | piece == k + "=" + v && '=' !in k ensures Pair(piece) == (k, v) {
      FindSplits(k, '=', v, "=");
      assert piece == k + ['='] + v;
    }
  }

  // ----- stored hop addresses -----

  /** A parsed host never holds a matched bracket at its start. */
  lemma ParsedHost(hp: string)
    requires ParseHostPort(hp).Ok?
    ensures var host := ParseHostPort(hp).value.0; host == "" || host[0] != '[' || ']' !in host
  {
  }

  /** A parsed node's stored `host:port` is accepted by the validator exactly when the host is
      non-empty and opens no bracket, and splitting it then gives the node's own host and port. */
  lemma StoredHopAddress(text: string)
    requires ParseNode(text).Ok? && ParseNode(text).value.port.Some?
    ensures var n := ParseNode(text).value;
      && (ValidateHostPort(n.Authority().value).Ok? <==> n.host != "" && n.host[0] != '[')
      && (ValidateHostPort(n.Authority().value).Ok? ==>
            SplitHostPort(n.Authority().value) == Some((n.host, n.port.value)))
  {
    var n := ParseNode(text).value;
    var s := Trim(text);
    var rest := s[FindScheme(s).value + 3..];
    ParsedHost(SplitAuthority(rest[..AuthorityEnd(rest)]).1);
    SplittersAgree(n.Authority().value);
    if n.host != "" && n.host[0] != '[' {
      StoredAddressSplits(n.host, n.port.value);
    } else {
      OpenBracketRejected(n.host, n.port.value);
    }
  }
}

/** Exactly when parsing undoes printing: `parse_node` trims its text first, so a printed node comes back
    if and only if its text does not end in white space. */
module NodeTrimming {
  import opened Common
  import opened Text
  import opened Node
  import opened NodePrinting

  // ----- trimming stops at punctuation -----

  /** An ASCII character that is not white space. */
  predicate Mark(c: char) {
    c as int < 128 && c != ' ' && !('\t' <= c <= '\r')
  }

  lemma {:induction false} MarkEnds(x: string)
    requires x != "" && Mark(x[|x| - 1])
    ensures SpaceAtEnd(x) == 0
  {
  }

  lemma TrimUnfolds(s: string)
    ensures TrimEnd(s) == if SpaceAtEnd(s) == 0 then s else TrimEnd(s[..|s| - SpaceAtEnd(s)])
  {
    hide SpaceAtEnd;
  }

  /** No white-space character reaches across a mark. */
  lemma SpaceAfterMark(x: string, y: string)
    requires x != "" && Mark(x[|x| - 1]) && y != ""
    ensures SpaceAtEnd(x + y) == SpaceAtEnd(y)
  {
    hide IsSpace2, IsSpace3;
    var s, n := x + y, |y|;
    MarkIsNoSpace(x[|x| - 1]);
    assert s[|s| - 1] == y[n - 1];
    assert s[|s| - 2] == if n >= 2 then y[n - 2] else x[|x| - 1];
    assert |s| >= 3 ==> s[|s| - 3] == if n >= 3 then y[n - 3] else if n == 2 then x[|x| - 1] else x[|x| - 2];
  }

  /** No multi-byte white-space character contains a mark. */
  lemma MarkIsNoSpace(c: char)
    requires Mark(c)
    ensures forall a :: !IsSpace2(c, a) && !IsSpace2(a, c)
    ensures forall a, b :: !IsSpace3(c, a, b) && !IsSpace3(a, c, b) && !IsSpace3(a, b, c)
  {
  }

  lemma {:induction false} TrimAfterMark(x: string, y: string)
    requires x != "" && Mark(x[|x| - 1])
    ensures TrimEnd(x + y) == x + TrimEnd(y) && TrimEnd(y) <= y
    decreases |y|
  {
    hide SpaceAtEnd, TrimEnd, Mark;
    TrimUnfolds(y);
    TrimUnfolds(x + y);
    if y == "" {
      assert x + y == x;
      MarkEnds(x);
    } else {
      SpaceAfterMark(x, y);
      var n := SpaceAtEnd(y);
      if n > 0 {
        assert (x + y)[..|x + y| - n] == x + y[..|y| - n];
        TrimAfterMark(x, y[..|y| - n]);
      }
    }
  }

  // ----- the text ends in one component -----

  lemma {:induction false} JoinSnoc(parts: seq<string>, p: string, c: char)
    requires |parts| > 0
    ensures Join(parts + [p], c) == Join(parts, c) + [c] + p
  {
    var all := parts + [p];
    assert all[0] == parts[0] && all[1..] == parts[1..] + [p];
    if |parts| > 1 {
      JoinSnoc(parts[1..], p, c);
      Regroup(parts[0], [c], Join(parts[1..], c), p);
    } else {
      assert all[1..] == [p];
    }
  }

  lemma Regroup(a: string, c: string, b: string, p: string)
    ensures a + c + (b + c + p) == a + c + b + c + p
  {
  }

  /** The query text up to the last value. */
  function QueryHead(init: seq<(string, string)>, key: string): string {
    (if init == [] then "" else QueryText(init) + "&") + key + "="
  }

  lemma QueryEnds(init: seq<(string, string)>, key: string, value: string)
    ensures QueryText(init + [(key, value)]) == QueryHead(init, key) + value
  {
    var pairs := init + [(key, value)];
    assert PairTexts(pairs) == PairTexts(init) + [key + "=" + value];
    if init == [] {
      assert PairTexts(pairs) == [key + "=" + value];
    } else {
      JoinSnoc(PairTexts(init), key + "=" + value, '&');
      var q := Join(PairTexts(init), '&');
      assert q + ['&'] + (key + "=" + value) == q + "&" + key + "=" + value;
    }
  }

  /** The node and spelling with the last query value replaced. */
  function WithLastValue(n: Node, sp: Spelling, value: string): (Node, Spelling)
    requires sp.pairs != []
  {
    var k := |sp.pairs| - 1;
    var pairs := sp.pairs[..k] + [(sp.pairs[k].0, value)];
    (n.(query := MapOf(pairs)), sp.(pairs := pairs))
  }

  /** All that is printed before the last query value. */
  function BeforeLastValue(n: Node, sp: Spelling): (x: string)
    requires WellFormed(n, sp) && sp.pairs != []
    ensures x != "" && x[|x| - 1] == '='
  {
    var k := |sp.pairs| - 1;
    n.scheme + "://" + AuthorityText(n, sp) + ((if n.target == "" then "" else "/" + n.target) + "?")
    + QueryHead(sp.pairs[..k], sp.pairs[k].0)
  }

  lemma PrintEndsInValue(n: Node, sp: Spelling, value: string)
    requires WellFormed(n, sp) && sp.pairs != [] && Free(value, "&")
    ensures var (n', sp') := WithLastValue(n, sp, value);
      && WellFormed(n', sp') && Print(n', sp') == BeforeLastValue(n, sp) + value
      && n'.query == MapOf(sp.pairs[..|sp.pairs| - 1])[sp.pairs[|sp.pairs| - 1].0 := value]
  {
    hide AuthorityText, QueryText, QueryHead;
    var k := |sp.pairs| - 1;
    var (n', sp') := WithLastValue(n, sp, value);
    assert sp'.pairs[..k] == sp.pairs[..k];
    QueryEnds(sp.pairs[..k], sp.pairs[k].0, value);
    SameAuthority(n, sp, n', sp');
    var a := n.scheme + "://" + AuthorityText(n, sp);
    var t := if n.target == "" then "" else "/" + n.target;
    var h := QueryHead(sp.pairs[..k], sp.pairs[k].0);
    Pieces(a, t, "?", h, value);
  }

  lemma SameAuthority(n: Node, sp: Spelling, n': Node, sp': Spelling)
    requires WellFormed(n, sp) && n' == n.(query := n'.query) && sp' == sp.(pairs := sp'.pairs)
    ensures AuthorityText(n', sp') == AuthorityText(n, sp)
  {
  }

  lemma Pieces(a: string, t: string, q: string, h: string, v: string)
    ensures a + (t + (q + (h + v))) == a + (t + q) + h + v
  {
  }

  // ----- a lost ending changes the node -----

  lemma SameTrim(s: string, w: string)
    requires Trim(s) == Trim(w)
    ensures ParseNode(s) == ParseNode(w)
  {
  }

  /** A text that begins with a scheme and whose ending `y` follows a mark is trimmed within `y`. */
  lemma TrimWithin(scheme: string, x: string, y: string)
    requires scheme != "" && SchemeChar(scheme[0]) && scheme <= x
    requires Mark(x[|x| - 1]) && SpaceAtEnd(x + y) > 0
    ensures var y' := TrimEnd(y);
      && y' <= y && |y'| < |y| && SpaceAtEnd(x + y') == 0
      && Trim(x + y') == x + y' && ParseNode(x + y) == ParseNode(x + y')
  {
    hide ParseNode, SpaceAtEnd, SpaceAtStart, SchemeChar, Mark, TrimEnd;
    var s, w := x + y, x + TrimEnd(y);
    assert s[0] == scheme[0];
    NoSpaceAtStart(s);
    TrimAfterMark(x, y);
    TrimUnfolds(s);
    assert SpaceAtEnd(TrimEnd(s)) == 0;
    assert |TrimEnd(y)| == |y| ==> TrimEnd(y) == y;
    assert scheme <= w;
    UntrimmedPrint(scheme, w);
    SameTrim(s, w);
  }

  lemma TrimmedValue(n: Node, sp: Spelling)
    requires WellFormed(n, sp) && sp.pairs != [] && SpaceAtEnd(Print(n, sp)) > 0
    ensures ParseNode(Print(n, sp)) != Ok(n)
  {
    hide Print, ParseNode, SpaceAtEnd, Trim, TrimEnd, WellFormed;
    var k := |sp.pairs| - 1;
    var v := sp.pairs[k].1;
    ValueIsFree(n, sp);
    var x := BeforeLastValue(n, sp);
    PrintEndsInValue(n, sp, v);
    SameWithLastValue(n, sp);
    SchemeFirst(n, sp);
    TrimWithin(n.scheme, x, v);
    var v' := TrimEnd(v);
    FreePrefix(v', v, "&");
    PrintEndsInValue(n, sp, v');
    var (n', sp') := WithLastValue(n, sp, v');
    ParsePrint(n', sp');
    assert n'.query[sp.pairs[k].0] == v' && n.query[sp.pairs[k].0] == v;
  }

  lemma ValueIsFree(n: Node, sp: Spelling)
    requires WellFormed(n, sp) && sp.pairs != []
    ensures Free(sp.pairs[|sp.pairs| - 1].1, "&")
  {
  }

  lemma SchemeFirst(n: Node, sp: Spelling)
    requires WellFormed(n, sp) && sp.pairs != []
    ensures n.scheme != "" && SchemeChar(n.scheme[0]) && n.scheme <= BeforeLastValue(n, sp)
  {
  }

  lemma FreePrefix(a: string, b: string, pat: string)
    requires a <= b && Free(b, pat)
    ensures Free(a, pat)
  {
  }

  lemma SameWithLastValue(n: Node, sp: Spelling)
    requires WellFormed(n, sp) && sp.pairs != []
    ensures WithLastValue(n, sp, sp.pairs[|sp.pairs| - 1].1) == (n, sp)
  {
    var k := |sp.pairs| - 1;
    assert sp.pairs[..k] + [(sp.pairs[k].0, sp.pairs[k].1)] == sp.pairs;
  }

  lemma TrimmedTarget(n: Node, sp: Spelling)
    requires WellFormed(n, sp) && sp.pairs == [] && n.target != "" && SpaceAtEnd(Print(n, sp)) > 0
    ensures ParseNode(Print(n, sp)) != Ok(n)
  {
    hide ParseNode, SpaceAtEnd, Trim, TrimEnd, AuthorityText;
    var a := AuthorityText(n, sp);
    var x := n.scheme + "://" + a + "/";
    assert Print(n, sp) == x + n.target;
    TrimWithin(n.scheme, x, n.target);
    var t := TrimEnd(n.target);
    FreePrefix(t, n.target, "?");
    assert x + t == n.scheme + "://" + (a + ("/" + t));
    ShortTarget(n, sp, t);
  }

  /** Whatever else the parse gives, its target is no longer than the text it is read from. */
  lemma ShortTarget(n: Node, sp: Spelling, t: string)
    requires WellFormed(n, sp) && Free(t, "?")
    requires var s := n.scheme + "://" + (AuthorityText(n, sp) + ("/" + t)); Trim(s) == s
    ensures var r := ParseNode(n.scheme + "://" + (AuthorityText(n, sp) + ("/" + t)));
      r.Ok? ==> |r.value.target| <= |t|
  {
    hide Trim, AuthorityText, FindScheme, ParseParts, AuthorityEnd, Lower;
    var a := AuthorityText(n, sp);
    var s := n.scheme + "://" + (a + ("/" + t));
    SchemeFound(n.scheme, a + ("/" + t));
    assert s[|n.scheme| + 3..] == a + ("/" + t);
    AuthorityParses(n, sp);
    EndOfAuthority(a, "/" + t);
    PartsTarget(Lower(s[..|n.scheme|]), a, t);
  }

  lemma PartsTarget(scheme: string, authority: string, t: string)
    requires Free(t, "?")
    ensures var r := ParseParts(scheme, authority, "/" + t); r.Ok? ==> |r.value.target| <= |t|
  {
    hide Credentials, ParseHostPort, SplitAuthority, QueryMap, Split, TrimChar, Find;
    assert Free("/" + t, "?") && ("/" + t)[1..] == t;
    TrimCharShortens(t, '/');
  }

  lemma {:induction false} TrimCharShortens(s: string, c: char)
    ensures |TrimChar(s, c)| <= |s|
    decreases |s|
  {
    if s != "" && s[0] == c {
      TrimCharShortens(s[1..], c);
    } else if s != "" && s[|s| - 1] == c {
      TrimCharShortens(s[..|s| - 1], c);
    }
  }

  /** What is printed before the host. */
  function BeforeHost(n: Node, sp: Spelling): (x: string)
    requires WellFormed(n, sp)
    ensures n.scheme <= x && x != "" && Mark(x[|x| - 1])
  {
    var ui := UserInfoText(n, sp.safe);
    n.scheme + "://" + (if ui.None? then "" else ui.value + "@")
  }

  lemma PrintEndsInHost(n: Node, sp: Spelling)
    requires WellFormed(n, sp) && sp.pairs == [] && n.target == ""
    ensures Print(n, sp) == BeforeHost(n, sp) + HostText(n, sp.bracketed)
  {
    hide UserInfoText, HostText;
  }

  /** A port or a bracket at the end is no white space. */
  lemma HostTextEnds(n: Node, sp: Spelling)
    requires WellFormed(n, sp) && (n.port.Some? || sp.bracketed)
    ensures var h := HostText(n, sp.bracketed); h != "" && Mark(h[|h| - 1])
  {
    if n.port.Some? {
      var d := Decimal(n.port.value);
      hide Decimal;
      var h := HostText(n, sp.bracketed);
      assert h[|h| - 1] == d[|d| - 1];
    }
  }

  lemma TrimmedHost(n: Node, sp: Spelling)
    requires WellFormed(n, sp) && sp.pairs == [] && n.target == "" && SpaceAtEnd(Print(n, sp)) > 0
    ensures ParseNode(Print(n, sp)) != Ok(n)
  {
    hide ParseNode, SpaceAtEnd, Print, HostText, BeforeHost, Mark;
    PrintEndsInHost(n, sp);
    if n.port.Some? || sp.bracketed {
      HostTextEnds(n, sp);
      MarkEnds(Print(n, sp));
    } else {
      TrimmedPlainHost(n, sp);
    }
  }

  lemma TrimmedPlainHost(n: Node, sp: Spelling)
    requires WellFormed(n, sp) && sp.pairs == [] && n.target == "" && n.port.None? && !sp.bracketed
    requires SpaceAtEnd(Print(n, sp)) > 0
    ensures ParseNode(Print(n, sp)) != Ok(n)
  {
    hide ParseNode, SpaceAtEnd, TrimEnd, Trim, Print, Mark, UserInfoText;
    var x := BeforeHost(n, sp);
    PrintEndsInHost(n, sp);
    HostOnly(n);
    TrimWithin(n.scheme, x, n.host);
    var n' := n.(host := TrimEnd(n.host));
    FreePrefix(n'.host, n.host, "/?@");
    FreePrefix(n'.host, n.host, ":");
    SameUserInfo(n, n', sp.safe);
    PrintEndsInHost(n', sp);
    HostOnly(n');
    ParsePrint(n', sp);
  }

  lemma HostOnly(n: Node)
    requires n.port.None?
    ensures HostText(n, false) == n.host
  {
  }

  lemma SameUserInfo(n: Node, n': Node, safe: char -> bool)
    requires n.user.Some? ==> IsBytes(n.user.value)
    requires n.pass.Some? ==> IsBytes(n.pass.value)
    requires n'.user == n.user && n'.pass == n.pass
    ensures UserInfoText(n', safe) == UserInfoText(n, safe)
  {
  }

  /** Parsing gives back a printed node exactly when the printed text does not end in white space. */
  lemma ParsePrintIff(n: Node, sp: Spelling)
    requires WellFormed(n, sp)
    ensures ParseNode(Print(n, sp)) == Ok(n) <==> SpaceAtEnd(Print(n, sp)) == 0
  {
    hide ParseNode, Print, SpaceAtEnd;
    if SpaceAtEnd(Print(n, sp)) == 0 {
      ParsePrint(n, sp);
    } else if sp.pairs != [] {
      TrimmedValue(n, sp);
    } else if n.target != "" {
      TrimmedTarget(n, sp);
    } else {
      TrimmedHost(n, sp);
    }
  }
}

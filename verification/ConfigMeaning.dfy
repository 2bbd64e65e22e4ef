/** What an accepted configuration says, told from the texts and flags it was built from. */
module ConfigMeaning {
  import opened Common
  import opened Text
  import opened HostPort
  import opened Node
  import opened NodePrinting
  import opened Cli
  import opened Config

  // ----- lists of targets -----

  function Spaces(n: nat): string {
    if n == 0 then "" else Spaces(n - 1) + " "
  }

  /** A target as it may stand in a list: with blanks around it. */
  datatype Entry = Entry(text: string, before: nat, after: nat)
  {
    function Written(): string {
      Spaces(before) + text + Spaces(after)
    }
  }

  /** No comma, and trimmed; possibly empty. */
  predicate Clean(e: Entry) {
    ',' !in e.text && Trim(e.text) == e.text
  }

  function AllWritten(es: seq<Entry>): seq<string> {
    if es == [] then [] else [es[0].Written()] + AllWritten(es[1..])
  }

  /** The targets a list names. */
  function Named(es: seq<Entry>): seq<string> {
    if es == [] then [] else (if es[0].text == "" then [] else [es[0].text]) + Named(es[1..])
  }

  lemma EndBlank(s: string)
    ensures TrimEnd(s + " ") == TrimEnd(s)
  {
    var t := s + " ";
    assert t[|t| - 1] == ' ' && t[..|t| - 1] == s;
  }

  lemma StartBlank(s: string)
    ensures TrimStart(" " + s) == TrimStart(s)
  {
    var t := " " + s;
    assert t[0] == ' ' && t[1..] == s;
  }

  lemma {:induction false} TrimAfter(s: string, n: nat)
    ensures TrimEnd(s + Spaces(n)) == TrimEnd(s)
  {
    hide TrimEnd;
    if n == 0 {
      assert s + "" == s;
    } else {
      TrimAfter(s, n - 1);
      EndBlank(s + Spaces(n - 1));
      Assoc(s, Spaces(n - 1), " ");
    }
  }

  lemma {:induction false} SpacesFront(n: nat)
    ensures Spaces(n + 1) == " " + Spaces(n)
  {
    if n > 0 {
      SpacesFront(n - 1);
      Assoc(" ", Spaces(n - 1), " ");
    }
  }

  lemma {:induction false} TrimBefore(n: nat, s: string)
    ensures TrimStart(Spaces(n) + s) == TrimStart(s)
  {
    hide TrimStart;
    if n == 0 {
      assert "" + s == s;
    } else {
      SpacesFront(n - 1);
      Assoc(" ", Spaces(n - 1), s);
      StartBlank(Spaces(n - 1) + s);
      TrimBefore(n - 1, s);
    }
  }

  lemma {:induction false} TrimBlanks(n: nat)
    ensures TrimStart(Spaces(n)) == ""
  {
    if n > 0 {
      SpacesFront(n - 1);
      StartBlank(Spaces(n - 1));
      TrimBlanks(n - 1);
    }
  }

  lemma {:induction false} TrimStartShrinks(s: string)
    ensures |TrimStart(s)| <= |s|
    decreases |s|
  {
    hide SpaceAtStart;
    if SpaceAtStart(s) > 0 {
      TrimStartShrinks(s[SpaceAtStart(s)..]);
    }
  }

  lemma {:induction false} TrimEndShrinks(s: string)
    ensures |TrimEnd(s)| <= |s|
    decreases |s|
  {
    hide SpaceAtEnd;
    if SpaceAtEnd(s) > 0 {
      TrimEndShrinks(s[..|s| - SpaceAtEnd(s)]);
    }
  }

  /** A trimmed text begins and ends with something. */
  lemma TrimmedEnds(t: string)
    requires Trim(t) == t
    ensures SpaceAtStart(t) == 0 && TrimStart(t) == t && TrimEnd(t) == t
  {
    hide SpaceAtStart, SpaceAtEnd;
    TrimEndShrinks(TrimStart(t));
    if SpaceAtStart(t) > 0 {
      TrimStartShrinks(t[SpaceAtStart(t)..]);
    }
  }

  /** Blanks do not complete a white-space character. */
  lemma StartBeforeBlanks(t: string, n: nat)
    requires t != "" && SpaceAtStart(t) == 0
    ensures SpaceAtStart(t + Spaces(n)) == 0
  {
    AllBlank(n);
    hide Spaces;
    var s := t + Spaces(n);
    assert forall i :: 0 <= i < |t| ==> s[i] == t[i];
    assert forall i :: |t| <= i < |s| ==> s[i] == ' ';
  }

  lemma {:induction false} AllBlank(n: nat)
    ensures forall i :: 0 <= i < |Spaces(n)| ==> Spaces(n)[i] == ' '
  {
    if n > 0 {
      AllBlank(n - 1);
    }
  }

  lemma StartKept(s: string)
    requires SpaceAtStart(s) == 0
    ensures TrimStart(s) == s
  {
    hide SpaceAtStart;
  }

  /** Trimming a clean entry gives its text. */
  lemma EntryTrims(e: Entry)
    requires Trim(e.text) == e.text
    ensures Trim(e.Written()) == e.text
  {
    var t := e.text;
    TrimmedEnds(t);
    Assoc(Spaces(e.before), t, Spaces(e.after));
    TrimBefore(e.before, t + Spaces(e.after));
    if t == "" {
      assert t + Spaces(e.after) == Spaces(e.after);
      TrimBlanks(e.after);
    } else {
      StartBeforeBlanks(t, e.after);
      StartKept(t + Spaces(e.after));
      TrimAfter(t, e.after);
    }
    hide TrimStart, TrimEnd, Spaces, SpaceAtStart;
  }

  lemma {:induction false} NamedTrims(es: seq<Entry>)
    requires forall i :: 0 <= i < |es| ==> Clean(es[i])
    ensures NonEmptyTrimmed(AllWritten(es)) == Named(es)
  {
    hide Trim;
    if es != [] {
      EntryTrims(es[0]);
      assert AllWritten(es)[0] == es[0].Written() && AllWritten(es)[1..] == AllWritten(es[1..]);
      NamedTrims(es[1..]);
    }
  }

  lemma {:induction false} WrittenIsFree(es: seq<Entry>)
    requires forall i :: 0 <= i < |es| ==> Clean(es[i])
    ensures |AllWritten(es)| == |es| && forall i :: 0 <= i < |es| ==> ',' !in AllWritten(es)[i]
  {
    hide Trim;
    if es != [] {
      AllBlank(es[0].before);
      AllBlank(es[0].after);
      WrittenIsFree(es[1..]);
      hide Spaces;
    }
  }

  /** The targets of a comma-separated list are its entries in order, without the blanks around them and
      without the empty ones. */
  lemma TargetsAreNamed(n: Node, es: seq<Entry>)
    requires es != [] && n.target == Join(AllWritten(es), ',') && forall i :: 0 <= i < |es| ==> Clean(es[i])
    ensures |AllWritten(es)| > 0 && n.Targets() == Named(es)
  {
    WrittenIsFree(es);
    SplitJoin(AllWritten(es), ',');
    NamedTrims(es);
  }

  // ----- one -F -----

  /** A printed node is accepted as a hop exactly when it is a socks5 node with a port and a host that
      opens no bracket; the hop then has the node's address, user and password. */
  lemma PrintedHop(n: Node, sp: Spelling)
    requires WellFormed(n, sp) && SpaceAtEnd(Print(n, sp)) == 0
    ensures var h := HopOf(Print(n, sp));
      && (h.Ok? <==> n.scheme == "socks5" && n.port.Some? && n.host != "" && n.host[0] != '[')
      && (h.Ok? ==> h.value.user == n.user && h.value.pass == n.pass && SplitHostPort(h.value.addr) == Some((n.host, n.port.value)))
  {
    ParsePrint(n, sp);
    if n.port.Some? {
      StoredHopAddress(Print(n, sp));
    }
    hide ParseNode, Print, ValidateHostPort, SplitHostPort, SpaceAtEnd;
  }

  // ----- one -L -----

  /** Whether the node's own query asks for no delay: present and neither `false` nor `0`. */
  predicate AsksNoDelay(n: Node) {
    "nodelay" in n.query && n.query["nodelay"] !in ["false", "0"]
  }

  /** A printed node is accepted as a listener exactly when it is a tcp or udp node with a port, names at
      least one target, and every target has a host and a port; the listener then has the node's
      protocol, port and targets, and binds the node's host or, without one, every interface. */
  lemma PrintedListener(n: Node, sp: Spelling)
    requires WellFormed(n, sp) && SpaceAtEnd(Print(n, sp)) == 0
    ensures var l := ListenerOf(Print(n, sp));
      && (l.Ok? <==>
            && (n.scheme == "tcp" || n.scheme == "udp") && n.port.Some? && n.Targets() != []
            && forall t :: t in n.Targets() ==> SplitHostPort(t).Some?)
      && (l.Ok? ==>
            && (l.value.proto.Tcp? <==> n.scheme == "tcp") && l.value.port == n.port.value && l.value.targets == n.Targets()
            && l.value.bind == (if n.host == "" then "0.0.0.0" else n.host) + ":" + Decimal(n.port.value)
            && l.value.name == n.scheme + "://" + n.host + ":" + Decimal(n.port.value)
            && (l.value.nodelay <==> AsksNoDelay(n)))
  {
    ParsePrint(n, sp);
    hide ParseNode, Print, ValidateHostPort, SplitHostPort, SpaceAtEnd, Decimal, NonEmptyTrimmed, Split;
    forall t | t in n.Targets() ensures ValidateHostPort(t).Ok? <==> SplitHostPort(t).Some? {
      SplittersAgree(t);
    }
    if (n.scheme == "tcp" || n.scheme == "udp") && n.port.Some? {
      NameOf(n);
    }
  }

  lemma NameOf(n: Node)
    requires (n.scheme == "tcp" || n.scheme == "udp") && n.port.Some?
    ensures ProtocolOf(n.scheme).Some? && (ProtocolOf(n.scheme).value.Tcp? <==> n.scheme == "tcp")
    ensures ListenerFrom(n, ProtocolOf(n.scheme).value).name == n.scheme + "://" + n.host + ":" + Decimal(n.port.value)
  {
    hide Decimal, NonEmptyTrimmed;
    var d := Decimal(n.port.value);
    assert n.scheme + "://" + (n.host + ":" + d) == n.scheme + "://" + n.host + ":" + d;
  }

  // ----- the whole configuration -----

  /** Every field of an accepted configuration against the flags it comes from. */
  ghost predicate Reflects(raw: RawArgs, c: Config) {
    && |c.listeners| == |raw.listens| && (forall i :: 0 <= i < |raw.listens| ==> ListenerOf(raw.listens[i]) == Ok(c.listeners[i]))
    && |c.chain| == |raw.forwards| && (forall i :: 0 <= i < |raw.forwards| ==> HopOf(raw.forwards[i]) == Ok(c.chain[i]))
    && (c.mode.Nat? <==> raw.natMode)
    && (if raw.mark.None? then c.mark.None? else c.mark == Some(raw.mark.value % 0x1_0000_0000))
    && c.setIpForward == raw.setIpForward && c.debug == raw.debug && c.workerThreads == raw.workerThreads
    && c.bufSize == 1024 * (if raw.bufSizeKb.Some? then raw.bufSizeKb.value else 32)
    && c.heartbeatSecs == (if raw.heartbeatSecs.Some? then raw.heartbeatSecs.value else 60)
    && c.sock.nodelay == (raw.nodelay != Some(false)) && c.sock.rcvbuf == raw.soRcvbuf && c.sock.sndbuf == raw.soSndbuf
  }

  lemma AcceptedReflects(raw: RawArgs)
    requires Build(raw).Ok?
    ensures Reflects(raw, Build(raw).value)
  {
    hide Build, ListenerOf, HopOf, Listeners, Hops;
    BuildFinishes(raw);
    ListenersAre(raw.listens);
    HopsAre(raw.forwards);
  }
}

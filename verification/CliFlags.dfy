/** What each scalar flag does to the result of the scan: the last value given wins, in its own field. */
module CliFlags {
  import opened Common
  import opened Text
  import opened Cli

  // ----- the names -----

  /** How each flag is spelled, as the help text lists them. */
  function NamesOf(f: FlagId): seq<string> {
    match f
    case ListenFlag => ["L"]
    case ForwardFlag => ["F"]
    case MarkFlag => ["M"]
    case BufSizeFlag => ["buf-size-kb"]
    case HeartbeatFlag => ["heartbeat-secs"]
    case WorkersFlag => ["worker-threads"]
    case RcvbufFlag => ["so-rcvbuf"]
    case SndbufFlag => ["so-sndbuf"]
    case NodelayFlag => ["nodelay"]
    case NatFlag => ["nat"]
    case SetIpForwardFlag => ["set-ip-forward"]
    case NatCleanupFlag => ["nat-cleanup"]
    case DebugFlag => ["D", "debug"]
    case HelpFlag => ["h", "help"]
    case VersionFlag => ["V", "version"]
    case NoSuchFlag => []
  }

  /** A name is read as the flag it spells. */
  lemma NameIsRead(f: FlagId, k: nat)
    requires k < |NamesOf(f)|
    ensures Identify(NamesOf(f)[k]) == f
  {
    hide Identify;
    if f.TakesValue() {
      ValueNameIsRead(f, k);
    } else {
      SwitchNameIsRead(f, k);
    }
  }

  lemma ValueNameIsRead(f: FlagId, k: nat)
    requires k < |NamesOf(f)| && f.TakesValue()
    ensures Identify(NamesOf(f)[k]) == f
  {
  }

  lemma SwitchNameIsRead(f: FlagId, k: nat)
    requires k < |NamesOf(f)| && !f.TakesValue()
    ensures Identify(NamesOf(f)[k]) == f
  {
  }

  /** And as no other. */
  lemma ReadIsName(name: string)
    ensures Identify(name).NoSuchFlag? || name in NamesOf(Identify(name))
  {
  }

  lemma IdentifyIff(name: string, f: FlagId)
    requires !f.NoSuchFlag?
    ensures Identify(name) == f <==> name in NamesOf(f)
  {
    hide Identify;
    ReadIsName(name);
    if name in NamesOf(f) {
      var k :| 0 <= k < |NamesOf(f)| && NamesOf(f)[k] == name;
      NameIsRead(f, k);
    }
  }

  // ----- the fields -----

  datatype Slot = Whole(i: Option<int>) | Count(n: Option<nat>) | Choice(c: Option<bool>) | Flag(b: bool) | NoSlot

  /** The field that belongs to a flag. */
  function Get(raw: RawArgs, f: FlagId): Slot {
    match f
    case MarkFlag => Whole(raw.mark)
    case BufSizeFlag => Count(raw.bufSizeKb)
    case HeartbeatFlag => Count(raw.heartbeatSecs)
    case WorkersFlag => Count(raw.workerThreads)
    case RcvbufFlag => Count(raw.soRcvbuf)
    case SndbufFlag => Count(raw.soSndbuf)
    case NodelayFlag => Choice(raw.nodelay)
    case NatFlag => Flag(raw.natMode)
    case SetIpForwardFlag => Flag(raw.setIpForward)
    case NatCleanupFlag => Flag(raw.natCleanup)
    case DebugFlag => Flag(raw.debug)
    case _ => NoSlot
  }

  /** Values that mean yes; all other accepted ones mean no. */
  predicate Affirms(value: Option<string>) {
    value.None? || Lower(value.value) in ["true", "1", "yes", "on"]
  }

  predicate Denies(value: Option<string>) {
    value.Some? && Lower(value.value) in ["false", "0", "no", "off"]
  }

  lemma BoolIff(name: string, value: Option<string>)
    ensures ParseBool(name, value) == Ok(true) <==> Affirms(value)
    ensures ParseBool(name, value) == Ok(false) <==> Denies(value)
  {
    hide Lower;
  }

  /** What a value means for a flag's field. */
  function Meant(f: FlagId, value: Option<string>): Slot {
    if f.MarkFlag? then Whole(if value.Some? then ParseI64(value.value) else None)
    else if f.NodelayFlag? then Choice(Some(Affirms(value)))
    else if f.NatFlag? || f.SetIpForwardFlag? || f.NatCleanupFlag? || f.DebugFlag? then Flag(Affirms(value))
    else if f.BufSizeFlag? || f.HeartbeatFlag? || f.WorkersFlag? || f.RcvbufFlag? || f.SndbufFlag? then
      Count(if value.Some? then ParseUint(value.value, U64_MAX) else None)
    else NoSlot
  }

  lemma CountLands(raw: RawArgs, id: FlagId, n: nat, f: FlagId)
    requires id.TakesValue() && !id.ListenFlag? && !id.ForwardFlag? && !id.MarkFlag?
    ensures Get(WithCount(raw, id, n), f) == if f == id then Count(Some(n)) else Get(raw, f)
  {
  }

  lemma BoolLands(raw: RawArgs, id: FlagId, b: bool, f: FlagId)
    requires id.NodelayFlag? || id.NatFlag? || id.SetIpForwardFlag? || id.NatCleanupFlag? || id.DebugFlag?
    ensures Get(WithBool(raw, id, b), f) == if f == id then (if f.NodelayFlag? then Choice(Some(b)) else Flag(b)) else Get(raw, f)
  {
  }

  lemma ValueSets(raw: RawArgs, id: FlagId, name: string, v: string, f: FlagId)
    requires id.TakesValue() && SetValue(raw, id, name, v).Ok?
    ensures Get(SetValue(raw, id, name, v).value, f) == if f == id then Meant(id, Some(v)) else Get(raw, f)
  {
    hide ParseI64, ParseUint, WithCount, Affirms;
    if !id.ListenFlag? && !id.ForwardFlag? && !id.MarkFlag? {
      CountLands(raw, id, ParseUint(v, U64_MAX).value, f);
    }
  }

  lemma SwitchSets(raw: RawArgs, id: FlagId, name: string, inline: Option<string>, f: FlagId)
    requires !id.TakesValue() && SetSwitch(raw, id, name, inline).Set?
    ensures Get(SetSwitch(raw, id, name, inline).raw, f) == if f == id then Meant(id, inline) else Get(raw, f)
  {
    hide ParseBool, WithBool, Affirms, Denies, ParseI64, ParseUint;
    BoolIff(name, inline);
    BoolLands(raw, id, ParseBool(name, inline).value, f);
  }

  // ----- whole argument lists -----

  /** Flags that take their value from the next token when none is written with them. */
  predicate WantsValue(name: string) {
    name in ["L", "F", "M", "buf-size-kb", "heartbeat-secs", "worker-threads", "so-rcvbuf", "so-sndbuf"]
  }

  lemma WantsIff(name: string)
    ensures WantsValue(name) <==> Identify(name).TakesValue()
  {
  }

  /** The values given under any of `names`, in argv order; None where a bare switch stands. */
  function Given(args: seq<string>, names: seq<string>): seq<Option<string>>
    decreases |args|
  {
    if args == [] || !FlagLike(args[0]) || args[0] == "--" then []
    else
      var name, inline := FlagName(args[0]), InlineValue(args[0]);
      var mine := name in names;
      if WantsValue(name) && inline.None? then
        if |args| > 1 then (if mine then [Some(args[1])] else []) + Given(args[2..], names) else []
      else (if mine then [inline] else []) + Given(args[1..], names)
  }

  /** The field after values `vs` have been given. */
  function Final(start: Slot, f: FlagId, vs: seq<Option<string>>): Slot {
    if vs == [] then start else Meant(f, vs[|vs| - 1])
  }

  lemma FinalCons(start: Slot, f: FlagId, v: Option<string>, vs: seq<Option<string>>)
    ensures Final(start, f, [v] + vs) == Final(Meant(f, v), f, vs)
  {
    hide Meant;
  }

  predicate Scalar(f: FlagId) {
    !f.ListenFlag? && !f.ForwardFlag? && !f.HelpFlag? && !f.VersionFlag? && !f.NoSuchFlag?
  }

  lemma {:induction false} LastFrom(args: seq<string>, raw: RawArgs, f: FlagId)
    requires !raw.help && !raw.version && Scalar(f)
    requires var r := Scan(args, raw, false); r.Ok? && r.value.Run?
    ensures Get(Scan(args, raw, false).value.raw, f) == Final(Get(raw, f), f, Given(args, NamesOf(f)))
    decreases |args|
  {
    hide Identify, FlagName, InlineValue, SetValue, SetSwitch, Get, Meant, NamesOf, WantsValue, Final;
    NoneGiven(Get(raw, f), f);
    if args != [] {
      var name, inline := FlagName(args[0]), InlineValue(args[0]);
      var id := Identify(name);
      WantsIff(name);
      IdentifyIff(name, f);
      match Classify(args[0])
      case EndOfFlags =>
        assert args[1..] == [];
      case Valued(_, _, Some(v)) =>
        ValueStep(raw, id, name, v, f);
        LastFrom(args[1..], SetValue(raw, id, name, v).value, f);
        FinalCons(Get(raw, f), f, Some(v), Given(args[1..], NamesOf(f)));
        assert [] + Given(args[1..], NamesOf(f)) == Given(args[1..], NamesOf(f));
      case Valued(_, _, None) =>
        ValueStep(raw, id, name, args[1], f);
        LastFrom(args[2..], SetValue(raw, id, name, args[1]).value, f);
        FinalCons(Get(raw, f), f, Some(args[1]), Given(args[2..], NamesOf(f)));
        assert [] + Given(args[2..], NamesOf(f)) == Given(args[2..], NamesOf(f));
      case Switch(_, _, _) =>
        SwitchStep(raw, id, name, inline, f);
        LastFrom(args[1..], SetSwitch(raw, id, name, inline).raw, f);
        FinalCons(Get(raw, f), f, inline, Given(args[1..], NamesOf(f)));
        assert [] + Given(args[1..], NamesOf(f)) == Given(args[1..], NamesOf(f));
    }
  }

  lemma NoneGiven(start: Slot, f: FlagId)
    ensures Final(start, f, []) == start
  {
  }

  lemma ValueStep(raw: RawArgs, id: FlagId, name: string, v: string, f: FlagId)
    requires id.TakesValue() && SetValue(raw, id, name, v).Ok?
    ensures Get(SetValue(raw, id, name, v).value, f) == if f == id then Meant(f, Some(v)) else Get(raw, f)
    ensures SetValue(raw, id, name, v).value.help == raw.help && SetValue(raw, id, name, v).value.version == raw.version
  {
    ValueSets(raw, id, name, v, f);
    ValueLands(raw, id, name, v);
    hide SetValue, Get, Meant;
  }

  lemma SwitchStep(raw: RawArgs, id: FlagId, name: string, inline: Option<string>, f: FlagId)
    requires !id.TakesValue() && SetSwitch(raw, id, name, inline).Set?
    ensures Get(SetSwitch(raw, id, name, inline).raw, f) == if f == id then Meant(f, inline) else Get(raw, f)
    ensures SetSwitch(raw, id, name, inline).raw.help == raw.help && SetSwitch(raw, id, name, inline).raw.version == raw.version
  {
    SwitchSets(raw, id, name, inline, f);
    SwitchKeepsLists(raw, id, name, inline);
    hide SetSwitch, Get, Meant;
  }

  /** For every argv that is accepted and every scalar flag: its own field holds what the last value given
      under any of its names means, or the default if none was given. */
  lemma LastFlagWins(args: seq<string>, f: FlagId)
    requires Scalar(f)
    requires var r := Scan(args, DEFAULTS, false); r.Ok? && r.value.Run?
    ensures var given := Given(args, NamesOf(f));
      Get(Scan(args, DEFAULTS, false).value.raw, f) == if given == [] then Get(DEFAULTS, f) else Meant(f, given[|given| - 1])
  {
    hide Scan, Get, Meant, NamesOf, Given;
    LastFrom(args, DEFAULTS, f);
  }

  // ----- how a scan stops -----

  /** What one token at a flag position does when it ends the scan: help and version say so, an unknown
      name and a stray argument are named in the error, and `--` ends the flags. */
  lemma TokenStops(args: seq<string>, raw: RawArgs)
    requires args != []
    ensures var arg, r := args[0], Scan(args, raw, false);
      && (!FlagLike(arg) ==> r == Err(Positional(arg)))
      && (arg == "--" && |args| > 1 ==> r == Err(Positional(args[1])))
      && (FlagLike(arg) && arg != "--" ==>
            && (FlagName(arg) in NamesOf(HelpFlag) ==> r == Ok(Help))
            && (FlagName(arg) in NamesOf(VersionFlag) ==> r == Ok(Version))
            && ((forall f :: FlagName(arg) !in NamesOf(f)) ==> r == Err(UnknownFlag(FlagName(arg))))
            && (WantsValue(FlagName(arg)) && InlineValue(arg).None? && |args| == 1 ==> r == Err(NeedsValue(FlagName(arg)))))
  {
    hide Identify, FlagName, InlineValue, SetValue, NamesOf, WantsValue;
    var name := FlagName(args[0]);
    IdentifyIff(name, HelpFlag);
    IdentifyIff(name, VersionFlag);
    ReadIsName(name);
    WantsIff(name);
  }

  /** What is so without any flag. */
  lemma NothingGiven()
    ensures DEFAULTS.listens == [] && DEFAULTS.forwards == [] && DEFAULTS.mark.None? && DEFAULTS.bufSizeKb.None?
    ensures DEFAULTS.heartbeatSecs.None? && DEFAULTS.workerThreads.None? && DEFAULTS.nodelay.None?
    ensures DEFAULTS.soRcvbuf.None? && DEFAULTS.soSndbuf.None?
    ensures !DEFAULTS.natMode && !DEFAULTS.setIpForward && !DEFAULTS.natCleanup && !DEFAULTS.debug
    ensures Scan([], DEFAULTS, false) == Ok(Run(DEFAULTS))
  {
  }
}

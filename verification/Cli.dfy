/** The argv scanner. */
module Cli {
  import opened Common
  import opened Text

  datatype RawArgs = RawArgs(
    listens: seq<string>,
    forwards: seq<string>,
    mark: Option<int>,
    natMode: bool,
    setIpForward: bool,
    natCleanup: bool,
    bufSizeKb: Option<nat>,
    heartbeatSecs: Option<nat>,
    workerThreads: Option<nat>,
    nodelay: Option<bool>,
    soRcvbuf: Option<nat>,
    soSndbuf: Option<nat>,
    debug: bool,
    help: bool,
    version: bool)

  const DEFAULTS := RawArgs([], [], None, false, false, false, None, None, None, None, None, None, false, false, false)

  datatype Outcome = Run(raw: RawArgs) | Help | Version

  datatype CliError =
    | Positional(arg: string)
    | NeedsValue(name: string)
    | NotAnInteger(name: string, text: string)
    | NotABoolean(name: string, text: string)
    | UnknownFlag(name: string)

  // ----- one argument -----

  /** Starts with a dash and is more than a dash. */
  predicate FlagLike(arg: string) {
    arg != "" && arg[0] == '-' && arg != "-"
  }

  /** `trim_start_matches('-')`: every leading dash goes. */
  function TrimDashes(s: string): (r: string)
    ensures |r| <= |s| && r == s[|s| - |r|..]
    ensures r != "" ==> r[0] != '-'
  {
    if s != "" && s[0] == '-' then TrimDashes(s[1..]) else s
  }

  function FlagName(arg: string): string {
    var body := TrimDashes(arg);
    match Find(body, "=") case Some(eq) => body[..eq] case None => body
  }

  function InlineValue(arg: string): Option<string> {
    var body := TrimDashes(arg);
    match Find(body, "=") case Some(eq) => Some(body[eq + 1..]) case None => None
  }

  /** The flags the scanner knows. */
  datatype FlagId =
    | ListenFlag | ForwardFlag | MarkFlag | BufSizeFlag | HeartbeatFlag | WorkersFlag | RcvbufFlag | SndbufFlag
    | NodelayFlag | NatFlag | SetIpForwardFlag | NatCleanupFlag | DebugFlag | HelpFlag | VersionFlag | NoSuchFlag
  {
    predicate TakesValue() {
      || ListenFlag? || ForwardFlag? || MarkFlag? || BufSizeFlag? || HeartbeatFlag? || WorkersFlag?
      || RcvbufFlag? || SndbufFlag?
    }
  }

  function Identify(name: string): FlagId {
    if name == "L" then ListenFlag
    else if name == "F" then ForwardFlag
    else if name == "M" then MarkFlag
    else if name == "buf-size-kb" then BufSizeFlag
    else if name == "heartbeat-secs" then HeartbeatFlag
    else if name == "worker-threads" then WorkersFlag
    else if name == "so-rcvbuf" then RcvbufFlag
    else if name == "so-sndbuf" then SndbufFlag
    else if name == "nodelay" then NodelayFlag
    else if name == "nat" then NatFlag
    else if name == "set-ip-forward" then SetIpForwardFlag
    else if name == "nat-cleanup" then NatCleanupFlag
    else if name == "D" || name == "debug" then DebugFlag
    else if name == "h" || name == "help" then HelpFlag
    else if name == "V" || name == "version" then VersionFlag
    else NoSuchFlag
  }

  /** How one argument is read where a flag is expected. */
  datatype Token =
    | Stray                                                        // positional: always an error
    | EndOfFlags                                                   // `--`
    | Valued(id: FlagId, name: string, inline: Option<string>)     // a flag that takes a value
    | Switch(id: FlagId, name: string, inline: Option<string>)     // any other flag

  function Classify(arg: string): (t: Token)
    ensures t.Valued? ==> t.id.TakesValue() && FlagLike(arg)
    ensures t.Valued? ==> t == Valued(Identify(FlagName(arg)), FlagName(arg), InlineValue(arg))
  {
    if !FlagLike(arg) then Stray
    else if arg == "--" then EndOfFlags
    else
      var name := FlagName(arg);
      var id := Identify(name);
      if id.TakesValue() then Valued(id, name, InlineValue(arg)) else Switch(id, name, InlineValue(arg))
  }

  /** `parse_bool`. */
  function ParseBool(name: string, value: Option<string>): Result<bool, CliError> {
    match value
    case None => Ok(true)
    case Some(v) =>
      var l := Lower(v);
      if l == "true" || l == "1" || l == "yes" || l == "on" then Ok(true)
      else if l == "false" || l == "0" || l == "no" || l == "off" then Ok(false)
      else Err(NotABoolean(name, v))
  }

  function WithCount(raw: RawArgs, id: FlagId, n: nat): RawArgs {
    match id
    case BufSizeFlag => raw.(bufSizeKb := Some(n))
    case HeartbeatFlag => raw.(heartbeatSecs := Some(n))
    case WorkersFlag => raw.(workerThreads := Some(n))
    case RcvbufFlag => raw.(soRcvbuf := Some(n))
    case SndbufFlag => raw.(soSndbuf := Some(n))
    case _ => raw
  }

  /** The effect of a flag that takes a value. */
  function SetValue(raw: RawArgs, id: FlagId, name: string, v: string): Result<RawArgs, CliError> {
    if id.ListenFlag? then Ok(raw.(listens := raw.listens + [v]))
    else if id.ForwardFlag? then Ok(raw.(forwards := raw.forwards + [v]))
    else if id.MarkFlag? then
      var m := ParseI64(v);
      if m.None? then Err(NotAnInteger(name, v)) else Ok(raw.(mark := m))
    else
      var n := ParseUint(v, U64_MAX);
      if n.None? then Err(NotAnInteger(name, v)) else Ok(WithCount(raw, id, n.value))
  }

  datatype Effect = Set(raw: RawArgs) | Finish(result: Result<Outcome, CliError>)

  function WithBool(raw: RawArgs, id: FlagId, b: bool): RawArgs {
    match id
    case NodelayFlag => raw.(nodelay := Some(b))
    case NatFlag => raw.(natMode := b)
    case SetIpForwardFlag => raw.(setIpForward := b)
    case NatCleanupFlag => raw.(natCleanup := b)
    case DebugFlag => raw.(debug := b)
    case _ => raw
  }

  /** The effect of every other flag; it never looks at the next token. */
  function SetSwitch(raw: RawArgs, id: FlagId, name: string, inline: Option<string>): (e: Effect)
    ensures e.Finish? && e.result.Ok? ==> !e.result.value.Run?
  {
    if id.HelpFlag? then Finish(Ok(Help))
    else if id.VersionFlag? then Finish(Ok(Version))
    else if id.NoSuchFlag? then Finish(Err(UnknownFlag(name)))
    else
      var b := ParseBool(name, inline);
      if b.Err? then Finish(Err(b.error)) else Set(WithBool(raw, id, b.value))
  }

  // ----- the whole scan -----

  function AtEnd(raw: RawArgs): Result<Outcome, CliError> {
    if raw.help then Ok(Help) else if raw.version then Ok(Version) else Ok(Run(raw))
  }

  /** The result of scanning `args` from the state `raw`, `noMoreFlags`. */
  function Scan(args: seq<string>, raw: RawArgs, noMoreFlags: bool): Result<Outcome, CliError>
    decreases |args|, 0
  {
    if args == [] then AtEnd(raw)
    else if noMoreFlags then Err(Positional(args[0]))
    else
      match Classify(args[0])
      case Stray => Err(Positional(args[0]))
      case EndOfFlags => Scan(args[1..], raw, true)
      case Valued(id, name, inline) =>
        if inline.Some? then ScanAfter(SetValue(raw, id, name, inline.value), args[1..])
        else if |args| > 1 then ScanAfter(SetValue(raw, id, name, args[1]), args[2..])
        else Err(NeedsValue(name))
      case Switch(id, name, inline) =>
        match SetSwitch(raw, id, name, inline)
        case Finish(r) => r
        case Set(raw') => Scan(args[1..], raw', false)
  }

  function ScanAfter(r: Result<RawArgs, CliError>, rest: seq<string>): Result<Outcome, CliError>
    decreases |rest|, 1
  {
    match r case Err(e) => Err(e) case Ok(raw) => Scan(rest, raw, false)
  }

  /** `parse_args`: one loop over an index. */
  method ParseArgs(args: seq<string>) returns (r: Result<Outcome, CliError>)
    ensures r == Scan(args, DEFAULTS, false)
  {
    hide SetValue, SetSwitch, Identify, FlagName, InlineValue, AtEnd;
    var raw := DEFAULTS;
    var i := 0;
    var noMoreFlags := false;
    assert args[0..] == args;
    while i < |args|
      invariant 0 <= i <= |args|
      invariant Scan(args, DEFAULTS, false) == Scan(args[i..], raw, noMoreFlags)
      decreases |args| - i
    {
      var arg := args[i];
      ghost var here := args[i..];
      assert here[0] == arg && here[1..] == args[i + 1..];
      i := i + 1;
      if noMoreFlags || arg == "" || arg[0] != '-' || arg == "-" {
        return Err(Positional(arg));
      }
      if arg == "--" {
        noMoreFlags := true;
        continue;
      }
      var name, inline := FlagName(arg), InlineValue(arg);
      var id := Identify(name);
      if id.TakesValue() {
        var value: string;
        if inline.Some? {
          value := inline.value;
        } else if i < |args| {
          assert here[2..] == args[i + 1..];
          value := args[i];
          i := i + 1;
        } else {
          return Err(NeedsValue(name));
        }
        var next := SetValue(raw, id, name, value);
        if next.Err? {
          return Err(next.error);
        }
        raw := next.value;
      } else {
        var effect := SetSwitch(raw, id, name, inline);
        if effect.Finish? {
          return effect.result;
        }
        raw := effect.raw;
      }
    }
    r := AtEnd(raw);
  }

  // ----- equivalent spellings -----

  /** The same flag with any number of leading dashes. */
  predicate SameFlag(a: string, b: string) {
    a == b || (FlagLike(a) && FlagLike(b) && a != "--" && b != "--" && TrimDashes(a) == TrimDashes(b))
  }

  /** The two argument lists differ only in the leading dashes of tokens read as flags. */
  ghost predicate DashVariant(a: seq<string>, b: seq<string>)
    decreases |a|
  {
    if a == [] then b == []
    else
      b != [] && SameFlag(a[0], b[0]) &&
      match Classify(a[0])
      case Valued(_, _, None) =>
        if |a| > 1 then |b| > 1 && a[1] == b[1] && DashVariant(a[2..], b[2..]) else |b| == 1
      case Valued(_, _, Some(_)) => DashVariant(a[1..], b[1..])
      case Switch(_, _, _) => DashVariant(a[1..], b[1..])
      case _ => a[1..] == b[1..]
  }

  lemma SameFlagClassifies(a: string, b: string)
    requires SameFlag(a, b)
    ensures Classify(a) == Classify(b)
    ensures Classify(a).Stray? ==> a == b
  {
    hide Identify, TrimDashes;
  }

  /** `-X` and `--X` mean the same: leading dashes of flags change nothing, for every argv. */
  lemma {:induction false} DashesDoNotMatter(a: seq<string>, b: seq<string>, raw: RawArgs)
    requires DashVariant(a, b)
    ensures Scan(a, raw, false) == Scan(b, raw, false)
    decreases |a|
  {
    hide Classify, SetValue, SetSwitch, SameFlag;
    if a != [] {
      SameFlagClassifies(a[0], b[0]);
      match Classify(a[0])
      case Stray =>
      case EndOfFlags =>
      case Valued(id, name, Some(v)) =>
        var next := SetValue(raw, id, name, v);
        if next.Ok? {
          DashesDoNotMatter(a[1..], b[1..], next.value);
        }
      case Valued(id, name, None) =>
        if |a| > 1 {
          var next := SetValue(raw, id, name, a[1]);
          if next.Ok? {
            DashesDoNotMatter(a[2..], b[2..], next.value);
          }
        }
      case Switch(id, name, inline) =>
        var effect := SetSwitch(raw, id, name, inline);
        if effect.Set? {
          DashesDoNotMatter(a[1..], b[1..], effect.raw);
        }
    }
  }

  /** `-X=v` without its `=v`. */
  function Head(arg: string): string
    requires InlineValue(arg).Some?
  {
    arg[..|arg| - |InlineValue(arg).value| - 1]
  }

  /** Every `-X=v` that stands where a flag is read becomes the two tokens `-X`, `v`. */
  function Expand(args: seq<string>): seq<string>
    decreases |args|
  {
    if args == [] then []
    else
      match Classify(args[0])
      case Valued(_, _, Some(v)) => [Head(args[0]), v] + Expand(args[1..])
      case Valued(_, _, None) => if |args| > 1 then args[..2] + Expand(args[2..]) else args
      case Switch(_, _, _) => args[..1] + Expand(args[1..])
      case _ => args
  }

  /** Cutting a flag at its `=` keeps the name. */
  lemma {:induction false} HeadKeepsName(arg: string)
    requires InlineValue(arg).Some? && FlagName(arg) != ""
    ensures Head(arg) != "" && TrimDashes(Head(arg)) == FlagName(arg)
  {
    hide TrimDashes, AllDashes, FlagName, InlineValue, Head;
    DashesBefore(arg);
    HeadPieces(arg);
    TrimDashesPrefix(arg[..|arg| - |TrimDashes(arg)|], FlagName(arg));
  }

  lemma HeadPieces(arg: string)
    requires InlineValue(arg).Some?
    ensures Head(arg) == arg[..|arg| - |TrimDashes(arg)|] + FlagName(arg)
    ensures FlagName(arg) != "" ==> FlagName(arg)[0] != '-'
  {
    hide TrimDashes, Find;
    var body := TrimDashes(arg);
    var k, eq := |arg| - |body|, Find(body, "=").value;
    assert arg == arg[..k] + body;
    assert Head(arg) == arg[..k + eq];
  }

  predicate AllDashes(s: string) {
    forall i :: 0 <= i < |s| ==> s[i] == '-'
  }

  lemma {:induction false} DashesBefore(arg: string)
    ensures AllDashes(arg[..|arg| - |TrimDashes(arg)|])
  {
    if arg != "" && arg[0] == '-' {
      DashesBefore(arg[1..]);
      var k := |arg| - |TrimDashes(arg)|;
      assert arg[..k] == ['-'] + arg[1..][..k - 1];
    }
  }

  lemma {:induction false} TrimDashesPrefix(dashes: string, body: string)
    requires AllDashes(dashes) && body != "" && body[0] != '-'
    ensures TrimDashes(dashes + body) == body
  {
    if dashes == "" {
      assert dashes + body == body;
    } else {
      assert (dashes + body)[1..] == dashes[1..] + body;
      TrimDashesPrefix(dashes[1..], body);
    }
  }

  /** The two spellings of a valued flag differ only in where the value stands. */
  lemma HeadClassifies(arg: string)
    requires Classify(arg).Valued? && Classify(arg).inline.Some?
    ensures Classify(Head(arg)) == Valued(Classify(arg).id, Classify(arg).name, None)
  {
    hide Classify, FlagName, InlineValue, Identify, FlagLike, Head;
    NamedFlag(FlagName(arg));
    HeadIsFlag(arg);
    ClassifyValued(Head(arg));
  }

  lemma ClassifyValued(arg: string)
    requires FlagLike(arg) && arg != "--" && Identify(FlagName(arg)).TakesValue()
    ensures Classify(arg) == Valued(Identify(FlagName(arg)), FlagName(arg), InlineValue(arg))
  {
    hide FlagName, InlineValue, Identify, FlagLike;
  }

  lemma NamedFlag(name: string)
    requires Identify(name).TakesValue()
    ensures name != ""
  {
  }

  lemma HeadIsFlag(arg: string)
    requires FlagLike(arg) && InlineValue(arg).Some? && FlagName(arg) != ""
    ensures FlagLike(Head(arg)) && Head(arg) != "--"
    ensures FlagName(Head(arg)) == FlagName(arg) && InlineValue(Head(arg)) == None
  {
    var name := FlagName(arg);
    HeadKeepsName(arg);
    HeadNotBare(Head(arg), name);
    NameIsFree(arg);
    hide TrimDashes;
    assert Head(arg)[0] == arg[0];
  }

  lemma NameIsFree(arg: string)
    ensures Free(FlagName(arg), "=")
  {
    hide TrimDashes;
  }

  lemma HeadNotBare(head: string, name: string)
    requires TrimDashes(head) == name && name != ""
    ensures head != "-" && head != "--"
  {
    assert TrimDashes("-") == "" && TrimDashes("--") == "";
  }

  /** Spelling every value flag with a separate token leaves the whole result unchanged, for every
      argv and every value, even one that starts with a dash or is `--`. */
  lemma {:induction false} ExpandKeepsResult(args: seq<string>, raw: RawArgs)
    ensures Scan(Expand(args), raw, false) == Scan(args, raw, false)
    decreases |args|
  {
    hide Classify, SetValue, SetSwitch;
    if args != [] {
      match Classify(args[0])
      case Stray =>
      case EndOfFlags =>
      case Valued(id, name, Some(v)) =>
        HeadClassifies(args[0]);
        assert Expand(args)[0] == Head(args[0]) && Expand(args)[1] == v && Expand(args)[2..] == Expand(args[1..]);
        var s := SetValue(raw, id, name, v);
        if s.Ok? {
          ExpandKeepsResult(args[1..], s.value);
        }
      case Valued(id, name, None) =>
        if |args| > 1 {
          assert Expand(args)[0] == args[0] && Expand(args)[1] == args[1] && Expand(args)[2..] == Expand(args[2..]);
          var s := SetValue(raw, id, name, args[1]);
          if s.Ok? {
            ExpandKeepsResult(args[2..], s.value);
          }
        }
      case Switch(id, name, inline) =>
        assert Expand(args)[0] == args[0] && Expand(args)[1..] == Expand(args[1..]);
        var e := SetSwitch(raw, id, name, inline);
        if e.Set? {
          ExpandKeepsResult(args[1..], e.raw);
        }
    }
  }

  /** After `pre` the scanner reads a flag: `pre` is made of whole flags and holds no `--`. */
  predicate Aligned(pre: seq<string>)
    decreases |pre|
  {
    pre == [] ||
    match Classify(pre[0])
    case Valued(_, _, None) => |pre| > 1 && Aligned(pre[2..])
    case Valued(_, _, Some(_)) => Aligned(pre[1..])
    case Switch(_, _, _) => Aligned(pre[1..])
    case _ => false
  }

  lemma {:induction false} ExpandAligned(pre: seq<string>, post: seq<string>)
    requires Aligned(pre)
    ensures Expand(pre + post) == Expand(pre) + Expand(post)
    decreases |pre|
  {
    hide Classify, Expand, ExpandFirst;
    if pre == [] {
      assert pre + post == post;
      assert Expand(pre) == [] by {
        ExpandEmpty();
      }
      assert [] + Expand(post) == Expand(post);
    } else {
      var all := pre + post;
      var k := FlagLength(pre[0]);
      SliceConcat(pre, post, k);
      ExpandUnfold(pre);
      ExpandUnfold(all);
      SameFirst(pre, all);
      ExpandAligned(pre[k..], post);
      Assoc(ExpandFirst(pre, k), Expand(pre[k..]), Expand(post));
    }
  }

  /** How many tokens a flag is spelled with. */
  function FlagLength(arg: string): (k: nat)
    ensures 1 <= k <= 2
  {
    var t := Classify(arg);
    if t.Valued? && t.inline.None? then 2 else 1
  }

  lemma ExpandEmpty()
    ensures Expand([]) == []
  {
  }

  lemma ExpandUnfold(args: seq<string>)
    requires args != [] && (Classify(args[0]).Valued? || Classify(args[0]).Switch?) && FlagLength(args[0]) <= |args|
    ensures var k := FlagLength(args[0]); Expand(args) == ExpandFirst(args, k) + Expand(args[k..])
  {
    hide Classify, Head;
  }

  lemma SameFirst(a: seq<string>, b: seq<string>)
    requires a != [] && b != [] && a[0] == b[0] && FlagLength(a[0]) <= |a| && FlagLength(a[0]) <= |b|
    requires a[..FlagLength(a[0])] == b[..FlagLength(a[0])]
    ensures ExpandFirst(a, FlagLength(a[0])) == ExpandFirst(b, FlagLength(a[0]))
  {
    hide Classify, Head;
  }

  /** What the first flag of `args`, `k` tokens long, expands to. */
  function ExpandFirst(args: seq<string>, k: nat): seq<string>
    requires 0 < k <= |args|
  {
    var t := Classify(args[0]);
    if t.Valued? && t.inline.Some? then [Head(args[0]), t.inline.value] else args[..k]
  }

  /** Two argument lists that expand alike mean the same. */
  lemma SameExpansion(a: seq<string>, b: seq<string>, raw: RawArgs)
    requires Expand(a) == Expand(b)
    ensures Scan(a, raw, false) == Scan(b, raw, false)
  {
    hide Expand, Scan;
    ExpandKeepsResult(a, raw);
    ExpandKeepsResult(b, raw);
  }

  lemma ExpandOneFlag(arg: string, post: seq<string>)
    requires Classify(arg).Valued? && Classify(arg).inline.Some?
    ensures Expand([arg] + post) == Expand([Head(arg), Classify(arg).inline.value] + post)
  {
    hide Classify, Head;
    var v := Classify(arg).inline.value;
    var one, two := [arg] + post, [Head(arg), v] + post;
    HeadClassifies(arg);
    assert one[0] == arg && one[1..] == post;
    assert two[0] == Head(arg) && two[2..] == post && two[..2] == [Head(arg), v];
  }

  /** Rewriting a single value flag at a flag position. */
  lemma SplitOneFlag(pre: seq<string>, arg: string, post: seq<string>, raw: RawArgs)
    requires Aligned(pre) && Classify(arg).Valued? && Classify(arg).inline.Some?
    ensures Scan(pre + ([arg] + post), raw, false)
         == Scan(pre + ([Head(arg), Classify(arg).inline.value] + post), raw, false)
  {
    hide Classify, Head, Expand, Scan, Aligned;
    var v := Classify(arg).inline.value;
    ExpandOneFlag(arg, post);
    ExpandAligned(pre, [arg] + post);
    ExpandAligned(pre, [Head(arg), v] + post);
    SameExpansion(pre + ([arg] + post), pre + ([Head(arg), v] + post), raw);
  }

  // ----- order of repeated flags -----

  /** The values given to flag `id`, in argv order. */
  function ValuesOf(args: seq<string>, id: FlagId): seq<string>
    decreases |args|
  {
    if args == [] then []
    else
      match Classify(args[0])
      case Valued(here, _, Some(v)) => (if here == id then [v] else []) + ValuesOf(args[1..], id)
      case Valued(here, _, None) =>
        if |args| > 1 then (if here == id then [args[1]] else []) + ValuesOf(args[2..], id) else []
      case Switch(_, _, _) => ValuesOf(args[1..], id)
      case _ => []
  }

  /** What one scan adds to the state it started from. */
  ghost predicate Collected(args: seq<string>, raw: RawArgs, out: RawArgs) {
    && !out.help && !out.version
    && out.listens == raw.listens + ValuesOf(args, ListenFlag)
    && out.forwards == raw.forwards + ValuesOf(args, ForwardFlag)
  }

  /** `-L` and `-F` values come out complete and in argv order, and `help` and `version` are never
      set by the scan. */
  lemma {:induction false} RepeatedFlagsInOrder(args: seq<string>, raw: RawArgs)
    requires !raw.help && !raw.version
    requires var r := Scan(args, raw, false); r.Ok? && r.value.Run?
    ensures Collected(args, raw, Scan(args, raw, false).value.raw)
    decreases |args|
  {
    hide Classify, SetValue, SetSwitch;
    if args != [] {
      match Classify(args[0])
      case EndOfFlags =>
        assert args[1..] == [];
      case Valued(id, name, Some(v)) =>
        var next := SetValue(raw, id, name, v).value;
        ValueLands(raw, id, name, v);
        RepeatedFlagsInOrder(args[1..], next);
        Assoc(raw.listens, if id.ListenFlag? then [v] else [], ValuesOf(args[1..], ListenFlag));
        Assoc(raw.forwards, if id.ForwardFlag? then [v] else [], ValuesOf(args[1..], ForwardFlag));
      case Valued(id, name, None) =>
        var v := args[1];
        var next := SetValue(raw, id, name, v).value;
        ValueLands(raw, id, name, v);
        RepeatedFlagsInOrder(args[2..], next);
        Assoc(raw.listens, if id.ListenFlag? then [v] else [], ValuesOf(args[2..], ListenFlag));
        Assoc(raw.forwards, if id.ForwardFlag? then [v] else [], ValuesOf(args[2..], ForwardFlag));
      case Switch(id, name, inline) =>
        SwitchKeepsLists(raw, id, name, inline);
        RepeatedFlagsInOrder(args[1..], SetSwitch(raw, id, name, inline).raw);
    }
  }

  lemma ValueLands(raw: RawArgs, id: FlagId, name: string, v: string)
    requires id.TakesValue() && SetValue(raw, id, name, v).Ok?
    ensures var out := SetValue(raw, id, name, v).value;
      && out.listens == raw.listens + (if id.ListenFlag? then [v] else [])
      && out.forwards == raw.forwards + (if id.ForwardFlag? then [v] else [])
      && out.help == raw.help && out.version == raw.version
  {
    hide ParseI64, ParseUint, WithCount;
    if !id.ListenFlag? && !id.ForwardFlag? && !id.MarkFlag? {
      CountKeepsLists(raw, id, ParseUint(v, U64_MAX).value);
    }
  }

  predicate SameLists(a: RawArgs, b: RawArgs) {
    a.listens == b.listens && a.forwards == b.forwards && a.help == b.help && a.version == b.version
  }

  lemma CountKeepsLists(raw: RawArgs, id: FlagId, n: nat)
    ensures SameLists(WithCount(raw, id, n), raw)
  {
  }

  lemma BoolKeepsLists(raw: RawArgs, id: FlagId, b: bool)
    ensures SameLists(WithBool(raw, id, b), raw)
  {
  }

  lemma SwitchKeepsLists(raw: RawArgs, id: FlagId, name: string, inline: Option<string>)
    requires SetSwitch(raw, id, name, inline).Set?
    ensures var out := SetSwitch(raw, id, name, inline).raw;
      out.listens == raw.listens && out.forwards == raw.forwards && out.help == raw.help && out.version == raw.version
  {
    hide ParseBool, WithBool;
    BoolKeepsLists(raw, id, ParseBool(name, inline).value);
  }
}

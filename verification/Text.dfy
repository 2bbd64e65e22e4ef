/** The text primitives the hand-written scanners are built from.

    A Rust `str` is a sequence of UTF-8 bytes, and it is modelled as exactly that: a `string`
    in which each `char` stands for one byte. Every delimiter the program looks for is ASCII,
    so searching bytes and searching characters give the same split. */
module Text {
  import opened Common

  /** Every character is one byte. */
  predicate IsBytes(s: string) {
    forall i :: 0 <= i < |s| ==> s[i] as int < 256
  }

  /** No character of `s` is one of `pat`. */
  predicate Free(s: string, pat: string) {
    forall i :: 0 <= i < |s| ==> s[i] !in pat
  }

  lemma FreeConcat(a: string, b: string, pat: string)
    requires Free(a, pat) && Free(b, pat)
    ensures Free(a + b, pat)
  {
  }

  // ----- searching -----

  /** `str::find` with a set of characters: the first index holding one of `pat`. */
  function Find(s: string, pat: string): (r: Option<nat>)
    ensures r.None? <==> Free(s, pat)
    ensures r.Some? ==> r.value < |s| && s[r.value] in pat
    ensures r.Some? ==> forall i :: 0 <= i < r.value ==> s[i] !in pat
  {
    if s == "" then None
    else if s[0] in pat then Some(0)
    else
      assert forall i :: 0 < i < |s| ==> s[i] == s[1..][i - 1];
      match Find(s[1..], pat)
      case None =>
        None
      case Some(k) =>
        Some(k + 1)
  }

  /** `str::rfind`: the last index holding one of `pat`. */
  function RFind(s: string, pat: string): (r: Option<nat>)
    ensures r.None? <==> Free(s, pat)
    ensures r.Some? ==> r.value < |s| && s[r.value] in pat
    ensures r.Some? ==> forall i :: r.value < i < |s| ==> s[i] !in pat
  {
    if s == "" then None
    else
      var n := |s| - 1;
      if s[n] in pat then Some(n)
      else
        match RFind(s[..n], pat)
        case None => None
        case Some(k) => Some(k)
  }

  /** The first delimiter splits a text whose left part is free of delimiters. */
  lemma FindSplits(a: string, c: char, b: string, pat: string)
    requires Free(a, pat) && c in pat
    ensures Find(a + [c] + b, pat) == Some(|a|)
    ensures (a + [c] + b)[..|a|] == a && (a + [c] + b)[|a| + 1..] == b
  {
    var s := a + [c] + b;
    assert s[|a|] == c && s[..|a|] == a;
  }

  lemma RFindIs(s: string, pat: string, k: nat)
    requires k < |s| && s[k] in pat
    requires forall i :: k < i < |s| ==> s[i] !in pat
    ensures RFind(s, pat) == Some(k)
  {
  }

  /** The last delimiter splits a text whose right part is free of delimiters. */
  lemma {:induction false} RFindSplits(a: string, c: char, b: string, pat: string)
    requires Free(b, pat) && c in pat
    ensures RFind(a + [c] + b, pat) == Some(|a|)
    ensures (a + [c] + b)[..|a|] == a && (a + [c] + b)[|a| + 1..] == b
  {
    hide RFind;
    var s := a + [c] + b;
    assert s[|a|] == c && s[|a| + 1..] == b && s[..|a|] == a;
    forall i | |a| < i < |s| ensures s[i] !in pat {
      assert s[i] == b[i - |a| - 1];
    }
    RFindIs(s, pat, |a|);
  }

  /** `str::split` on one character. The empty text has one empty piece. */
  function Split(s: string, c: char): (r: seq<string>)
    ensures |r| > 0
    ensures forall i :: 0 <= i < |r| ==> c !in r[i]
    decreases |s|
  {
    match Find(s, [c])
    case None => [s]
    case Some(k) => [s[..k]] + Split(s[k + 1..], c)
  }

  /** The inverse of `Split`. */
  function Join(parts: seq<string>, c: char): string
    requires |parts| > 0
  {
    if |parts| == 1 then parts[0] else parts[0] + [c] + Join(parts[1..], c)
  }

  lemma {:induction false} SplitJoin(parts: seq<string>, c: char)
    requires |parts| > 0
    requires forall i :: 0 <= i < |parts| ==> c !in parts[i]
    ensures Split(Join(parts, c), c) == parts
  {
    if |parts| == 1 {
      assert Free(parts[0], [c]);
    } else {
      FindSplits(parts[0], c, Join(parts[1..], c), [c]);
      SplitJoin(parts[1..], c);
    }
  }

  lemma {:induction false} JoinSplit(s: string, c: char)
    ensures Join(Split(s, c), c) == s
    decreases |s|
  {
    hide Find;
    match Find(s, [c])
    case None =>
    case Some(k) =>
      var rest := Split(s[k + 1..], c);
      JoinSplit(s[k + 1..], c);
      assert Split(s, c) == [s[..k]] + rest && ([s[..k]] + rest)[1..] == rest;
      assert s == s[..k] + [c] + s[k + 1..];
  }

  // ----- trimming -----

  /** Length of the white-space character (Unicode property, UTF-8 encoded) that `s` starts with. */
  function SpaceAtStart(s: string): (n: nat)
    ensures n <= |s|
  {
    if |s| >= 1 && (s[0] == ' ' || '\t' <= s[0] <= '\r') then 1
    else if |s| >= 2 && IsSpace2(s[0], s[1]) then 2
    else if |s| >= 3 && IsSpace3(s[0], s[1], s[2]) then 3
    else 0
  }

  /** Length of the white-space character that `s` ends with. */
  function SpaceAtEnd(s: string): (n: nat)
    ensures n <= |s|
  {
    var n := |s|;
    if n >= 1 && (s[n - 1] == ' ' || '\t' <= s[n - 1] <= '\r') then 1
    else if n >= 2 && IsSpace2(s[n - 2], s[n - 1]) then 2
    else if n >= 3 && IsSpace3(s[n - 3], s[n - 2], s[n - 1]) then 3
    else 0
  }

  /** U+0085 and U+00A0. */
  predicate IsSpace2(a: char, b: char) {
    a as int == 0xC2 && (b as int == 0x85 || b as int == 0xA0)
  }

  /** U+1680, U+2000 to U+200A, U+2028, U+2029, U+202F, U+205F and U+3000. */
  predicate IsSpace3(a: char, b: char, c: char) {
    var x, y, z := a as int, b as int, c as int;
    || (x == 0xE1 && y == 0x9A && z == 0x80)
    || (x == 0xE2 && y == 0x80 && (0x80 <= z <= 0x8A || z == 0xA8 || z == 0xA9 || z == 0xAF))
    || (x == 0xE2 && y == 0x81 && z == 0x9F)
    || (x == 0xE3 && y == 0x80 && z == 0x80)
  }

  function TrimStart(s: string): (r: string)
    ensures SpaceAtStart(r) == 0
    decreases |s|
  {
    var n := SpaceAtStart(s);
    if n == 0 then s else TrimStart(s[n..])
  }

  function TrimEnd(s: string): (r: string)
    ensures SpaceAtEnd(r) == 0
    decreases |s|
  {
    var n := SpaceAtEnd(s);
    if n == 0 then s else TrimEnd(s[..|s| - n])
  }

  /** `str::trim`. */
  function Trim(s: string): string {
    TrimEnd(TrimStart(s))
  }

  /** `str::trim_matches` with one character. */
  function TrimChar(s: string, c: char): (r: string)
    ensures r != "" ==> r[0] != c && r[|r| - 1] != c
    decreases |s|
  {
    if s != "" && s[0] == c then TrimChar(s[1..], c)
    else if s != "" && s[|s| - 1] == c then TrimChar(s[..|s| - 1], c)
    else s
  }

  function Repeat(c: char, n: nat): string {
    if n == 0 then "" else [c] + Repeat(c, n - 1)
  }

  lemma {:induction false} RepeatSnoc(c: char, n: nat)
    ensures Repeat(c, n) + [c] == Repeat(c, n + 1)
  {
    if n > 0 {
      RepeatSnoc(c, n - 1);
    }
  }

  /** Only whole runs of the character go, from both ends. */
  lemma {:induction false} TrimCharKeeps(s: string, c: char) returns (a: nat, b: nat)
    ensures s == Repeat(c, a) + TrimChar(s, c) + Repeat(c, b)
    decreases |s|
  {
    if s != "" && s[0] == c {
      a, b := TrimCharKeeps(s[1..], c);
      a := a + 1;
      assert s == [c] + s[1..];
    } else if s != "" && s[|s| - 1] == c {
      a, b := TrimCharKeeps(s[..|s| - 1], c);
      RepeatSnoc(c, b);
      Assoc(Repeat(c, a) + TrimChar(s, c), Repeat(c, b), [c]);
      b := b + 1;
      assert s == s[..|s| - 1] + [c];
    } else {
      a, b := 0, 0;
    }
  }

  function LowerChar(c: char): char {
    if 'A' <= c <= 'Z' then (c as int + 32) as char else c
  }

  /** `str::to_ascii_lowercase`. */
  function Lower(s: string): (r: string)
    ensures |r| == |s|
    ensures forall i :: 0 <= i < |s| ==> r[i] == LowerChar(s[i])
  {
    if s == "" then "" else [LowerChar(s[0])] + Lower(s[1..])
  }

  // ----- decimal numbers -----

  predicate IsDigit(c: char) {
    '0' <= c <= '9'
  }

  predicate AllDigits(s: string) {
    forall i :: 0 <= i < |s| ==> IsDigit(s[i])
  }

  function Digit(d: nat): (c: char)
    requires d < 10
    ensures IsDigit(c) && c as int - '0' as int == d
  {
    ('0' as int + d) as char
  }

  /** How a number is printed: no sign, no leading zero. */
  function Decimal(n: nat): (s: string)
    ensures s != "" && AllDigits(s)
  {
    if n < 10 then [Digit(n)] else Decimal(n / 10) + [Digit(n % 10)]
  }

  function Value(s: string): nat
    requires AllDigits(s)
  {
    if s == "" then 0
    else 10 * Value(s[..|s| - 1]) + (s[|s| - 1] as int - '0' as int)
  }

  /** Unsigned `str::parse`: an optional `+`, then at least one digit; leading zeros are allowed. */
  function ParseUint(s: string, max: nat): (r: Option<nat>)
    ensures r.Some? ==> r.value <= max
  {
    var digits := if s != "" && s[0] == '+' then s[1..] else s;
    if digits != "" && AllDigits(digits) && Value(digits) <= max then Some(Value(digits)) else None
  }

  /** Signed 64-bit `str::parse`: an optional `+` or `-`. */
  function ParseI64(s: string): Option<int> {
    var negative := s != "" && s[0] == '-';
    if negative && (s[1..] == "" || s[1] == '+') then None
    else
      var magnitude := if negative then ParseUint(s[1..], 0x8000_0000_0000_0000)
                       else ParseUint(s, 0x7FFF_FFFF_FFFF_FFFF);
      if magnitude.None? then None
      else
        var v: int := if negative then -(magnitude.value as int) else magnitude.value;
        Some(v)
  }

  /** What an unsigned number may look like: at least one digit, an optional `+`, leading zeros counted
      for nothing. */
  lemma UintIff(s: string, max: nat, v: nat)
    ensures ParseUint(s, max) == Some(v) <==>
      v <= max && exists d :: d != "" && AllDigits(d) && Value(d) == v && (s == d || s == "+" + d)
  {
    if ParseUint(s, max) == Some(v) {
      var d := if s[0] == '+' then s[1..] else s;
      assert d != "" && AllDigits(d) && Value(d) == v;
      assert s[0] == '+' ==> s == "+" + d;
    }
    if d :| d != "" && AllDigits(d) && Value(d) == v && (s == d || s == "+" + d) {
      assert IsDigit(d[0]);
      assert s == "+" + d ==> s[1..] == d;
    }
  }

  lemma {:induction false} LeadingZero(d: string)
    requires AllDigits(d)
    ensures AllDigits("0" + d) && Value("0" + d) == Value(d)
    decreases |d|
  {
    var s := "0" + d;
    if d == "" {
      assert s[..0] == "" && Value(s) == 0;
    } else {
      LeadingZero(d[..|d| - 1]);
      assert s[..|s| - 1] == "0" + d[..|d| - 1];
    }
  }

  /** `s` writes the number `v` with digits `d` and an optional sign. */
  predicate Writes(s: string, d: string, v: int) {
    d != "" && AllDigits(d) && (((s == d || s == "+" + d) && v == Value(d)) || (s == "-" + d && v + Value(d) == 0))
  }

  /** Signed numbers: digits with an optional sign, within 64 bits. */
  lemma I64Iff(s: string, v: int)
    ensures ParseI64(s) == Some(v) <==>
      -0x8000_0000_0000_0000 <= v <= 0x7FFF_FFFF_FFFF_FFFF && exists d :: Writes(s, d, v)
  {
    hide Value;
    if ParseI64(s) == Some(v) {
      I64Sound(s, v);
    }
    if d :| Writes(s, d, v) {
      I64Complete(s, d, v);
    }
  }

  lemma I64Sound(s: string, v: int)
    requires ParseI64(s) == Some(v)
    ensures -0x8000_0000_0000_0000 <= v <= 0x7FFF_FFFF_FFFF_FFFF && exists d :: Writes(s, d, v)
  {
    hide Value;
    var d := if s[0] == '+' || s[0] == '-' then s[1..] else s;
    assert s[0] == '+' ==> s == "+" + d;
    assert s[0] == '-' ==> s == "-" + d;
    assert Writes(s, d, v);
  }

  lemma I64Complete(s: string, d: string, v: int)
    requires Writes(s, d, v)
    ensures -0x8000_0000_0000_0000 <= v <= 0x7FFF_FFFF_FFFF_FFFF ==> ParseI64(s) == Some(v)
  {
    hide Value;
    assert IsDigit(d[0]);
    assert s == "+" + d || s == "-" + d ==> s[1..] == d;
  }

  const U16_MAX: nat := 0xFFFF
  const U64_MAX: nat := 0xFFFF_FFFF_FFFF_FFFF

  /** Reading a printed number gives the number back. */
  lemma {:induction false} ValueOfDecimal(n: nat)
    ensures Value(Decimal(n)) == n
  {
    if n >= 10 {
      ValueOfDecimal(n / 10);
      var s := Decimal(n);
      assert s[..|s| - 1] == Decimal(n / 10);
    }
  }

  lemma DecimalParses(n: nat, max: nat)
    ensures ParseUint(Decimal(n), max) == if n <= max then Some(n) else None
  {
    ValueOfDecimal(n);
    assert IsDigit(Decimal(n)[0]);
  }

  /** A digit string without leading zero is the printed form of its value. */
  lemma {:induction false} DecimalOfValue(s: string)
    requires s != "" && AllDigits(s) && (|s| > 1 ==> s[0] != '0')
    ensures Decimal(Value(s)) == s
    ensures s[0] != '0' ==> Value(s) > 0
    decreases |s|
  {
    if |s| > 1 {
      var init := s[..|s| - 1];
      DecimalOfValue(init);
      var d := s[|s| - 1] as int - '0' as int;
      assert Value(s) == 10 * Value(init) + d;
      assert Value(s) / 10 == Value(init) && Value(s) % 10 == d;
      assert s == init + [s[|s| - 1]];
    } else {
      assert s[..0] == "";
      assert Value(s) == s[0] as int - '0' as int;
    }
  }

  /** Printed numbers: how many digits, and no leading zero. */
  lemma {:induction false} DecimalShape(n: nat)
    ensures n > 0 ==> Decimal(n)[0] != '0'
    ensures n < 10 ==> |Decimal(n)| == 1
    ensures 10 <= n < 100 ==> |Decimal(n)| == 2
    ensures 100 <= n < 1000 ==> |Decimal(n)| == 3
  {
    if n >= 10 {
      DecimalShape(n / 10);
      assert Decimal(n)[0] == Decimal(n / 10)[0];
    }
  }

  lemma DecimalFree(n: nat, pat: string)
    requires forall c :: c in pat ==> !IsDigit(c)
    ensures Free(Decimal(n), pat)
  {
  }
}

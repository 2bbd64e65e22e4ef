/** IPv4 literals as the standard library reads and prints them. */
module Ip {
  import opened Common
  import opened Text

  predicate IsOctets(o: seq<nat>) {
    |o| == 4 && forall i :: 0 <= i < 4 ==> o[i] < 256
  }

  /** One dotted-decimal field: one to three digits, no leading zero, below 256. */
  predicate IsOctetText(t: string) {
    && 1 <= |t| <= 3 && AllDigits(t)
    && (|t| > 1 ==> t[0] != '0')
    && Value(t) < 256
  }

  /** `Ipv4Addr::from_str`. */
  function ParseIpv4(s: string): (r: Option<seq<nat>>)
    ensures r.Some? ==> IsOctets(r.value)
  {
    var f := Split(s, '.');
    if |f| == 4 && IsOctetText(f[0]) && IsOctetText(f[1]) && IsOctetText(f[2]) && IsOctetText(f[3])
    then Some([Value(f[0]), Value(f[1]), Value(f[2]), Value(f[3])])
    else None
  }

  function Fields(o: seq<nat>): (f: seq<string>)
    requires IsOctets(o)
    ensures |f| == 4
  {
    [Decimal(o[0]), Decimal(o[1]), Decimal(o[2]), Decimal(o[3])]
  }

  /** `Display for Ipv4Addr`. */
  function FormatIpv4(o: seq<nat>): string
    requires IsOctets(o)
  {
    Join(Fields(o), '.')
  }

  lemma OctetText(n: nat)
    requires n < 256
    ensures IsOctetText(Decimal(n)) && Value(Decimal(n)) == n
    ensures '.' !in Decimal(n)
  {
    DecimalShape(n);
    ValueOfDecimal(n);
    DecimalFree(n, ".");
  }

  /** Printing then parsing gives the address back. */
  lemma ParseFormat(o: seq<nat>)
    requires IsOctets(o)
    ensures ParseIpv4(FormatIpv4(o)) == Some(o)
  {
    hide Decimal, Value, Join, Split, IsOctetText;
    forall i | 0 <= i < 4 ensures IsOctetText(Fields(o)[i]) && Value(Fields(o)[i]) == o[i] && '.' !in Fields(o)[i] {
      OctetText(o[i]);
    }
    SplitJoin(Fields(o), '.');
    assert [Value(Fields(o)[0]), Value(Fields(o)[1]), Value(Fields(o)[2]), Value(Fields(o)[3])] == o;
  }

  /** An accepted literal is the printed form of its address: IPv4 text is canonical. */
  lemma FormatParse(s: string)
    requires ParseIpv4(s).Some?
    ensures FormatIpv4(ParseIpv4(s).value) == s
  {
    var f := Split(s, '.');
    JoinSplit(s, '.');
    DecimalOfValue(f[0]);
    DecimalOfValue(f[1]);
    DecimalOfValue(f[2]);
    DecimalOfValue(f[3]);
    assert Fields(ParseIpv4(s).value) == f;
  }

  /** A printed address is digits and dots. */
  lemma Ipv4Free(o: seq<nat>, pat: string)
    requires IsOctets(o) && forall c :: c in pat ==> !IsDigit(c) && c != '.'
    ensures Free(FormatIpv4(o), pat) && FormatIpv4(o) != "" && IsDigit(FormatIpv4(o)[0])
  {
    DecimalFree(o[0], pat);
    DecimalFree(o[1], pat);
    DecimalFree(o[2], pat);
    DecimalFree(o[3], pat);
    hide Decimal;
    var f := Fields(o);
    JoinFree(f, pat);
    assert FormatIpv4(o) == f[0] + ['.'] + Join(f[1..], '.');
  }

  lemma {:induction false} JoinFree(f: seq<string>, pat: string)
    requires |f| > 0 && '.' !in pat && forall i :: 0 <= i < |f| ==> Free(f[i], pat)
    ensures Free(Join(f, '.'), pat)
  {
    if |f| > 1 {
      JoinFree(f[1..], pat);
      FreeConcat(f[0], ['.'], pat);
      FreeConcat(f[0] + ['.'], Join(f[1..], '.'), pat);
    }
  }
}

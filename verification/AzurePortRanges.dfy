/** Azure port ranges, printed as "from-to" and read back by cutting at '-'. */
module AzurePortRanges {
  import opened Outcomes
  import opened Text
  import opened Decimal

  datatype PortRange = PortRange(from: int, to: int)

  const MAX_UINT16: int := 65535

  /** `strconv.Atoi` with its error ignored. */
  function Atoi(s: string): int {
    ParseInt(s).Value()
  }

  function ConvertPortRange(text: Option<string>): PortRange {
    if text.None? then PortRange(0, 0)
    else if text.value == "*" || text.value == "" then PortRange(0, MAX_UINT16)
    else
      var tokens := Split(text.value, "-");
      if |tokens| == 1 then PortRange(Atoi(tokens[0]), MAX_UINT16)
      else if |tokens| == 2 then PortRange(Atoi(tokens[0]), Atoi(tokens[1]))
      else PortRange(0, 0)
  }

  function ConvertAzPortRange(r: PortRange): string {
    Format(r.from) + "-" + Format(r.to)
  }

  /** A text without '-' is not cut. */
  lemma {:induction false} NoDash(s: string)
    requires '-' !in s
    ensures Index(s, "-") == None && Split(s, "-") == [s]
  {
    if s != "" {
      NoDash(s[1..]);
      assert s[..1] == [s[0]];
    }
  }

  /** A text without '-' is cut off whole in front of the first '-'. */
  lemma {:induction false} CutAtDash(t: string, rest: string)
    requires '-' !in t
    ensures Split(t + "-" + rest, "-") == [t] + Split(rest, "-")
  {
    DashIndex(t);
    FirstToken(t, "-", rest);
  }

  lemma {:induction false} DashIndex(t: string)
    requires '-' !in t
    ensures CutsAfter(t, "-")
  {
    var s := t + "-";
    if t != "" {
      DashIndex(t[1..]);
      assert s[1..] == t[1..] + "-";
      assert s[..1] == [t[0]];
    }
  }

  lemma DigitsHaveNoDash(n: nat)
    ensures '-' !in Digits(n)
  {
  }

  /** A negative number is printed with a '-' that is cut at. */
  lemma NegativeTokens(n: int, rest: string)
    requires n < 0
    ensures Split(Format(n) + "-" + rest, "-") == ["", Digits(-n)] + Split(rest, "-")
  {
    DigitsHaveNoDash(-n);
    SignedTokens(Digits(-n), rest);
  }

  lemma SignedTokens(digits: string, rest: string)
    requires '-' !in digits
    ensures Split("-" + digits + "-" + rest, "-") == ["", digits] + Split(rest, "-")
  {
    var tail := digits + "-" + rest;
    SignInFront(digits, rest);
    CutAtDash("", tail);
    CutAtDash(digits, rest);
    TwoInFront("", digits, Split(rest, "-"));
  }

  lemma SignInFront(digits: string, rest: string)
    ensures "-" + digits + "-" + rest == "" + "-" + (digits + "-" + rest)
  {
  }

  lemma TwoInFront(a: string, b: string, tokens: seq<string>)
    ensures [a] + ([b] + tokens) == [a, b] + tokens
  {
  }

  lemma LastNumberTokens(n: int)
    ensures |Split(Format(n), "-")| == if n < 0 then 2 else 1
    ensures n >= 0 ==> Split(Format(n), "-") == [Format(n)]
  {
    if n < 0 {
      DigitsHaveNoDash(-n);
      assert Format(n) == "" + "-" + Digits(-n);
      CutAtDash("", Digits(-n));
      NoDash(Digits(-n));
    } else {
      DigitsHaveNoDash(n);
      NoDash(Format(n));
    }
  }

  lemma RangeTokens(r: PortRange)
    ensures var tokens := Split(ConvertAzPortRange(r), "-");
            && (r.from >= 0 && r.to >= 0 ==> tokens == [Format(r.from), Format(r.to)])
            && (r.from < 0 || r.to < 0 ==> |tokens| >= 3)
  {
    LastNumberTokens(r.to);
    if r.from < 0 {
      NegativeTokens(r.from, Format(r.to));
    } else {
      DigitsHaveNoDash(r.from);
      CutAtDash(Format(r.from), Format(r.to));
    }
  }

  /** What any text is read as: all ports, the ports from one on, from one to another, or just port 0. */
  lemma OtherRanges(text: string)
    ensures ConvertPortRange(None) == PortRange(0, 0)
    ensures ConvertPortRange(Some("*")) == PortRange(0, 65535) == ConvertPortRange(Some(""))
    ensures '-' !in text && text != "" && text != "*" ==>
              ConvertPortRange(Some(text)) == PortRange(ParseInt(text).Value(), 65535)
    ensures |Split(text, "-")| == 2 ==>
              ConvertPortRange(Some(text))
              == PortRange(ParseInt(Split(text, "-")[0]).Value(), ParseInt(Split(text, "-")[1]).Value())
    ensures |Split(text, "-")| >= 3 ==> ConvertPortRange(Some(text)) == PortRange(0, 0)
  {
    if '-' !in text {
      NoDash(text);
    }
    NoDash("*");
    NoDash("");
  }

  /** One number is read as the ports from it to the last. */
  lemma SinglePort(n: int)
    requires 0 <= n < 0x8000_0000_0000_0000
    ensures ConvertPortRange(Some(Format(n))) == PortRange(n, 65535)
  {
    DigitsHaveNoDash(n);
    ParseIntOfFormat(n);
    OtherRanges(Format(n));
    assert IsDigit(Format(n)[0]);
  }

  /** The round trip holds exactly for ranges without a negative end, on all 64-bit ends. */
  lemma PortRangeRoundTrip(r: PortRange)
    requires Fits(r.from) && Fits(r.to)
    ensures ConvertPortRange(Some(ConvertAzPortRange(r))) == r <==> r.from >= 0 && r.to >= 0
    ensures r.from < 0 || r.to < 0 ==> ConvertPortRange(Some(ConvertAzPortRange(r))) == PortRange(0, 0)
  {
    var text := ConvertAzPortRange(r);
    RangeTokens(r);
    assert |text| >= 3;
    ParseIntOfFormat(r.from);
    ParseIntOfFormat(r.to);
  }

  /** Different ranges without a negative end are printed differently. */
  lemma PortRangeIsInjective(a: PortRange, b: PortRange)
    requires Fits(a.from) && Fits(a.to) && Fits(b.from) && Fits(b.to)
    requires a.from >= 0 && a.to >= 0 && b.from >= 0 && b.to >= 0
    requires ConvertAzPortRange(a) == ConvertAzPortRange(b)
    ensures a == b
  {
    PortRangeRoundTrip(a);
    PortRangeRoundTrip(b);
  }
}

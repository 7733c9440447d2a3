/** The scanner of the AWS template decoder: the first integer written somewhere in a text. */
module AwsTemplates {
  import opened Decimal

  /** A character at which a number can start. */
  predicate Starts(c: char) {
    IsDigit(c) || c == '+' || c == '-'
  }

  /** The length of the digits that `s` starts with. */
  function DigitRun(s: string): (n: nat)
    ensures n <= |s| && AllDigits(s[..n])
    ensures n < |s| ==> !IsDigit(s[n])
  {
    if s == "" || !IsDigit(s[0]) then 0
    else
      assert s[..1 + DigitRun(s[1..])] == [s[0]] + s[1..][..DigitRun(s[1..])];
      1 + DigitRun(s[1..])
  }

  /** The result of the scan: the text from the first digit or sign to the end of the digits after it. */
  function Scan(s: string): ParseResult {
    if s == "" then BadSyntax
    else if Starts(s[0]) then ParseInt(s[..1 + DigitRun(s[1..])])
    else Scan(s[1..])
  }

  /** `parseInt`; its own error, for a text without digit or sign, is `BadSyntax` too. */
  method ParseEmbedded(s: string) returns (r: ParseResult)
    ensures r == Scan(s)
  {
    var i := 0;
    while i < |s|
      invariant 0 <= i <= |s|
      invariant Scan(s) == Scan(s[i..])
    {
      ScanFrom(s, i);
      if Starts(s[i]) {
        break;
      }
      i := i + 1;
    }
    var start := i;
    if start >= |s| {
      return BadSyntax;
    }
    ScanFrom(s, start);
    var stop := SkipDigits(s, start + 1);
    if stop - start <= 0 {
      assert false;  // the test in the source is never true
    }
    return ParseInt(s[start..stop]);
  }

  /** The second loop. */
  method SkipDigits(s: string, from: nat) returns (i: nat)
    requires from <= |s|
    ensures i == from + DigitRun(s[from..])
  {
    i := from;
    while i < |s|
      invariant from <= i <= |s|
      invariant DigitRun(s[from..]) == i - from + DigitRun(s[i..])
    {
      DigitRunFrom(s, i);
      if !IsDigit(s[i]) {
        break;
      }
      i := i + 1;
    }
  }

  lemma ScanFrom(s: string, i: nat)
    requires i < |s|
    ensures Scan(s[i..]) == if Starts(s[i]) then ParseInt(s[i..i + 1 + DigitRun(s[i + 1..])]) else Scan(s[i + 1..])
  {
    assert s[i..][1..] == s[i + 1..];
    SliceOfTail(s, i, 1 + DigitRun(s[i + 1..]));
  }

  lemma SliceOfTail(s: string, i: nat, n: nat)
    requires i + n <= |s|
    ensures s[i..][..n] == s[i..i + n]
  {
  }

  lemma DigitRunFrom(s: string, i: nat)
    requires i < |s|
    ensures DigitRun(s[i..]) == if IsDigit(s[i]) then 1 + DigitRun(s[i + 1..]) else 0
  {
    assert s[i..][1..] == s[i + 1..];
  }

  // ---------------------------------------------------------------- what the scan finds

  predicate NothingStarts(s: string) {
    forall i :: 0 <= i < |s| ==> !Starts(s[i])
  }

  predicate StopsDigits(s: string) {
    s == "" || !IsDigit(s[0])
  }

  lemma {:induction false} ScanSkips(pre: string, s: string)
    requires NothingStarts(pre)
    ensures Scan(pre + s) == Scan(s)
  {
    if pre == "" {
      assert pre + s == s;
    } else {
      assert (pre + s)[1..] == pre[1..] + s;
      ScanSkips(pre[1..], s);
    }
  }

  lemma {:induction false} DigitRunOf(digits: string, suf: string)
    requires AllDigits(digits) && StopsDigits(suf)
    ensures DigitRun(digits + suf) == |digits|
  {
    if digits == "" {
      assert digits + suf == suf;
    } else {
      assert (digits + suf)[1..] == digits[1..] + suf;
      DigitRunOf(digits[1..], suf);
    }
  }

  lemma ScanDigits(digits: string, suf: string)
    requires AllDigits(digits) && digits != "" && StopsDigits(suf)
    ensures Scan(digits + suf) == ParseInt(digits)
  {
    var s := digits + suf;
    assert s[1..] == digits[1..] + suf;
    DigitRunOf(digits[1..], suf);
    assert s[..|digits|] == digits;
  }

  lemma ScanSigned(sign: string, digits: string, suf: string)
    requires IsSign(sign) && sign != "" && AllDigits(digits) && StopsDigits(suf)
    ensures Scan(sign + digits + suf) == ParseInt(sign + digits)
  {
    var s := sign + digits + suf;
    assert s[1..] == digits + suf;
    DigitRunOf(digits, suf);
    assert s[..1 + |digits|] == sign + digits;
  }

  /** The token that the scan cuts out of `sign + digits + suf`. */
  lemma ScanToken(sign: string, digits: string, suf: string)
    requires IsSign(sign) && AllDigits(digits) && StopsDigits(suf)
    requires sign + digits != ""
    ensures Scan(sign + digits + suf) == ParseInt(sign + digits)
  {
    if sign == "" {
      assert sign + digits == digits;
      ScanDigits(digits, suf);
    } else {
      ScanSigned(sign, digits, suf);
    }
  }

  /** A number with its surroundings is read as its value, or as out of range. */
  lemma EmbeddedNumber(pre: string, sign: string, digits: string, suf: string)
    requires NothingStarts(pre) && IsSign(sign) && AllDigits(digits) && digits != "" && StopsDigits(suf)
    ensures var n := Signed(sign, digits);
            Scan(pre + sign + digits + suf) == if Fits(n) then Parsed(n) else OutOfRange(Clamp(n))
  {
    Regrouped(pre, sign, digits, suf);
    ScanSkips(pre, sign + digits + suf);
    ScanToken(sign, digits, suf);
    ParseIntOfDigits(sign, digits);
  }

  lemma Regrouped(a: string, b: string, c: string, d: string)
    ensures a + b + c + d == a + (b + c + d)
    ensures a + b + c + d == a + (b + c) + d
  {
  }

  /** Every printed 64-bit number is found again in a text where nothing else starts before it. */
  lemma EmbeddedFormat(pre: string, n: int, suf: string)
    requires NothingStarts(pre) && Fits(n) && StopsDigits(suf)
    ensures Scan(pre + Format(n) + suf) == Parsed(n)
  {
    if n < 0 {
      NumberOfPrinted(-n);
      EmbeddedNumber(pre, "-", Digits(-n), suf);
      Regrouped(pre, "-", Digits(-n), suf);
    } else {
      NumberOfPrinted(n);
      EmbeddedNumber(pre, "", Digits(n), suf);
      Unsigned(pre, Digits(n));
    }
  }

  lemma Unsigned(pre: string, digits: string)
    ensures pre + "" + digits == pre + digits
  {
  }

  /** Scanning fails on a text in which nothing starts a number. */
  lemma {:induction false} NothingFound(s: string)
    requires NothingStarts(s)
    ensures Scan(s) == BadSyntax
  {
    assert s + "" == s;
    ScanSkips(s, "");
  }

  /** Scanning fails if the first sign is not followed by a digit, whatever comes later. */
  lemma SignWithoutDigits(pre: string, sign: string, suf: string)
    requires NothingStarts(pre) && IsSign(sign) && sign != "" && StopsDigits(suf)
    ensures Scan(pre + sign + suf) == BadSyntax
  {
    assert pre + sign + suf == pre + (sign + "" + suf);
    ScanSkips(pre, sign + "" + suf);
    ScanToken(sign, "", suf);
    assert sign + "" == sign && sign[1..] == "";
  }

  /** A text taken apart as the scan takes it apart. */
  datatype Parts = Parts(pre: string, sign: string, digits: string, suf: string) {
    predicate Of(s: string) {
      && s == pre + sign + digits + suf
      && NothingStarts(pre) && IsSign(sign) && AllDigits(digits) && StopsDigits(suf)
      && (sign + digits == "" ==> suf == "")
    }
  }

  function PartsOf(s: string): Parts {
    if s == "" then Parts("", "", "", "")
    else if IsDigit(s[0]) then Parts("", "", s[..DigitRun(s)], s[DigitRun(s)..])
    else if Starts(s[0]) then Parts("", s[..1], s[1..][..DigitRun(s[1..])], s[1..][DigitRun(s[1..])..])
    else
      var p := PartsOf(s[1..]);
      p.(pre := s[..1] + p.pre)
  }

  lemma {:induction false} PartsExist(s: string)
    ensures PartsOf(s).Of(s)
  {
    if s == "" {
    } else if IsDigit(s[0]) {
      DigitsAreParts(s);
    } else if Starts(s[0]) {
      SignIsParts(s);
    } else {
      PartsExist(s[1..]);
      SkippedIsParts(s[0], s[1..], PartsOf(s[1..]));
      assert s == [s[0]] + s[1..] && s[..1] == [s[0]];
    }
  }

  lemma DigitsAreParts(s: string)
    requires s != "" && IsDigit(s[0])
    ensures Parts("", "", s[..DigitRun(s)], s[DigitRun(s)..]).Of(s)
  {
    assert s == "" + "" + s[..DigitRun(s)] + s[DigitRun(s)..];
  }

  lemma SignIsParts(s: string)
    requires s != "" && Starts(s[0]) && !IsDigit(s[0])
    ensures Parts("", s[..1], s[1..][..DigitRun(s[1..])], s[1..][DigitRun(s[1..])..]).Of(s)
  {
    var t, n := s[1..], DigitRun(s[1..]);
    assert t == t[..n] + t[n..];
    assert s == "" + s[..1] + t[..n] + t[n..];
    assert s[..1] == "+" || s[..1] == "-";
  }

  lemma SkippedIsParts(c: char, t: string, p: Parts)
    requires !Starts(c) && p.Of(t)
    ensures p.(pre := [c] + p.pre).Of([c] + t)
  {
    assert [c] + (p.pre + p.sign + p.digits + p.suf) == ([c] + p.pre) + p.sign + p.digits + p.suf;
  }

  /**
   The scan on every text: it gives a number exactly when the first thing that can start one
   is a sign and digits, or digits, whose value has 64 bits.
   */
  lemma ScanIsExact(s: string)
    ensures var p := PartsOf(s);
            && p.Of(s)
            && (Scan(s).Parsed? <==> p.digits != "" && Fits(Signed(p.sign, p.digits)))
            && (Scan(s).Parsed? ==> Scan(s).n == Signed(p.sign, p.digits))
            && (Scan(s).BadSyntax? <==> p.digits == "")
  {
    var p := PartsOf(s);
    PartsExist(s);
    if p.digits != "" {
      EmbeddedNumber(p.pre, p.sign, p.digits, p.suf);
    } else if p.sign != "" {
      assert p.pre + p.sign + p.digits + p.suf == p.pre + p.sign + p.suf;
      SignWithoutDigits(p.pre, p.sign, p.suf);
    } else {
      assert s == p.pre;
      NothingFound(s);
    }
  }

  /** The scan in characters: what it skips, where it starts, what it reads and where it stops. */
  lemma ScanInCharacters(pre: string, sign: string, digits: string, suf: string)
    requires forall i :: 0 <= i < |pre| ==> !('0' <= pre[i] <= '9') && pre[i] != '+' && pre[i] != '-'
    requires sign == "" || sign == "+" || sign == "-"
    requires digits != "" && forall i :: 0 <= i < |digits| ==> '0' <= digits[i] <= '9'
    requires suf == "" || !('0' <= suf[0] <= '9')
    ensures var n: int := if sign == "-" then -(NumberOf(digits) as int) else NumberOf(digits);
            Scan(pre + sign + digits + suf) ==
            if n >= 0x8000_0000_0000_0000 then OutOfRange(0x7FFF_FFFF_FFFF_FFFF)
            else if n < -0x8000_0000_0000_0000 then OutOfRange(-0x8000_0000_0000_0000)
            else Parsed(n)
  {
    EmbeddedNumber(pre, sign, digits, suf);
  }

  /** Every text is of that form, or has no digits where they are looked for, and then fails. */
  lemma ScanOfEveryText(s: string)
    ensures var p := PartsOf(s);
            && s == p.pre + p.sign + p.digits + p.suf
            && (forall i :: 0 <= i < |p.pre| ==>
                  !('0' <= p.pre[i] <= '9') && p.pre[i] != '+' && p.pre[i] != '-')
            && (p.sign == "" || p.sign == "+" || p.sign == "-")
            && (forall i :: 0 <= i < |p.digits| ==> '0' <= p.digits[i] <= '9')
            && (p.suf == "" || !('0' <= p.suf[0] <= '9'))
            && (p.sign == "" && p.digits == "" ==> p.suf == "")
            && (p.digits == "" <==> Scan(s) == BadSyntax)
  {
    ScanIsExact(s);
  }
}

/** Decimal printing (`%d`) and reading (`strconv.ParseInt` in base 10 with 64 bits, `strconv.Atoi`). */
module Decimal {
  const MAX_UINT64: int := 0xFFFF_FFFF_FFFF_FFFF
  const TWO_63: int := 0x8000_0000_0000_0000

  /** A value in the range of `int64`. */
  predicate Fits(n: int) {
    -TWO_63 <= n < TWO_63
  }

  predicate IsDigit(c: char) {
    '0' <= c <= '9'
  }

  predicate AllDigits(s: string) {
    forall i :: 0 <= i < |s| ==> IsDigit(s[i])
  }

  function DigitValue(c: char): nat
    requires IsDigit(c)
  {
    c as int - '0' as int
  }

  function DigitOf(d: nat): (c: char)
    requires d < 10
    ensures IsDigit(c) && DigitValue(c) == d
  {
    '0' + d as char
  }

  /** The number that a string of digits denotes; 0 for no digit. */
  function NumberOf(s: string): nat
    requires AllDigits(s)
  {
    if s == "" then 0 else 10 * NumberOf(s[..|s| - 1]) + DigitValue(s[|s| - 1])
  }

  /** The digits of a number, without leading zeros. */
  function Digits(n: nat): (s: string)
    ensures AllDigits(s) && s != ""
  {
    if n < 10 then [DigitOf(n)] else Digits(n / 10) + [DigitOf(n % 10)]
  }

  /** `%d`. */
  function Format(n: int): (s: string)
    ensures s != ""
  {
    if n < 0 then "-" + Digits(-n) else Digits(n)
  }

  /** What reading gives: a value, or an error that comes with the value 0 or with the nearest bound. */
  datatype ParseResult =
    | Parsed(n: int)
    | BadSyntax
    | OutOfRange(clamped: int)
  {
    /** The value that is there whether or not the caller looks at the error. */
    function Value(): int {
      match this
      case Parsed(n) => n
      case BadSyntax => 0
      case OutOfRange(c) => c
    }
  }

  /** The loop of `strconv.ParseUint`, with `acc` read so far; it stops at the first overflow. */
  function ReadUint(s: string, acc: nat): ParseResult {
    if s == "" then Parsed(acc)
    else if !IsDigit(s[0]) then BadSyntax
    else
      var next := 10 * acc + DigitValue(s[0]);
      if next > MAX_UINT64 then OutOfRange(MAX_UINT64) else ReadUint(s[1..], next)
  }

  function ParseUint(s: string): ParseResult {
    if s == "" then BadSyntax else ReadUint(s, 0)
  }

  function ParseInt(s: string): ParseResult {
    if s == "" then BadSyntax
    else
      var negative := s[0] == '-';
      var unsigned := ParseUint(if negative || s[0] == '+' then s[1..] else s);
      if unsigned.BadSyntax? then BadSyntax
      else if !negative && unsigned.Value() >= TWO_63 then OutOfRange(TWO_63 - 1)
      else if negative && unsigned.Value() > TWO_63 then OutOfRange(-TWO_63)
      else Parsed(if negative then -unsigned.Value() else unsigned.Value())
  }

  /** Reading in two parts. */
  lemma {:induction false} ReadUintInParts(a: string, b: string, acc: nat)
    requires ReadUint(a, acc).Parsed?
    requires ReadUint(a, acc).n >= 0
    ensures ReadUint(a + b, acc) == ReadUint(b, ReadUint(a, acc).n)
  {
    if a == "" {
      assert a + b == b;
    } else {
      assert (a + b)[1..] == a[1..] + b;
      ReadUintInParts(a[1..], b, 10 * acc + DigitValue(a[0]));
    }
  }

  /** An overflow is found wherever it is, whatever follows. */
  lemma {:induction false} ReadUintOverflows(a: string, b: string, acc: nat)
    requires ReadUint(a, acc).OutOfRange?
    ensures ReadUint(a + b, acc) == OutOfRange(MAX_UINT64)
  {
    assert (a + b)[1..] == a[1..] + b;
    var next := 10 * acc + DigitValue(a[0]);
    if next <= MAX_UINT64 {
      ReadUintOverflows(a[1..], b, next);
    }
  }

  /** Reading digits gives their number, or an overflow if it needs more than 64 bits. */
  lemma {:induction false} ReadUintOfDigits(s: string)
    requires AllDigits(s)
    ensures ReadUint(s, 0) == if NumberOf(s) <= MAX_UINT64 then Parsed(NumberOf(s)) else OutOfRange(MAX_UINT64)
  {
    if s != "" {
      var init, last := s[..|s| - 1], s[|s| - 1..];
      assert s == init + last;
      ReadUintOfDigits(init);
      if NumberOf(init) <= MAX_UINT64 {
        ReadUintInParts(init, last, 0);
        assert last[1..] == "";
      } else {
        ReadUintOverflows(init, last, 0);
      }
    }
  }

  lemma {:induction false} NumberOfPrinted(n: nat)
    ensures NumberOf(Digits(n)) == n
  {
    var s := Digits(n);
    if n < 10 {
      assert s[..0] == "";
    } else {
      NumberOfPrinted(n / 10);
      assert s[..|s| - 1] == Digits(n / 10);
    }
  }

  /** The number of a sign and some digits. */
  function Signed(sign: string, digits: string): int
    requires AllDigits(digits)
  {
    if sign == "-" then -(NumberOf(digits) as int) else NumberOf(digits)
  }

  predicate IsSign(sign: string) {
    sign == "" || sign == "+" || sign == "-"
  }

  /** The nearest value in range. */
  function Clamp(n: int): int {
    if n >= TWO_63 then TWO_63 - 1 else if n < -TWO_63 then -TWO_63 else n
  }

  /** A sign and digits, with or without leading zeros, are read as their number, or out of range. */
  lemma ParseIntOfDigits(sign: string, digits: string)
    requires IsSign(sign) && AllDigits(digits) && digits != ""
    ensures var n := Signed(sign, digits);
            ParseInt(sign + digits) == if Fits(n) then Parsed(n) else OutOfRange(Clamp(n))
  {
    ReadUintOfDigits(digits);
    if sign == "" {
      assert sign + digits == digits;
      assert IsDigit(digits[0]);
    } else {
      assert (sign + digits)[1..] == digits;
    }
  }

  /** Printing and reading are inverse on all 64-bit values. */
  lemma ParseIntOfFormat(n: int)
    requires Fits(n)
    ensures ParseInt(Format(n)) == Parsed(n)
  {
    NumberOfPrinted(if n < 0 then -n else n);
    if n < 0 {
      ParseIntOfDigits("-", Digits(-n));
    } else {
      ParseIntOfDigits("", Digits(n));
      assert "" + Digits(n) == Digits(n);
    }
  }

  /** The digits, one by one: each is the character of its value, and a number ends in its last one. */
  lemma DigitsOneByOne(n: nat, d: nat)
    requires d < 10
    ensures Digits(d) == ["0123456789"[d]]
    ensures n > 0 ==> Digits(10 * n + d) == Digits(n) + ["0123456789"[d]]
    ensures Format(n) == Digits(n) && (n > 0 ==> Format(-(n as int)) == "-" + Digits(n))
  {
    assert (10 * n + d) / 10 == n && (10 * n + d) % 10 == d;
  }

  /** Which texts are read at all, and the bounds that others are clamped to. */
  lemma ParseIntLimits(sign: string, digits: string)
    requires sign == "" || sign == "+" || sign == "-"
    requires digits != "" && forall i :: 0 <= i < |digits| ==> '0' <= digits[i] <= '9'
    ensures var n: int := if sign == "-" then -(NumberOf(digits) as int) else NumberOf(digits);
            ParseInt(sign + digits) ==
            if n >= 0x8000_0000_0000_0000 then OutOfRange(0x7FFF_FFFF_FFFF_FFFF)
            else if n < -0x8000_0000_0000_0000 then OutOfRange(-0x8000_0000_0000_0000)
            else Parsed(n)
  {
    ParseIntOfDigits(sign, digits);
  }

  /** What is not a number: nothing at all, a sign alone, or digits that something else follows. */
  lemma ParseIntRejects(sign: string, digits: string, rest: string)
    requires sign == "" || sign == "+" || sign == "-"
    requires forall i :: 0 <= i < |digits| ==> '0' <= digits[i] <= '9'
    requires NumberOf(digits) <= 0xFFFF_FFFF_FFFF_FFFF
    requires rest == "" ==> digits == ""
    requires rest != "" ==> !('0' <= rest[0] <= '9') && (sign + digits == "" ==> rest[0] != '+' && rest[0] != '-')
    ensures ParseInt(sign + digits + rest) == BadSyntax
  {
    var unsigned := digits + rest;
    ReadUintRejects(digits, rest);
    Regrouped(sign, digits, rest);
    if sign == "" {
      assert sign + unsigned == unsigned;
      assert unsigned != "" ==> unsigned[0] == if digits == "" then rest[0] else digits[0];
    } else {
      assert (sign + unsigned)[1..] == unsigned;
    }
  }

  lemma Regrouped(a: string, b: string, c: string)
    ensures a + b + c == a + (b + c)
  {
  }

  lemma ReadUintRejects(digits: string, rest: string)
    requires AllDigits(digits) && NumberOf(digits) <= MAX_UINT64
    requires rest == "" ==> digits == ""
    requires rest != "" ==> !IsDigit(rest[0])
    ensures ParseUint(digits + rest) == BadSyntax
  {
    if digits + rest != "" {
      ReadUintOfDigits(digits);
      ReadUintInParts(digits, rest, 0);
    }
  }
}

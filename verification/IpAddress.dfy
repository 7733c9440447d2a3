/**
 Addresses as `iputils/ip.go` handles them: byte strings of length 4 or 16, moved by one
 with big-integer arithmetic whose digits are written over a buffer that is not blank.
 The 16-byte form of an IPv4 address is that of section 2.5.5.2 of RFC 4291.
 */
module IpAddress {
  import opened BigEndian
  import opened Outcomes

  /** The first twelve bytes of an IPv4-mapped address. */
  const V4_IN_V6_PREFIX: seq<Byte> := [0, 0, 0, 0, 0, 0, 0, 0, 0, 0, 0xFF, 0xFF]

  /** `net.IPv4(0xff, 0xff, 0xff, 0xff)`: what the buffer holds before it is overwritten. */
  const FILLER: seq<Byte> := V4_IN_V6_PREFIX + [0xFF, 0xFF, 0xFF, 0xFF]

  const TWO_32: nat := 0x1_0000_0000
  const TWO_40: nat := 0x100_0000_0000
  const TWO_48: nat := 0x1_0000_0000_0000
  const TWO_128: nat := 0x1_0000_0000_0000_0000_0000_0000_0000_0000

  /** The IPv4-mapped addresses are the numbers from here up to 2^48. */
  const MAPPED_LOW: nat := 0xFFFF_0000_0000

  /** `net.IP.To16`; the empty string stands for nil. */
  function To16(ip: seq<Byte>): seq<Byte> {
    if |ip| == 4 then V4_IN_V6_PREFIX + ip
    else if |ip| == 16 then ip
    else []
  }

  /** `net.IP.To4`: the IPv4 address in `ip`, if there is one. */
  function To4(ip: seq<Byte>): Option<seq<Byte>> {
    if |ip| == 4 then Some(ip)
    else if |ip| == 16 && IsMarked(ip) then Some(ip[12..])
    else None
  }

  /** Ten zeros and two ones in front. */
  predicate IsMarked(ip: seq<Byte>)
    requires |ip| >= 12
  {
    (forall i :: 0 <= i < 10 ==> ip[i] == 0) && ip[10] == 0xFF && ip[11] == 0xFF
  }

  /** The number an address stands for. */
  function Number(ip: seq<Byte>): nat {
    Value(To16(ip))
  }

  function Abs(n: int): nat {
    if n < 0 then -n else n
  }

  /** What `add` returns: the magnitude of the sum, right-aligned over the filler. */
  function Sum(ip: seq<Byte>, u: int): Outcome<seq<Byte>> {
    var digits := Bytes(Abs(Number(ip) + u));
    if |digits| > 16 then Panicked else Returned(Overlay(FILLER, digits))
  }

  /** `buffer` with `digits` written over its tail. */
  function Overlay(buffer: seq<Byte>, digits: seq<Byte>): (s: seq<Byte>)
    requires |digits| <= |buffer|
    ensures |s| == |buffer|
  {
    buffer[..|buffer| - |digits|] + digits
  }

  method Add(ip: seq<Byte>, u: int) returns (r: Outcome<seq<Byte>>)
    ensures r == Sum(ip, u)
  {
    var intBuffer := Bytes(Abs(Value(To16(ip)) + u));
    var ipBuffer := new Byte[16](i requires 0 <= i < 16 => FILLER[i]);
    assert ipBuffer[..] == FILLER;
    if ipBuffer.Length < |intBuffer| {
      return Panicked;  // the first index written is negative
    }
    Overwrite(ipBuffer, intBuffer);
    return Returned(ipBuffer[..]);
  }

  /** The loop of `add`. */
  method Overwrite(ipBuffer: array<Byte>, intBuffer: seq<Byte>)
    requires |intBuffer| <= ipBuffer.Length
    modifies ipBuffer
    ensures ipBuffer[..] == Overlay(old(ipBuffer[..]), intBuffer)
  {
    var start := ipBuffer.Length - |intBuffer|;
    for i := start to ipBuffer.Length
      invariant ipBuffer[..i] == old(ipBuffer[..start]) + intBuffer[..i - start]
      invariant ipBuffer[i..] == old(ipBuffer[i..])
    {
      ipBuffer[i] := intBuffer[i - start];
    }
    assert ipBuffer[..] == old(ipBuffer[..start]) + intBuffer;
  }

  method IncrementIP(ip: seq<Byte>) returns (r: Outcome<seq<Byte>>)
    ensures r == Sum(ip, 1)
  {
    r := Add(ip, 1);
  }

  method DecrementIP(ip: seq<Byte>) returns (r: Outcome<seq<Byte>>)
    ensures r == Sum(ip, -1)
  {
    r := Add(ip, -1);
  }

  method NextIP(ip: seq<Byte>) returns (r: Outcome<seq<Byte>>)
    ensures r == Sum(ip, 1)
  {
    r := IncrementIP(ip);
  }

  method PreviousIP(ip: seq<Byte>) returns (r: Outcome<seq<Byte>>)
    ensures r == Sum(ip, -1)
  {
    r := DecrementIP(ip);
  }

  // ---------------------------------------------------------------- exactness of add

  lemma Powers()
    ensures Pow256(4) == TWO_32 && Pow256(5) == TWO_40 && Pow256(6) == TWO_48
    ensures Pow256(16) == TWO_128
  {
    assert Pow256(8) == TWO_32 * TWO_32;
    assert Pow256(12) == TWO_32 * TWO_32 * TWO_32;
  }

  lemma {:induction false} ValueOfZeros(bs: seq<Byte>)
    requires forall i :: 0 <= i < |bs| ==> bs[i] == 0
    ensures Value(bs) == 0
  {
    if bs != [] {
      ValueOfZeros(bs[..|bs| - 1]);
    }
  }

  lemma {:induction false} ValueOfOnes(bs: seq<Byte>)
    requires forall i :: 0 <= i < |bs| ==> bs[i] == 0xFF
    ensures Value(bs) == Pow256(|bs|) - 1
  {
    if bs != [] {
      ValueOfOnes(bs[..|bs| - 1]);
    }
  }

  /** A head of the filler that reaches into its ones. */
  lemma HeadValue(head: seq<Byte>)
    requires |head| >= 10
    requires forall i :: 0 <= i < |head| ==> head[i] == if i < 10 then 0 else 0xFF
    ensures Value(head) == Pow256(|head| - 10) - 1
  {
    var zeros, ones := head[..10], head[10..];
    assert head == zeros + ones;
    ValueOfZeros(zeros);
    ValueOfOnes(ones);
    ValueOfConcat(zeros, ones);
  }

  lemma ShiftedOnes(m: nat, n: nat)
    ensures Shifted(Pow256(m) - 1, n) == Pow256(m + n) - Pow256(n)
  {
    ShiftedAdds(Pow256(m), -1, n);
    ShiftedAdds(1, -1, n);
    ShiftedZero(n);
    ShiftedTwice(1, m, n);
  }

  /** Six digits or more hide the ones of the filler; fewer leave some of them in front. */
  lemma HeadShifted(head: seq<Byte>, n: nat)
    requires |head| + n == 16
    requires forall i :: 0 <= i < |head| ==> head[i] == if i < 10 then 0 else 0xFF
    ensures Shifted(Value(head), n) == if n >= 6 then 0 else Pow256(6) - Pow256(n)
  {
    if n >= 6 {
      ValueOfZeros(head);
      ShiftedZero(n);
    } else {
      HeadValue(head);
      ShiftedOnes(6 - n, n);
    }
  }

  lemma OverlayValue(filler: seq<Byte>, digits: seq<Byte>)
    requires |filler| == 16 && |digits| <= 16
    requires forall i :: 0 <= i < 16 ==> filler[i] == if i < 10 then 0 else 0xFF
    ensures Value(Overlay(filler, digits))
            == (if |digits| >= 6 then 0 else Pow256(6) - Pow256(|digits|)) + Value(digits)
  {
    var n := |digits|;
    var head := filler[..16 - n];
    ValueOfConcat(head, digits);
    HeadShifted(head, n);
  }

  /** The exact outcome of `add` on every address and every offset. */
  lemma SumNumber(ip: seq<Byte>, u: int)
    ensures var w := Abs(Number(ip) + u);
            match Sum(ip, u)
            case Panicked => w >= TWO_128
            case Returned(s) =>
              w < TWO_128 && |s| == 16 &&
              Number(s) == if w >= TWO_40 then w else TWO_48 - Pow256(|Bytes(w)|) + w
  {
    var w := Abs(Number(ip) + u);
    Powers();
    BytesLength(w, 16);
    BytesLength(w, 5);
    ValueOfBytes(w);
    if |Bytes(w)| <= 16 {
      OverlayValue(FILLER, Bytes(w));
    }
  }

  /** `add` returns the sum exactly when the sum needs at least six bytes and at most sixteen. */
  lemma AddExact(ip: seq<Byte>, u: int)
    ensures (Sum(ip, u).Returned? && Number(Sum(ip, u).value) == Number(ip) + u)
            <==> TWO_40 <= Number(ip) + u < TWO_128
  {
    SumNumber(ip, u);
    var w := Abs(Number(ip) + u);
    Powers();
    BytesLength(w, 5);
    if w < TWO_40 {
      Pow256Monotone(|Bytes(w)|, 5);
    }
  }

  /** No result of `add` is below 2^40: a sum too small to hide the filler comes out large. */
  lemma SumIsLarge(ip: seq<Byte>, u: int)
    ensures Sum(ip, u).Returned? ==> Number(Sum(ip, u).value) >= TWO_40
  {
    SumNumber(ip, u);
    var w := Abs(Number(ip) + u);
    Powers();
    BytesLength(w, 5);
    if w < TWO_40 {
      Pow256Monotone(|Bytes(w)|, 5);
    }
  }

  /** The sum is wrong below 2^40: `::` + 1 comes out as `::ffff:255.255.255.1`. */
  lemma AddInexactAtZero(zero: seq<Byte>)
    requires |zero| == 16 && Number(zero) == 0
    ensures Sum(zero, 1).Returned? && Number(Sum(zero, 1).value) == TWO_48 - 255
  {
    SumNumber(zero, 1);
    assert |Bytes(1)| == 1 && Pow256(1) == 256;
  }

  function Then(r: Outcome<seq<Byte>>, u: int): Outcome<seq<Byte>> {
    match r
    case Panicked => Panicked
    case Returned(s) => Sum(s, u)
  }

  /** Equal numbers are equal addresses, in the 16-byte form. */
  lemma NumberInjective(a: seq<Byte>, b: seq<Byte>)
    requires |a| == |b| == 16
    ensures Number(a) == Number(b) <==> a == b
  {
    if Number(a) == Number(b) {
      ValueInjective(a, b);
    }
  }

  /** Decrementing undoes incrementing exactly from 2^40 up to the last address but one. */
  lemma IncrementThenDecrement(ip: seq<Byte>)
    requires |ip| == 4 || |ip| == 16
    ensures Then(Sum(ip, 1), -1) == Returned(To16(ip)) <==> TWO_40 <= Number(ip) < TWO_128 - 1
  {
    UndoStep(ip, 1);
  }

  /** Incrementing undoes decrementing exactly above 2^40. */
  lemma DecrementThenIncrement(ip: seq<Byte>)
    requires |ip| == 4 || |ip| == 16
    ensures Then(Sum(ip, -1), 1) == Returned(To16(ip)) <==> TWO_40 < Number(ip)
  {
    UndoStep(ip, -1);
    NumberBound(ip);
  }

  lemma NumberBound(ip: seq<Byte>)
    ensures Number(ip) < TWO_128
  {
    Powers();
    ValueBound(To16(ip));
    Pow256Monotone(|To16(ip)|, 16);
  }

  lemma UndoStep(ip: seq<Byte>, u: int)
    requires |ip| == 4 || |ip| == 16
    requires u == 1 || u == -1
    ensures Then(Sum(ip, u), -u) == Returned(To16(ip))
            <==> TWO_40 <= Number(ip) && TWO_40 <= Number(ip) + u < TWO_128
  {
    AddExact(ip, u);
    NumberBound(ip);
    if Sum(ip, u).Returned? {
      var s := Sum(ip, u).value;
      SumNumber(ip, u);
      SumNumber(s, -u);
      SumIsLarge(ip, u);
      SumIsLarge(s, -u);
      AddExact(s, -u);
      if Sum(s, -u).Returned? {
        NumberInjective(Sum(s, -u).value, To16(ip));
        assert Number(To16(ip)) == Number(ip);
      }
    }
  }

  // ---------------------------------------------------------------- IPv4 and uint32

  newtype uint32 = n: int | 0 <= n < 0x1_0000_0000

  /** The IPv4-mapped address of a 32-bit number. */
  function Mapped(u: uint32): seq<Byte> {
    V4_IN_V6_PREFIX + FourBytes(u as int)
  }

  /** `binary.BigEndian.PutUint32`. */
  function FourBytes(n: nat): (bs: seq<Byte>)
    requires n < TWO_32
  {
    var n8, n16, n24 := n / 0x100, n / 0x1_0000, n / 0x100_0000;
    [n24, n16 % 256, n8 % 256, n % 256]
  }

  /** `binary.BigEndian.Uint32`. */
  function FromFourBytes(b: seq<Byte>): (n: nat)
    requires |b| == 4
    ensures n < TWO_32
  {
    0x100_0000 * (b[0] as int) + 0x1_0000 * (b[1] as int) + 0x100 * (b[2] as int) + b[3]
  }

  lemma FromFourBytesIsValue(b: seq<Byte>)
    requires |b| == 4
    ensures FromFourBytes(b) == Value(b)
  {
    FirstWeighsMost(b[0], b[1], b[2], b[3]);
    assert b == [b[0], b[1], b[2], b[3]];
  }

  lemma FromFourBytesInverse(n: nat)
    requires n < TWO_32
    ensures FromFourBytes(FourBytes(n)) == n
  {
    var n8, n16, n24 := n / 0x100, n / 0x1_0000, n / 0x100_0000;
    assert n == 256 * n8 + n % 256 && n8 == 256 * n16 + n8 % 256 && n16 == 256 * n24 + n16 % 256;
  }

  /** The number that `Itou` reads; an address that is not IPv4 makes it index a nil slice. */
  function ItouOf(ip: seq<Byte>): Outcome<uint32> {
    match To4(ip)
    case None => Panicked
    case Some(b) => Returned(FromFourBytes(b) as uint32)
  }

  method Itou(ip: seq<Byte>) returns (r: Outcome<uint32>)
    ensures r == ItouOf(ip)
  {
    var b := To4(ip);
    if b.None? {
      return Panicked;
    }
    var n: int := b.value[0];
    n := n * 256 + b.value[1];
    n := n * 256 + b.value[2];
    n := n * 256 + b.value[3];
    r := Returned(n as uint32);
  }

  method Utoi(u: uint32) returns (ip: seq<Byte>)
    ensures ip == Mapped(u)
  {
    var buffer := new Byte[16](i requires 0 <= i < 16 => FILLER[i]);
    var n := u as int;
    buffer[12] := n / 0x100_0000;
    buffer[13] := n / 0x1_0000 % 256;
    buffer[14] := n / 0x100 % 256;
    buffer[15] := n % 256;
    ip := buffer[..];
  }

  lemma PrefixValue()
    ensures Value(V4_IN_V6_PREFIX) == 0xFFFF
  {
    var zeros, ones := V4_IN_V6_PREFIX[..10], V4_IN_V6_PREFIX[10..];
    assert V4_IN_V6_PREFIX == zeros + ones;
    ValueOfZeros(zeros);
    ValueOfOnes(ones);
    ValueOfConcat(zeros, ones);
    assert Pow256(2) == 0x1_0000;
  }

  /** The IPv4 addresses are one interval of the 128-bit numbers. */
  lemma To4IsInterval(ip: seq<Byte>)
    requires |ip| == 4 || |ip| == 16
    ensures To4(ip).Some? <==> MAPPED_LOW <= Number(ip) < TWO_48
    ensures To4(ip).Some? ==> |To4(ip).value| == 4 && Number(ip) == MAPPED_LOW + Value(To4(ip).value)
  {
    var head, tail := To16(ip)[..12], To16(ip)[12..];
    assert To16(ip) == head + tail;
    ValueOfConcat(head, tail);
    ValueBound(tail);
    PrefixValue();
    Powers();
    ShiftedIsProduct(Value(head), 4);
    assert Number(ip) == Value(head) * TWO_32 + Value(tail);
    if Value(head) == 0xFFFF {
      ValueInjective(head, V4_IN_V6_PREFIX);
    }
    if IsMarked(To16(ip)) {
      assert forall i :: 0 <= i < 12 ==> head[i] == To16(ip)[i] == V4_IN_V6_PREFIX[i];
      assert head == V4_IN_V6_PREFIX;
    }
  }

  /** `Utoi` then `Itou` is the identity on every 32-bit number. */
  lemma ItouUndoesUtoi(u: uint32)
    ensures ItouOf(Mapped(u)) == Returned(u)
    ensures Number(Mapped(u)) == MAPPED_LOW + u as int
  {
    var ip := Mapped(u);
    assert ip[..12] == V4_IN_V6_PREFIX && ip[12..] == FourBytes(u as int);
    FromFourBytesInverse(u as int);
    To4IsInterval(ip);
    FromFourBytesIsValue(ip[12..]);
  }

  /** `Itou` then `Utoi` gives the 16-byte form back, on exactly the IPv4 addresses. */
  lemma UtoiUndoesItou(ip: seq<Byte>)
    requires |ip| == 4 || |ip| == 16
    ensures ItouOf(ip).Returned? <==> MAPPED_LOW <= Number(ip) < TWO_48
    ensures ItouOf(ip).Returned? ==> Mapped(ItouOf(ip).value) == To16(ip)
  {
    To4IsInterval(ip);
    if ItouOf(ip).Returned? {
      var u := ItouOf(ip).value;
      ItouUndoesUtoi(u);
      FromFourBytesIsValue(To4(ip).value);
      NumberInjective(Mapped(u), To16(ip));
      assert Number(To16(ip)) == Number(ip);
    }
  }

  /** The commented-out forms of `NextIP` and `PreviousIP`, with their wrap-around. */
  function FastNext(ip: seq<Byte>): Outcome<seq<Byte>> {
    match ItouOf(ip)
    case Panicked => Panicked
    case Returned(u) => Returned(Mapped(((u as int + 1) % TWO_32) as uint32))
  }

  function FastPrevious(ip: seq<Byte>): Outcome<seq<Byte>> {
    match ItouOf(ip)
    case Panicked => Panicked
    case Returned(u) => Returned(Mapped(((u as int - 1) % TWO_32) as uint32))
  }

  /** A sum of at least 2^40 is one address and no other. */
  lemma SumIs(ip: seq<Byte>, u: int, target: seq<Byte>)
    requires TWO_40 <= Number(ip) + u < TWO_128
    requires |target| == 16
    ensures Sum(ip, u) == Returned(target) <==> Number(target) == Number(ip) + u
  {
    SumNumber(ip, u);
    NumberInjective(Sum(ip, u).value, target);
  }

  /** Stepping on the bytes meets the wrapped 32-bit step just when the latter does not wrap. */
  lemma StepMeetsWrapped(ip: seq<Byte>, step: int, target: seq<Byte>)
    requires step == 1 || step == -1
    requires MAPPED_LOW <= Number(ip) < TWO_48
    requires |target| == 16
    requires Number(target) == MAPPED_LOW + (Number(ip) - MAPPED_LOW + step) % TWO_32
    ensures Sum(ip, step) == Returned(target) <==> MAPPED_LOW <= Number(ip) + step < TWO_48
  {
    SumIs(ip, step, target);
  }

  lemma FastFormAgrees(ip: seq<Byte>, step: int)
    requires To4(ip).Some?
    requires step == 1 || step == -1
    ensures var v := ((ItouOf(ip).value as int + step) % TWO_32) as uint32;
            Sum(ip, step) == Returned(Mapped(v)) <==> MAPPED_LOW <= Number(ip) + step < TWO_48
  {
    var b := To4(ip).value;
    FromFourBytesIsValue(b);
    To4IsInterval(ip);
    var v := ((FromFourBytes(b) + step) % TWO_32) as uint32;
    ItouUndoesUtoi(v);
    StepMeetsWrapped(ip, step, Mapped(v));
  }

  /** On IPv4 addresses the byte-level steps are the fast ones, except at the two ends. */
  lemma FastFormsAgree(ip: seq<Byte>)
    requires To4(ip).Some?
    ensures FastNext(ip) == Sum(ip, 1) <==> Number(ip) != TWO_48 - 1
    ensures FastPrevious(ip) == Sum(ip, -1) <==> Number(ip) != MAPPED_LOW
  {
    To4IsInterval(ip);
    FastFormAgrees(ip, 1);
    FastFormAgrees(ip, -1);
  }

  /** Where they differ: stepping past either end leaves the IPv4 range instead of wrapping. */
  lemma StepsLeaveV4AtTheEnds(ip: seq<Byte>)
    requires To4(ip).Some?
    ensures Number(ip) == TWO_48 - 1 ==> Sum(ip, 1).Returned? && To4(Sum(ip, 1).value).None?
    ensures Number(ip) == MAPPED_LOW ==> Sum(ip, -1).Returned? && To4(Sum(ip, -1).value).None?
  {
    To4IsInterval(ip);
    SumNumber(ip, 1);
    SumNumber(ip, -1);
    To4IsInterval(Sum(ip, 1).value);
    To4IsInterval(Sum(ip, -1).value);
  }

  /** `Itou` and `Utoi` on the bytes of an address. */
  lemma V4Bytes(a: Byte, b: Byte, c: Byte, d: Byte)
    ensures var n := (0x100_0000 * a + 0x1_0000 * b + 0x100 * c + d) as uint32;
            && ItouOf([a, b, c, d]) == Returned(n)
            && ItouOf([0, 0, 0, 0, 0, 0, 0, 0, 0, 0, 0xFF, 0xFF, a, b, c, d]) == Returned(n)
            && Mapped(n) == [0, 0, 0, 0, 0, 0, 0, 0, 0, 0, 0xFF, 0xFF, a, b, c, d]
  {
    var bytes, long := [a, b, c, d], [0, 0, 0, 0, 0, 0, 0, 0, 0, 0, 0xFF, 0xFF, a, b, c, d];
    assert long[12..] == bytes;
    FourBytesInverse(a, b, c, d);
    assert V4_IN_V6_PREFIX + bytes == long;
  }

  lemma FourBytesInverse(a: Byte, b: Byte, c: Byte, d: Byte)
    ensures FourBytes(0x100_0000 * a + 0x1_0000 * b + 0x100 * c + d) == [a, b, c, d]
  {
    var n := 0x100_0000 * a + 0x1_0000 * b + 0x100 * c + d;
    var n8, n16 := 0x1_0000 * a + 0x100 * b + c, 0x100 * a + b;
    assert n == 256 * n8 + d && n / 0x100 == n8;
    assert n8 == 256 * n16 + c && n / 0x1_0000 == n16;
  }

  lemma V4Number(a: Byte, b: Byte, c: Byte, d: Byte)
    ensures Number([a, b, c, d]) == 0xFFFF_0000_0000 + 0x100_0000 * a + 0x1_0000 * b + 0x100 * c + d
    ensures Number([0, 0, 0, 0, 0, 0, 0, 0, 0, 0, 0xFF, 0xFF, a, b, c, d]) == Number([a, b, c, d])
  {
    var bytes := [a, b, c, d];
    assert V4_IN_V6_PREFIX + bytes == [0, 0, 0, 0, 0, 0, 0, 0, 0, 0, 0xFF, 0xFF, a, b, c, d];
    FirstWeighsMost(a, b, c, d);
    To4IsInterval(bytes);
  }

  /** The address after a.b.c.d, without and with a carry; the address before goes the other way. */
  lemma NextInBytes(a: Byte, b: Byte, c: Byte, d: Byte)
    ensures d < 255 ==> Sum([a, b, c, d], 1) == Returned(To16([a, b, c, d + 1]))
    ensures d < 255 ==> Sum([a, b, c, d + 1], -1) == Returned(To16([a, b, c, d]))
    ensures d == 255 && c < 255 ==> Sum([a, b, c, 255], 1) == Returned(To16([a, b, c + 1, 0]))
    ensures d == 255 && c < 255 ==> Sum([a, b, c + 1, 0], -1) == Returned(To16([a, b, c, 255]))
  {
    V4Number(a, b, c, d);
    if d < 255 {
      V4Number(a, b, c, d + 1);
      StepBetween([a, b, c, d], [a, b, c, d + 1]);
    } else if c < 255 {
      V4Number(a, b, c + 1, 0);
      StepBetween([a, b, c, 255], [a, b, c + 1, 0]);
    }
  }

  lemma StepBetween(x: seq<Byte>, y: seq<Byte>)
    requires |x| == |y| == 4 && Number(y) == Number(x) + 1
    ensures Sum(x, 1) == Returned(To16(y)) && Sum(y, -1) == Returned(To16(x))
  {
    To4IsInterval(x);
    To4IsInterval(y);
    assert Number(To16(x)) == Number(x) && Number(To16(y)) == Number(y);
    SumIs(x, 1, To16(y));
    SumIs(y, -1, To16(x));
  }
}

/**
 `GetRange`: the walk through a CIDR block, one address at a time, and the closed form of
 what it returns for every block that `net.ParseCIDR` can deliver.
 */
module IpRange {
  import opened BigEndian
  import opened Outcomes
  import opened IpAddress
  import opened IpNetwork

  datatype RangeResult =
    | BadCidr
    | Crashed
    | Range(first: seq<Byte>, last: seq<Byte>)

  predicate IsMapped(n: int) {
    MAPPED_LOW <= n < TWO_48
  }

  /** Membership of a block, on numbers. */
  predicate In(c: Cidr, n: int)
    requires c.Valid()
  {
    Low(c) <= n <= High(c) && (IsMapped(n) <==> V4Block(c))
  }

  /** Where the walk that starts at `n` stops: the last address reached through members only. */
  function Reach(c: Cidr, n: nat): (r: nat)
    requires c.Valid()
    decreases High(c) - n
  {
    if In(c, n + 1) then Reach(c, n + 1) else n
  }

  /** `r` is what `GetRange` returns for `c`: step forward, walk, step back. */
  ghost predicate IsRangeOf(c: Cidr, r: RangeResult)
    requires c.Valid()
  {
    match Sum(c.ip, 1)
    case Panicked => r == Crashed
    case Returned(first) =>
      var stop := Reach(c, Number(first));
      if stop == TWO_128 - 1 then r == Crashed
      else r.Range? && r.first == first && |r.last| == 16 && Number(r.last) == Back(stop)
  }

  /** One address back, on the results of `add`. */
  function Back(n: nat): int {
    if n == TWO_40 then TWO_48 - 1 else n - 1
  }

  lemma BackIsSum(ip: seq<Byte>)
    requires |ip| == 16 && TWO_40 <= Number(ip)
    ensures Sum(ip, -1).Returned? && |Sum(ip, -1).value| == 16
    ensures Number(Sum(ip, -1).value) == Back(Number(ip))
  {
    NumberBound(ip);
    SumNumber(ip, -1);
    if Number(ip) == TWO_40 {
      BytesLength(TWO_40 - 1, 5);
      BytesLength(TWO_40 - 1, 4);
      Powers();
    }
  }

  lemma ForwardIsSum(ip: seq<Byte>)
    requires |ip| == 16 && TWO_40 <= Number(ip)
    ensures Sum(ip, 1).Panicked? <==> Number(ip) == TWO_128 - 1
    ensures Sum(ip, 1).Returned? ==> |Sum(ip, 1).value| == 16 && Number(Sum(ip, 1).value) == Number(ip) + 1
  {
    NumberBound(ip);
    SumNumber(ip, 1);
  }

  lemma HoldsIsIn(c: Cidr, x: seq<Byte>)
    requires c.Valid() && |x| == 16
    ensures Holds(NetOf(c), x) <==> In(c, Number(x))
  {
    ContainsIsInterval(c, x);
    To4IsInterval(x);
  }

  /** The loop of `GetRange`; no address is returned when stepping past the very last one. */
  method Walk(c: Cidr, first: seq<Byte>) returns (r: Outcome<seq<Byte>>, ghost steps: nat)
    requires c.Valid()
    requires |first| == 16 && TWO_40 <= Number(first)
    ensures r.Panicked? <==> Reach(c, Number(first)) == TWO_128 - 1
    ensures r.Returned? ==> |r.value| == 16 && Number(r.value) == Reach(c, Number(first))
    ensures steps == Reach(c, Number(first)) - Number(first)
  {
    var net := NetOf(c);
    var last := first;
    steps := 0;
    while true
      invariant |last| == 16 && TWO_40 <= Number(last)
      invariant Reach(c, Number(last)) == Reach(c, Number(first))
      invariant steps == Number(last) - Number(first)
      decreases High(c) - Number(last)
    {
      ForwardIsSum(last);
      BlockBounds(c);
      var next := NextIP(last);
      if next.Panicked? {
        return Panicked, steps;
      }
      HoldsIsIn(c, next.value);
      var inside := Contains(net, next.value);
      if !inside {
        return Returned(last), steps;
      }
      next := NextIP(last);
      last := next.value;
      steps := steps + 1;
    }
  }

  /** `GetRange`; `None` is a text that `net.ParseCIDR` rejects. `steps` counts the loop's turns. */
  method GetRange(cidr: Option<Cidr>) returns (r: RangeResult, ghost steps: nat)
    requires cidr.Some? ==> cidr.value.Valid()
    ensures r.BadCidr? <==> cidr.None?
    ensures cidr.Some? ==> IsRangeOf(cidr.value, r)
    ensures r.Range? ==> steps == Reach(cidr.value, Number(r.first)) - Number(r.first)
  {
    if cidr.None? {
      return BadCidr, 0;
    }
    var c := cidr.value;
    var next := NextIP(c.ip);
    if next.Panicked? {
      return Crashed, 0;
    }
    var first := next.value;
    SumNumber(c.ip, 1);
    SumIsLarge(c.ip, 1);
    var last;
    last, steps := Walk(c, first);
    if last.Panicked? {
      return Crashed, steps;
    }
    BackIsSum(last.value);
    NumberBound(last.value);
    var previous := PreviousIP(last.value);
    return Range(first, previous.value), steps;
  }

  // ---------------------------------------------------------------- the closed form

  /** Every address the walk moves to is a member, and the one after its end is not. */
  lemma {:induction false} ReachIsMaximal(c: Cidr, n: nat)
    requires c.Valid()
    ensures n <= Reach(c, n)
    ensures forall m :: n < m <= Reach(c, n) ==> In(c, m)
    ensures !In(c, Reach(c, n) + 1)
    decreases High(c) - n
  {
    if In(c, n + 1) {
      ReachIsMaximal(c, n + 1);
    }
  }

  /** Where a walk from `f` stops: at the end of the block, or in front of the mapped range. */
  function StopAt(v4: bool, high: int, f: int): int {
    if high <= f || (!v4 && IsMapped(f + 1)) then f
    else if !v4 && f < MAPPED_LOW <= high then MAPPED_LOW - 1
    else high
  }

  lemma {:induction false} ReachIsStop(c: Cidr, f: nat)
    requires c.Valid()
    requires Low(c) <= f
    ensures Reach(c, f) == StopAt(V4Block(c), High(c), f)
    decreases High(c) - f
  {
    BlockBounds(c);
    if In(c, f + 1) {
      ReachIsStop(c, f + 1);
    }
  }

  /** First and last address as documented, in numbers. */
  ghost predicate IsInner(a: int, high: int, r: RangeResult) {
    r.Range? && Number(r.first) == a + 1 && Number(r.last) == if a < high then high - 1 else a
  }

  /** The range a block is meant to have: from the address after `ip` to the one before the last. */
  ghost predicate IsDocumentedRange(c: Cidr, r: RangeResult)
    requires c.Valid()
  {
    IsInner(Number(c.ip), High(c), r)
  }

  /** Where the walk neither starts below 2^40, nor meets the IPv4 range, nor runs off the end. */
  predicate WalksCleanly(c: Cidr)
    requires c.Valid()
  {
    IsClean(V4Block(c), Number(c.ip), High(c))
  }

  predicate IsClean(v4: bool, a: int, high: int) {
    v4
    || (high <= a + 1 && TWO_40 <= a < TWO_128 - 2)
    || (a + 1 < high && TWO_40 - 1 <= a && high < TWO_128 - 1 && (TWO_48 <= a + 2 || high < MAPPED_LOW))
  }

  /** One less than the last number of one to five bytes: the first step lands on 255.255.255.255. */
  predicate BeforeFullBytes(a: int) {
    a + 2 in {0x100, 0x1_0000, 0x100_0000, TWO_32, TWO_40}
  }

  /** What is known of the number of the first address, one step after `a`. */
  predicate IsFirstNumber(a: int, f: int) {
    if TWO_40 <= a + 1 then f == a + 1
    else TWO_40 <= f < TWO_48 && (f == TWO_48 - 1 <==> BeforeFullBytes(a))
  }

  /** The number of bytes of `w`, for `w` that fills none, some or all of them. */
  lemma FullBytes(w: nat)
    requires 0 < w < TWO_40
    ensures 1 <= |Bytes(w)| <= 5
    ensures w == Pow256(|Bytes(w)|) - 1 <==> BeforeFullBytes(w - 1)
  {
    Powers();
    assert Pow256(1) == 0x100 && Pow256(2) == 0x1_0000 && Pow256(3) == 0x100_0000;
    BytesLength(w, 0);
    BytesLength(w, 1);
    BytesLength(w, 2);
    BytesLength(w, 3);
    BytesLength(w, 4);
    BytesLength(w, 5);
  }

  lemma FirstNumber(ip: seq<Byte>)
    requires |ip| == 16
    ensures Sum(ip, 1).Panicked? <==> Number(ip) == TWO_128 - 1
    ensures Sum(ip, 1).Returned? ==> IsFirstNumber(Number(ip), Number(Sum(ip, 1).value))
  {
    var a := Number(ip);
    SumNumber(ip, 1);
    NumberBound(ip);
    if a + 1 < TWO_40 {
      SumIsLarge(ip, 1);
      FullBytes(a + 1);
      Pow256Positive(|Bytes(a + 1)|);
      BytesLength(a + 1, |Bytes(a + 1)|);
    }
  }

  /** The numbers of a block `low` to `high` that holds `a`. */
  predicate IsBlock(v4: bool, low: int, a: int, high: int) {
    0 <= low <= a <= high < TWO_128 && (v4 ==> MAPPED_LOW <= low && high < TWO_48)
  }

  lemma BlockNumbers(c: Cidr)
    requires c.Valid()
    ensures IsBlock(V4Block(c), Low(c), Number(c.ip), High(c))
  {
    OwnAddress(c);
    BlockBounds(c);
  }

  lemma FirstIsInside(v4: bool, low: int, a: int, high: int, f: int)
    requires IsBlock(v4, low, a, high) && a < TWO_128 - 1 && IsFirstNumber(a, f)
    ensures low <= f && TWO_40 <= f
  {
  }

  /** The result of `GetRange`, in numbers alone. */
  ghost predicate IsRangeFrom(v4: bool, a: int, high: int, r: RangeResult) {
    if a == TWO_128 - 1 then r.Crashed?
    else exists f :: IsFirstNumber(a, f) && IsRangeTo(f, StopAt(v4, high, f), r)
  }

  ghost predicate IsRangeTo(f: int, stop: int, r: RangeResult) {
    if stop == TWO_128 - 1 then r.Crashed?
    else r.Range? && Number(r.first) == f && Number(r.last) == if stop == TWO_40 then TWO_48 - 1 else stop - 1
  }

  /** The bytes of a result no longer matter. */
  lemma RangeInNumbers(c: Cidr, r: RangeResult)
    requires c.Valid()
    requires IsRangeOf(c, r)
    ensures IsBlock(V4Block(c), Low(c), Number(c.ip), High(c))
    ensures IsRangeFrom(V4Block(c), Number(c.ip), High(c), r)
  {
    BlockNumbers(c);
    FirstNumber(c.ip);
    if Sum(c.ip, 1).Returned? {
      var f := Number(Sum(c.ip, 1).value);
      FirstIsInside(V4Block(c), Low(c), Number(c.ip), High(c), f);
      ReachIsStop(c, f);
      assert IsRangeTo(f, StopAt(V4Block(c), High(c), f), r);
    }
  }

  lemma InnerOnV4(low: int, a: int, high: int, f: int, r: RangeResult)
    requires IsBlock(true, low, a, high) && IsFirstNumber(a, f)
    requires IsRangeTo(f, StopAt(true, high, f), r)
    ensures IsInner(a, high, r)
  {
  }

  lemma InnerOnV6(low: int, a: int, high: int, f: int, r: RangeResult)
    requires IsBlock(false, low, a, high) && a < TWO_128 - 1 && IsFirstNumber(a, f)
    requires IsRangeTo(f, StopAt(false, high, f), r)
    ensures IsInner(a, high, r) <==> IsClean(false, a, high)
  {
  }

  /**
   For every block, IPv4 or IPv6, `GetRange` returns the documented range exactly when the
   walk is clean; on IPv4 it always is.
   */
  lemma RangeIsDocumented(c: Cidr, r: RangeResult)
    requires c.Valid()
    requires IsRangeOf(c, r)
    ensures IsDocumentedRange(c, r) <==> WalksCleanly(c)
  {
    RangeInNumbers(c, r);
    InnerIsClean(V4Block(c), Low(c), Number(c.ip), High(c), r);
  }

  lemma InnerIsClean(v4: bool, low: int, a: int, high: int, r: RangeResult)
    requires IsBlock(v4, low, a, high) && IsRangeFrom(v4, a, high, r)
    ensures IsInner(a, high, r) <==> IsClean(v4, a, high)
  {
    if a < TWO_128 - 1 {
      var f :| IsFirstNumber(a, f) && IsRangeTo(f, StopAt(v4, high, f), r);
      if v4 {
        InnerOnV4(low, a, high, f, r);
      } else {
        InnerOnV6(low, a, high, f, r);
      }
    }
  }

  /**
   `GetRange` stops the program exactly when its walk arrives at the last 128-bit address:
   from an address next to it, or through a block that ends there, from above the IPv4 range
   or from one of five small addresses that `add` takes to the end of the IPv4 range.
   */
  lemma RangeCrashes(c: Cidr, r: RangeResult)
    requires c.Valid()
    requires IsRangeOf(c, r)
    ensures r.Crashed? <==>
            || Number(c.ip) >= TWO_128 - 2
            || (High(c) == TWO_128 - 1 && (Number(c.ip) >= TWO_48 - 2 || BeforeFullBytes(Number(c.ip))))
  {
    RangeInNumbers(c, r);
    CrashIsAtTheEnd(V4Block(c), Low(c), Number(c.ip), High(c), r);
  }

  lemma CrashIsAtTheEnd(v4: bool, low: int, a: int, high: int, r: RangeResult)
    requires IsBlock(v4, low, a, high) && IsRangeFrom(v4, a, high, r)
    ensures r.Crashed? <==>
            a >= TWO_128 - 2 || (high == TWO_128 - 1 && (a >= TWO_48 - 2 || BeforeFullBytes(a)))
  {
    if a < TWO_128 - 1 {
      var f :| IsFirstNumber(a, f) && IsRangeTo(f, StopAt(v4, high, f), r);
      EndIsReached(v4, high, f);
    }
  }

  lemma EndIsReached(v4: bool, high: int, f: int)
    requires TWO_40 <= f < TWO_128 && high < TWO_128 && (v4 ==> high < TWO_48)
    ensures StopAt(v4, high, f) == TWO_128 - 1
            <==> f == TWO_128 - 1 || (high == TWO_128 - 1 && TWO_48 - 1 <= f)
  {
  }

  /** A wrong range: `::/128` gives `::ffff:255.255.255.1` to `::ffff:255.255.255.0`. */
  lemma UnspecifiedAddressRange(c: Cidr, r: RangeResult)
    requires c.Valid() && c.ipv6 && c.ones == 128 && Number(c.ip) == 0
    requires IsRangeOf(c, r)
    ensures !IsDocumentedRange(c, r)
    ensures r.Range? && Number(r.first) == TWO_48 - 255 && Number(r.last) == TWO_48 - 256
  {
    AddInexactAtZero(c.ip);
    BlockNumbers(c);
    ReachIsStop(c, TWO_48 - 255);
  }

  /** A crash: the walk through `::/0` from `::fe` arrives at the last address. */
  lemma CrashFromSmallAddress(c: Cidr, r: RangeResult)
    requires c.Valid() && c.ipv6 && c.ones == 0 && Number(c.ip) == 254
    requires IsRangeOf(c, r)
    ensures r.Crashed?
  {
    WholeSpace(8 * c.Width() - c.ones);
    BlockNumbers(c);
    RangeCrashes(c, r);
  }

  lemma WholeSpace(bits: nat)
    requires bits == 128
    ensures Pow2(bits) == TWO_128
  {
    Powers();
    ShiftedPow2(bits - 128, 16);
  }

  /**
   The usual case: an IPv4 block written with its own network address has all its
   addresses but the first and the last, that is 2^(32-p) - 2 of them.
   */
  lemma V4RangeIsInterior(c: Cidr, r: RangeResult)
    requires c.Valid() && !c.ipv6 && c.ones <= 30
    requires Number(c.ip) == Low(c)
    requires IsRangeOf(c, r)
    ensures r.Range? && Number(r.last) - Number(r.first) + 1 == Pow2(32 - c.ones) - 2
    ensures forall x: seq<Byte> | |x| == 16 ::
              Number(r.first) <= Number(x) <= Number(r.last)
              <==> Holds(NetOf(c), x) && Number(x) != Low(c) && Number(x) != High(c)
  {
    RangeIsDocumented(c, r);
    V4InteriorBounds(c, r);
    V4Members(c);
  }

  lemma V4InteriorBounds(c: Cidr, r: RangeResult)
    requires c.Valid() && !c.ipv6 && c.ones <= 30
    requires Number(c.ip) == Low(c)
    requires IsDocumentedRange(c, r)
    ensures r.Range? && Number(r.first) == Low(c) + 1 && Number(r.last) == High(c) - 1
    ensures High(c) - Low(c) + 1 == Pow2(32 - c.ones)
  {
    AtLeastFour(32 - c.ones);
  }

  lemma AtLeastFour(bits: nat)
    requires bits >= 2
    ensures Pow2(bits) >= 4
  {
    assert Pow2(bits) == 2 * Pow2(bits - 1) == 4 * Pow2(bits - 2);
  }

  lemma V4Members(c: Cidr)
    requires c.Valid() && V4Block(c)
    ensures forall x: seq<Byte> | |x| == 16 :: Holds(NetOf(c), x) <==> Low(c) <= Number(x) <= High(c)
  {
    BlockBounds(c);
    forall x: seq<Byte> | |x| == 16
      ensures Holds(NetOf(c), x) <==> Low(c) <= Number(x) <= High(c)
    {
      HoldsIsIn(c, x);
    }
  }

  /** The number of turns of a clean walk, and so of every walk through an IPv4 block. */
  lemma CleanSteps(c: Cidr)
    requires c.Valid() && WalksCleanly(c)
    ensures Sum(c.ip, 1).Returned?
    ensures var a, f := Number(c.ip), Number(Sum(c.ip, 1).value);
            Reach(c, f) - f == if a + 1 < High(c) then High(c) - (a + 1) else 0
  {
    CleanFirstNumber(c);
    CleanReach(c, Number(c.ip) + 1);
  }

  lemma CleanFirstNumber(c: Cidr)
    requires c.Valid() && WalksCleanly(c)
    ensures Sum(c.ip, 1).Returned? && Number(Sum(c.ip, 1).value) == Number(c.ip) + 1
  {
    BlockNumbers(c);
    CleanFirst(V4Block(c), Low(c), Number(c.ip), High(c));
    FirstNumber(c.ip);
  }

  lemma CleanReach(c: Cidr, f: nat)
    requires c.Valid() && WalksCleanly(c)
    requires f == Number(c.ip) + 1
    ensures Reach(c, f) - f == if f < High(c) then High(c) - f else 0
  {
    BlockNumbers(c);
    ReachIsStop(c, f);
    CleanStop(V4Block(c), Low(c), Number(c.ip), High(c));
  }

  lemma CleanFirst(v4: bool, low: int, a: int, high: int)
    requires IsBlock(v4, low, a, high) && IsClean(v4, a, high)
    ensures TWO_40 <= a + 1 && a < TWO_128 - 1
  {
  }

  lemma CleanStop(v4: bool, low: int, a: int, high: int)
    requires IsBlock(v4, low, a, high) && IsClean(v4, a, high)
    ensures StopAt(v4, high, a + 1) == if a + 1 < high then high else a + 1
  {
  }

  /** The address one past 255.255.255.255 is in no IPv4 block. */
  lemma OnePastTheEnd(c: Cidr, x: seq<Byte>)
    requires c.Valid() && V4Block(c)
    requires |x| == 16 && Number(x) == TWO_48
    ensures !Holds(NetOf(c), x)
  {
    HoldsIsIn(c, x);
  }

  /** `top` is the last number with the prefix of `c`. */
  lemma TopIsHigh(c: Cidr, top: nat, free: nat)
    requires c.Valid() && free + c.ones == if c.ipv6 then 128 else 32
    requires Prefix(top, free) == Prefix(Number(c.ip), free)
    requires Prefix(top + 1, free) != Prefix(Number(c.ip), free)
    ensures top == High(c)
  {
    IntervalIsPrefix(c, top, free);
    IntervalIsPrefix(c, top + 1, free);
  }

  /**
   What `GetRange` returns, from the address `a` in front of the slash and the last address `top`
   of the same prefix: a + 1 and the one before `top`, always on IPv4; on IPv6 exactly if the walk
   neither starts below 2^40, nor meets the IPv4 range, nor runs off the end.
   */
  lemma RangeByPrefix(c: Cidr, r: RangeResult, top: nat, free: nat)
    requires c.Valid() && IsRangeOf(c, r)
    requires free + c.ones == if c.ipv6 then 128 else 32
    requires Prefix(top, free) == Prefix(Number(c.ip), free)
    requires Prefix(top + 1, free) != Prefix(Number(c.ip), free)
    ensures var a := Number(c.ip);
            r.Range? && Number(r.first) == a + 1 && Number(r.last) == (if a < top then top - 1 else a)
            <==>
            || !c.ipv6
            || (c.ones >= 96 && To4(c.ip).Some?)
            || (top <= a + 1 && 0x100_0000_0000 <= a < 0xFFFF_FFFF_FFFF_FFFF_FFFF_FFFF_FFFF_FFFE)
            || (0xFF_FFFF_FFFF <= a < top - 1 && top < 0xFFFF_FFFF_FFFF_FFFF_FFFF_FFFF_FFFF_FFFF
                && (0xFFFF_FFFF_FFFE <= a || top < 0xFFFF_0000_0000))
  {
    TopIsHigh(c, top, free);
    V4BlockIs(c);
    RangeIsDocumented(c, r);
  }
}

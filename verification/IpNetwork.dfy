/**
 CIDR blocks and the byte-by-byte membership test of `net.IPNet.Contains`, which drives the
 loop of `GetRange`. Prefix notation is that of section 3.1 of RFC 4632.
 */
module IpNetwork {
  import opened BigEndian
  import opened Outcomes
  import opened IpAddress

  /** What `net.ParseCIDR` reads off a text it accepts: the 16-byte address and the prefix length. */
  datatype Cidr = Cidr(ip: seq<Byte>, ones: nat, ipv6: bool) {
    /** The bytes the prefix length counts over. */
    function Width(): nat {
      if ipv6 then 16 else 4
    }

    ghost predicate Valid() {
      |ip| == 16 && ones <= 8 * Width() && (ipv6 || To4(ip).Some?)
    }
  }

  datatype IPNet = IPNet(ip: seq<Byte>, mask: seq<Byte>)

  /** Bitwise and, bit by bit from the last. */
  function And(a: nat, b: nat): (r: nat)
    ensures r <= a
  {
    if a == 0 || b == 0 then 0
    else 2 * And(a / 2, b / 2) + (if a % 2 == 1 && b % 2 == 1 then 1 else 0)
  }

  function Pow2(n: nat): (r: nat)
    ensures r > 0
  {
    if n == 0 then 1 else 2 * Pow2(n - 1)
  }

  /** A mask byte with `k` leading ones: the complement of 0xFF shifted right by `k`. */
  function MaskByte(k: nat): Byte
    requires k <= 8
  {
    0xFF - 0xFF / Pow2(k)
  }

  /** `net.CIDRMask`. */
  function CidrMask(ones: nat, width: nat): (m: seq<Byte>)
    ensures |m| == width
  {
    if width == 0 then []
    else if ones >= 8 then [0xFF] + CidrMask(ones - 8, width - 1)
    else [MaskByte(ones)] + CidrMask(0, width - 1)
  }

  /** `net.IP.Mask` on strings of one length. */
  function Masked(ip: seq<Byte>, mask: seq<Byte>): (r: seq<Byte>)
    requires |ip| == |mask|
    ensures |r| == |ip|
  {
    if ip == [] then [] else [And(ip[0], mask[0])] + Masked(ip[1..], mask[1..])
  }

  /** The net of the addresses that agree with `ip` on its first `ones` bits. */
  function Block(ip: seq<Byte>, ones: nat): (n: IPNet)
    ensures |n.ip| == |n.mask| == |ip|
  {
    var mask := CidrMask(ones, |ip|);
    IPNet(Masked(ip, mask), mask)
  }

  /** The network part of what `net.ParseCIDR` returns. */
  function NetOf(c: Cidr): IPNet
    requires c.Valid()
  {
    Block(c.ip[16 - c.Width()..], c.ones)
  }

  /** `networkNumberAndMask` of package net, on the nets that `ParseCIDR` builds. */
  function NumberAndMask(n: IPNet): (IPNet)
    requires |n.ip| == |n.mask| && (|n.ip| == 4 || |n.ip| == 16)
  {
    match To4(n.ip)
    case None => n
    case Some(b) => IPNet(b, n.mask[|n.mask| - 4..])
  }

  /** Agreement of all bytes under the mask. */
  predicate Matches(nn: seq<Byte>, mask: seq<Byte>, ip: seq<Byte>)
    requires |nn| == |mask| == |ip|
  {
    ip == [] || (And(nn[0], mask[0]) == And(ip[0], mask[0]) && Matches(nn[1..], mask[1..], ip[1..]))
  }

  /** What `Contains` answers: false on a different length, else the masked comparison. */
  predicate Holds(n: IPNet, ip: seq<Byte>)
    requires |n.ip| == |n.mask| && (|n.ip| == 4 || |n.ip| == 16)
  {
    var net := NumberAndMask(n);
    var x := if To4(ip).Some? then To4(ip).value else ip;
    |x| == |net.ip| && Matches(net.ip, net.mask, x)
  }

  /** `net.IPNet.Contains`. */
  method Contains(n: IPNet, ip: seq<Byte>) returns (b: bool)
    requires |n.ip| == |n.mask| && (|n.ip| == 4 || |n.ip| == 16)
    ensures b == Holds(n, ip)
  {
    var net := NumberAndMask(n);
    var x := ip;
    var four := To4(ip);
    if four.Some? {
      x := four.value;
    }
    if |x| != |net.ip| {
      return false;
    }
    b := CompareMasked(net.ip, net.mask, x);
  }

  /** The loop of `Contains`. */
  method CompareMasked(nn: seq<Byte>, mask: seq<Byte>, ip: seq<Byte>) returns (b: bool)
    requires |nn| == |mask| == |ip|
    ensures b == Matches(nn, mask, ip)
  {
    for i := 0 to |ip|
      invariant Matches(nn, mask, ip) <==> Matches(nn[i..], mask[i..], ip[i..])
    {
      if And(nn[i], mask[i]) != And(ip[i], mask[i]) {
        return false;
      }
    }
    return true;
  }

  // ---------------------------------------------------------------- masks and intervals

  /** The number of addresses that agree with one address on the first `ones` of `width` bytes. */
  function BlockSize(ones: nat, width: nat): int {
    if width == 0 then 1
    else if ones >= 8 then BlockSize(ones - 8, width - 1)
    else Shifted(Pow2(8 - ones), width - 1)
  }

  /** `ones` one bits in front of `zeros` zero bits. */
  function OnesThenZeros(ones: nat, zeros: nat): nat {
    if zeros > 0 then 2 * OnesThenZeros(ones, zeros - 1)
    else if ones > 0 then 2 * OnesThenZeros(ones - 1, 0) + 1
    else 0
  }

  /** `a` with its last `k` bits cleared. */
  function Cleared(a: nat, k: nat): nat {
    if k == 0 then a else 2 * Cleared(a / 2, k - 1)
  }

  lemma {:induction false} AndClears(a: nat, ones: nat, zeros: nat)
    requires a < Pow2(ones + zeros)
    ensures And(a, OnesThenZeros(ones, zeros)) == Cleared(a, zeros)
  {
    if zeros > 0 {
      AndClears(a / 2, ones, zeros - 1);
    } else if ones > 0 {
      AndClears(a / 2, ones - 1, 0);
    }
  }

  /** Agreeing up to the last `k` bits is lying in one aligned interval. */
  lemma {:induction false} ClearedAgree(a: nat, x: nat, k: nat)
    ensures Cleared(a, k) == Cleared(x, k) <==> Cleared(a, k) <= x < Cleared(a, k) + Pow2(k)
  {
    if k > 0 {
      ClearedAgree(a / 2, x / 2, k - 1);
    }
  }

  lemma {:induction false} ClearedFits(a: nat, n: nat, k: nat)
    requires a < Pow2(n + k)
    ensures Cleared(a, k) + Pow2(k) <= Pow2(n + k)
  {
    if k > 0 {
      ClearedFits(a / 2, n, k - 1);
    }
  }

  lemma MaskByteValues(k: nat)
    requires k <= 8
    ensures MaskByte(k) == OnesThenZeros(k, 8 - k)
  {
    if k < 4 {
      LowMaskBytes();
    } else {
      HighMaskBytes();
    }
  }

  lemma LowMaskBytes()
    ensures MaskByte(0) == OnesThenZeros(0, 8) && MaskByte(1) == OnesThenZeros(1, 7)
    ensures MaskByte(2) == OnesThenZeros(2, 6) && MaskByte(3) == OnesThenZeros(3, 5)
  {
  }

  lemma HighMaskBytes()
    ensures MaskByte(4) == OnesThenZeros(4, 4) && MaskByte(5) == OnesThenZeros(5, 3)
    ensures MaskByte(6) == OnesThenZeros(6, 2) && MaskByte(7) == OnesThenZeros(7, 1)
    ensures MaskByte(8) == OnesThenZeros(8, 0)
  {
  }

  lemma ByteSize(bits: nat)
    requires bits == 8
    ensures Pow2(bits) == 256
  {
  }

  lemma {:induction false} ClearedInterval(a: nat, x: nat, ones: nat, zeros: nat)
    requires a < Pow2(ones + zeros)
    ensures Cleared(Cleared(a, zeros), zeros) == Cleared(a, zeros)
    ensures Cleared(a, zeros) == Cleared(x, zeros)
            <==> Cleared(a, zeros) <= x < Cleared(a, zeros) + Pow2(zeros)
    ensures Cleared(a, zeros) + Pow2(zeros) <= Pow2(ones + zeros)
  {
    ClearedAgree(a, x, zeros);
    ClearedAgree(a, Cleared(a, zeros), zeros);
    ClearedFits(a, ones, zeros);
  }

  lemma {:induction false} AndMaskByte(a: Byte, k: nat)
    requires k <= 8
    ensures And(a, MaskByte(k)) == Cleared(a, 8 - k)
  {
    MaskByteValues(k);
    ByteSize(k + (8 - k));
    AndClears(a, k, 8 - k);
  }

  /** One byte: agreeing under the mask is lying in an aligned interval. */
  lemma {:induction false} MaskAligned(a: Byte, x: Byte, k: nat)
    requires k <= 8
    ensures var m, size := MaskByte(k), Pow2(8 - k);
            && (And(And(a, m), m) == And(x, m) <==> And(a, m) <= x < And(a, m) + size)
            && And(a, m) + size <= 256
  {
    AndMaskByte(a, k);
    AndMaskByte(And(a, MaskByte(k)), k);
    AndMaskByte(x, k);
    ByteSize(k + (8 - k));
    ClearedInterval(a, x, k, 8 - k);
  }

  /** The first address of the block that `ip` lies in. */
  function Base(ip: seq<Byte>, ones: nat): nat {
    Value(Masked(ip, CidrMask(ones, |ip|)))
  }

  lemma ValueOfCons(h: Byte, t: seq<Byte>)
    ensures Value([h] + t) == Shifted(h, |t|) + Value(t)
  {
    ValueOfConcat([h], t);
    assert [h][..0] == [];
    assert Value([h]) == h;
  }

  lemma {:induction false} ShiftedStep(a: int, b: int, m: nat)
    requires a < b
    ensures Shifted(a, m) + Pow256(m) <= Shifted(b, m)
  {
    ShiftedAdds(a, 1, m);
    ShiftedMonotone(a + 1, b, m);
  }

  /** An interval inside one block of the first byte is decided by that byte, then by the rest. */
  lemma {:induction false} FirstByteDecides(h: int, t: int, k: int, lo: int, hi: int, m: nat)
    requires 0 <= t < Pow256(m) && 0 <= lo <= hi <= Pow256(m)
    ensures Shifted(k, m) + lo <= Shifted(h, m) + t < Shifted(k, m) + hi <==> h == k && lo <= t < hi
  {
    if h < k {
      ShiftedStep(h, k, m);
    } else if h > k {
      ShiftedStep(k, h, m);
    }
  }

  lemma {:induction false} BlocksFit(lo: nat, size: nat, m: nat)
    requires 0 < size && lo + size <= 256
    ensures Shifted(lo, m) + Shifted(size, m) == Shifted(lo + size, m) <= Pow256(m + 1)
    ensures 0 < Shifted(size, m)
  {
    ShiftedAdds(lo, size, m);
    ShiftedMonotone(lo + size, 256, m);
    ShiftedTwice(1, 1, m);
    ShiftedMonotone(1, size, m);
    Pow256Positive(m);
  }

  /** An interval made of whole blocks of the first byte is decided by that byte alone. */
  lemma {:induction false} FirstByteSuffices(h: int, t: int, lo: int, hi: int, m: nat)
    requires 0 <= t < Pow256(m)
    ensures Shifted(lo, m) <= Shifted(h, m) + t < Shifted(hi, m) <==> lo <= h < hi
  {
    if h < lo {
      ShiftedStep(h, lo, m);
    } else {
      ShiftedMonotone(lo, h, m);
    }
    if h < hi {
      ShiftedStep(h, hi, m);
    } else {
      ShiftedMonotone(hi, h, m);
    }
  }

  lemma {:induction false} PartNumbers(h: int, t: int, lo: nat, size: nat, m: nat)
    requires 0 <= t < Pow256(m) && 0 < size && lo + size <= 256
    ensures lo <= h < lo + size
            <==> Shifted(lo, m) <= Shifted(h, m) + t < Shifted(lo, m) + Shifted(size, m)
    ensures 0 < Shifted(size, m) && Shifted(lo, m) + Shifted(size, m) <= Pow256(m + 1)
  {
    var hi := lo + size;
    BlocksFit(lo, size, m);
    FirstByteSuffices(h, t, lo, hi, m);
    assert Shifted(lo, m) + Shifted(size, m) == Shifted(hi, m);
  }

  /** The whole test, byte by byte, is membership of an interval of numbers. */
  ghost predicate IsInterval(ip: seq<Byte>, x: seq<Byte>, ones: nat)
    requires |ip| == |x|
  {
    var mask := CidrMask(ones, |ip|);
    && (Matches(Masked(ip, mask), mask, x) <==>
        Base(ip, ones) <= Value(x) < Base(ip, ones) + BlockSize(ones, |ip|))
    && 0 < BlockSize(ones, |ip|)
    && Base(ip, ones) + BlockSize(ones, |ip|) <= Pow256(|ip|)
  }

  lemma {:induction false} MatchIsInterval(ip: seq<Byte>, x: seq<Byte>, ones: nat)
    requires |ip| == |x|
    requires ones <= 8 * |ip|
    ensures IsInterval(ip, x, ones)
  {
    if |ip| == 0 {
    } else if ones >= 8 {
      MatchIsInterval(ip[1..], x[1..], ones - 8);
      WholeByte(ip, x, ones);
    } else {
      PartByte(ip, x, ones);
    }
  }

  lemma {:induction false} ValueSplits(x: seq<Byte>)
    requires |x| > 0
    ensures Value(x) == Shifted(x[0], |x| - 1) + Value(x[1..])
    ensures 0 <= Value(x[1..]) < Pow256(|x| - 1)
  {
    var h, t := x[0], x[1..];
    assert x == [h] + t;
    ValueOfCons(h, t);
    ValueBound(t);
  }

  /** The test and the block's first address, taken apart at the first byte `b` of the mask. */
  lemma {:induction false} FirstByteUnfolds(ip: seq<Byte>, x: seq<Byte>, b: Byte, rest: seq<Byte>)
    requires |ip| == |x| == |rest| + 1
    ensures var mask := [b] + rest;
            && Value(Masked(ip, mask)) == Shifted(And(ip[0], b), |rest|) + Value(Masked(ip[1..], rest))
            && (Matches(Masked(ip, mask), mask, x) <==>
                And(And(ip[0], b), b) == And(x[0], b) && Matches(Masked(ip[1..], rest), rest, x[1..]))
  {
    var mask, t := [b] + rest, Masked(ip[1..], rest);
    assert mask[1..] == rest;
    assert Masked(ip, mask) == [And(ip[0], b)] + t;
    assert ([And(ip[0], b)] + t)[1..] == t;
    ValueOfCons(And(ip[0], b), t);
  }

  lemma WholeMask(a: Byte)
    ensures And(a, 0xFF) == a
  {
    AndMaskByte(a, 8);
  }

  lemma {:induction false} WholeByte(ip: seq<Byte>, x: seq<Byte>, ones: nat)
    requires |ip| == |x| > 0 && ones >= 8
    requires IsInterval(ip[1..], x[1..], ones - 8)
    ensures IsInterval(ip, x, ones)
  {
    WholeByteUnfolds(ip, x, ones);
    ValueSplits(x);
    WholeByteNumbers(ip[0], x[0], Value(x[1..]), Base(ip[1..], ones - 8), BlockSize(ones - 8, |ip| - 1), |ip| - 1);
  }

  /** Test, first address and size, when the first byte of the mask is full. */
  lemma {:induction false} WholeByteUnfolds(ip: seq<Byte>, x: seq<Byte>, ones: nat)
    requires |ip| == |x| > 0 && ones >= 8
    ensures var mask, rest := CidrMask(ones, |ip|), CidrMask(ones - 8, |ip| - 1);
            Matches(Masked(ip, mask), mask, x) <==> ip[0] == x[0] && Matches(Masked(ip[1..], rest), rest, x[1..])
    ensures Base(ip, ones) == Shifted(ip[0], |ip| - 1) + Base(ip[1..], ones - 8)
    ensures BlockSize(ones, |ip|) == BlockSize(ones - 8, |ip| - 1)
  {
    FullByteUnfolds(ip, x, 0xFF, CidrMask(ones - 8, |ip| - 1));
  }

  lemma FullByteUnfolds(ip: seq<Byte>, x: seq<Byte>, b: Byte, rest: seq<Byte>)
    requires |ip| == |x| == |rest| + 1 && b == 0xFF
    ensures var mask := [b] + rest;
            && Value(Masked(ip, mask)) == Shifted(ip[0], |ip| - 1) + Value(Masked(ip[1..], rest))
            && (Matches(Masked(ip, mask), mask, x) <==>
                ip[0] == x[0] && Matches(Masked(ip[1..], rest), rest, x[1..]))
  {
    FirstByteUnfolds(ip, x, b, rest);
    WholeMask(ip[0]);
    WholeMask(x[0]);
  }

  lemma {:induction false} WholeByteNumbers(a: Byte, h: Byte, t: int, lo: int, size: int, m: nat)
    requires 0 <= t < Pow256(m) && 0 <= lo && 0 < size && lo + size <= Pow256(m)
    ensures Shifted(a, m) + lo <= Shifted(h, m) + t < Shifted(a, m) + lo + size <==> h == a && lo <= t < lo + size
    ensures Shifted(a, m) + lo + size <= Pow256(m + 1)
  {
    FirstByteDecides(h, t, a, lo, lo + size, m);
    ShiftedStep(a, 256, m);
    ShiftedTwice(1, 1, m);
  }

  /** Nothing is left of what a zero mask covers, and everything agrees under it. */
  lemma {:induction false} ZeroMask(ip: seq<Byte>, x: seq<Byte>)
    requires |ip| == |x|
    ensures var mask := CidrMask(0, |ip|);
            Value(Masked(ip, mask)) == 0 && Matches(Masked(ip, mask), mask, x)
  {
    if ip != [] {
      ZeroMask(ip[1..], x[1..]);
      ValueOfCons(0, Masked(ip[1..], CidrMask(0, |ip| - 1)));
      ShiftedZero(|ip| - 1);
    }
  }

  lemma {:induction false} PartByte(ip: seq<Byte>, x: seq<Byte>, ones: nat)
    requires |ip| == |x| > 0 && ones < 8
    ensures IsInterval(ip, x, ones)
  {
    var m := |ip| - 1;
    FirstByteUnfolds(ip, x, MaskByte(ones), CidrMask(0, m));
    ZeroMask(ip[1..], x[1..]);
    ValueSplits(x);
    MaskAligned(ip[0], x[0], ones);
    var lo, size := And(ip[0], MaskByte(ones)), Pow2(8 - ones);
    PartNumbers(x[0], Value(x[1..]), lo, size, m);
  }

  // ---------------------------------------------------------------- blocks as intervals

  /** The first address of a block, as a number. */
  function Low(c: Cidr): nat
    requires c.Valid()
  {
    Number(NetOf(c).ip)
  }

  /** The last address of a block, as a number. */
  function High(c: Cidr): nat
    requires c.Valid()
  {
    Low(c) + Pow2(8 * c.Width() - c.ones) - 1
  }

  /** Blocks that are compared on four bytes: the IPv4 ones, and IPv6 ones within the mapped range. */
  predicate V4Block(c: Cidr)
    requires c.Valid()
  {
    To4(NetOf(c).ip).Some?
  }

  lemma {:induction false} ShiftedPow2(k: nat, n: nat)
    ensures Shifted(Pow2(k), n) == Pow2(k + 8 * n)
  {
    if n > 0 {
      ShiftedPow2(k, n - 1);
      var e := k + 8 * (n - 1);
      assert Pow2(e + 8) == 2 * Pow2(e + 7) == 4 * Pow2(e + 6) == 8 * Pow2(e + 5) == 16 * Pow2(e + 4);
      assert Pow2(e + 4) == 2 * Pow2(e + 3) == 4 * Pow2(e + 2) == 8 * Pow2(e + 1) == 16 * Pow2(e);
    }
  }

  lemma {:induction false} BlockSizeIsPow2(ones: nat, width: nat)
    requires ones <= 8 * width
    ensures BlockSize(ones, width) == Pow2(8 * width - ones)
  {
    if width == 0 {
    } else if ones >= 8 {
      BlockSizeIsPow2(ones - 8, width - 1);
    } else {
      ShiftedPow2(8 - ones, width - 1);
    }
  }

  lemma {:induction false} MaskedTail(ip: seq<Byte>, mask: seq<Byte>, j: nat)
    requires |ip| == |mask| && j <= |ip|
    ensures Masked(ip, mask)[j..] == Masked(ip[j..], mask[j..])
  {
    if j > 0 {
      MaskedTail(ip[1..], mask[1..], j - 1);
      assert ip[1..][j - 1..] == ip[j..] && mask[1..][j - 1..] == mask[j..];
    }
  }

  lemma {:induction false} AndBelow(a: nat, b: nat)
    ensures And(a, b) <= b
  {
    if a > 0 && b > 0 {
      AndBelow(a / 2, b / 2);
    }
  }

  lemma {:induction false} MaskedAt(ip: seq<Byte>, mask: seq<Byte>, i: nat)
    requires |ip| == |mask| && i < |ip|
    ensures Masked(ip, mask)[i] == And(ip[i], mask[i])
  {
    if i > 0 {
      MaskedAt(ip[1..], mask[1..], i - 1);
    }
  }

  lemma {:induction false} CidrMaskTail(ones: nat, width: nat, j: nat)
    requires 8 * j <= ones && j <= width
    ensures CidrMask(ones, width)[j..] == CidrMask(ones - 8 * j, width - j)
  {
    if j > 0 {
      TailOfCons(0xFF, CidrMask(ones - 8, width - 1), j);
      CidrMaskTail(ones - 8, width - 1, j - 1);
    }
  }

  lemma TailOfCons(h: Byte, t: seq<Byte>, j: nat)
    requires 0 < j <= |t| + 1
    ensures ([h] + t)[j..] == t[j - 1..]
  {
  }

  /** A mask byte is full only where the prefix length covers all of it. */
  lemma {:induction false} FullMaskByte(ones: nat, width: nat, i: nat)
    requires i < width
    requires CidrMask(ones, width)[i] == 0xFF
    ensures ones >= 8 * (i + 1)
  {
    if ones < 8 {
      MaskByteValues(ones);
      MaskByteValues(0);
    }
    if i > 0 {
      FullMaskByte(if ones >= 8 then ones - 8 else 0, width - 1, i - 1);
    }
  }

  /** A 16-byte block is compared on four bytes only if its prefix covers the mapped marker. */
  lemma NarrowBlock(ip: seq<Byte>, ones: nat)
    requires |ip| == 16
    requires To4(Block(ip, ones).ip).Some?
    ensures ones >= 96
    ensures NumberAndMask(Block(ip, ones)) == Block(ip[12..], ones - 96)
  {
    var mask := CidrMask(ones, |ip|);
    var net := Masked(ip, mask);
    MaskedAt(ip, mask, 11);
    AndBelow(ip[11], mask[11]);
    assert net[11] == 0xFF;
    FullMaskByte(ones, |ip|, 11);
    CidrMaskTail(ones, |ip|, 12);
    MaskedTail(ip, mask, 12);
  }

  /** The bytes of a block's address that membership compares, and how many bits of them are fixed. */
  lemma CoreNet(c: Cidr) returns (ip: seq<Byte>, ones: nat)
    requires c.Valid()
    ensures |ip| == (if V4Block(c) then 4 else 16)
    ensures ones <= 8 * |ip| && 8 * |ip| - ones == 8 * c.Width() - c.ones
    ensures NumberAndMask(NetOf(c)) == Block(ip, ones)
  {
    ip, ones := c.ip[16 - c.Width()..], c.ones;
    if c.ipv6 && V4Block(c) {
      assert c.ip[0..] == c.ip;
      NarrowBlock(c.ip, c.ones);
      ip, ones := c.ip[12..], c.ones - 96;
    } else if V4Block(c) {
      var n := NetOf(c);
      assert n.mask[0..] == n.mask;
    }
  }

  lemma CoreLow(c: Cidr)
    requires c.Valid()
    ensures Low(c) == (if V4Block(c) then MAPPED_LOW else 0) + Value(NumberAndMask(NetOf(c)).ip)
  {
    To4IsInterval(NetOf(c).ip);
  }

  lemma IntervalOf(ip: seq<Byte>, ones: nat, x: seq<Byte>, zeros: nat)
    requires |ip| == |x| && ones <= 8 * |ip| && zeros == 8 * |ip| - ones
    ensures var n := Block(ip, ones);
            Matches(n.ip, n.mask, x) <==> Value(n.ip) <= Value(x) < Value(n.ip) + Pow2(zeros)
  {
    MatchIsInterval(ip, x, ones);
    BlockSizeIsPow2(ones, |ip|);
  }

  /** The bytes of an address that membership compares. */
  function Compared(x: seq<Byte>): seq<Byte> {
    if To4(x).Some? then To4(x).value else x
  }

  lemma ComparedNumber(x: seq<Byte>)
    requires |x| == 4 || |x| == 16
    ensures |Compared(x)| == if To4(x).Some? then 4 else 16
    ensures Number(x) == (if To4(x).Some? then MAPPED_LOW else 0) + Value(Compared(x))
  {
    To4IsInterval(x);
  }

  lemma HoldsOnCore(n: IPNet, core: IPNet, x: seq<Byte>)
    requires |n.ip| == |n.mask| && (|n.ip| == 4 || |n.ip| == 16)
    requires core == NumberAndMask(n) && |core.ip| == |core.mask|
    ensures Holds(n, x) <==> |Compared(x)| == |core.ip| && Matches(core.ip, core.mask, Compared(x))
  {
  }

  /**
   The membership test is exactly interval membership, restricted to the addresses that are
   compared on as many bytes as the block.
   */
  lemma {:induction false} ContainsIsInterval(c: Cidr, x: seq<Byte>)
    requires c.Valid()
    requires |x| == 4 || |x| == 16
    ensures Holds(NetOf(c), x) <==>
            Low(c) <= Number(x) <= High(c) && (To4(x).Some? <==> V4Block(c))
  {
    InCoreNumbers(c, x);
    if Holds(NetOf(c), x) {
      MembersAreInCore(c, x);
    }
    if InCore(c, x) {
      CoreIsMembers(c, x);
    }
  }

  lemma InCoreNumbers(c: Cidr, x: seq<Byte>)
    requires c.Valid()
    requires |x| == 4 || |x| == 16
    ensures InCore(c, x) <==> Low(c) <= Number(x) <= High(c) && (To4(x).Some? <==> V4Block(c))
  {
    CoreNumbers(c);
    ComparedNumber(x);
  }

  /** The block in terms of the bytes that are compared. */
  lemma CoreNumbers(c: Cidr)
    requires c.Valid()
    ensures Low(c) == (if V4Block(c) then MAPPED_LOW else 0) + CoreBase(c)
    ensures High(c) == Low(c) + CoreSize(c) - 1
  {
    CoreLow(c);
  }

  function CoreBase(c: Cidr): nat
    requires c.Valid()
  {
    Value(NumberAndMask(NetOf(c)).ip)
  }

  function CoreSize(c: Cidr): nat
    requires c.Valid()
  {
    Pow2(8 * c.Width() - c.ones)
  }

  /** Membership in terms of the bytes that are compared. */
  predicate InCore(c: Cidr, x: seq<Byte>)
    requires c.Valid()
  {
    && |Compared(x)| == (if V4Block(c) then 4 else 16)
    && CoreBase(c) <= Value(Compared(x)) < CoreBase(c) + CoreSize(c)
  }

  lemma MembersAreInCore(c: Cidr, x: seq<Byte>)
    requires c.Valid() && Holds(NetOf(c), x)
    ensures InCore(c, x)
  {
    MembersHaveCoreLength(c, x);
    MembersHaveCoreValue(c, x, NetOf(c));
  }

  lemma MembersHaveCoreLength(c: Cidr, x: seq<Byte>)
    requires c.Valid() && Holds(NetOf(c), x)
    ensures |Compared(x)| == if V4Block(c) then 4 else 16
  {
    var ip, ones := CoreNet(c);
    HoldsOnCore(NetOf(c), Block(ip, ones), x);
  }

  lemma MembersHaveCoreValue(c: Cidr, x: seq<Byte>, n: IPNet)
    requires c.Valid() && n == NetOf(c) && Holds(n, x)
    ensures var low := Value(NumberAndMask(n).ip);
            low <= Value(Compared(x)) < low + Pow2(8 * c.Width() - c.ones)
  {
    var ip, ones := CoreNet(c);
    HoldsInside(n, ip, ones, x, 8 * c.Width() - c.ones);
  }

  lemma CoreIsMembers(c: Cidr, x: seq<Byte>)
    requires c.Valid() && InCore(c, x)
    ensures Holds(NetOf(c), x)
  {
    var ip, ones := CoreNet(c);
    InsideHolds(NetOf(c), ip, ones, x, 8 * c.Width() - c.ones);
  }

  /** Membership of the net `n` whose compared part has the address `ip` and `zeros` free bits. */
  lemma HoldsInside(n: IPNet, ip: seq<Byte>, ones: nat, x: seq<Byte>, zeros: nat)
    requires |n.ip| == |n.mask| && (|n.ip| == 4 || |n.ip| == 16)
    requires NumberAndMask(n) == Block(ip, ones) && ones <= 8 * |ip| && zeros == 8 * |ip| - ones
    requires Holds(n, x)
    ensures |Compared(x)| == |ip|
    ensures Value(NumberAndMask(n).ip) <= Value(Compared(x)) < Value(NumberAndMask(n).ip) + Pow2(zeros)
  {
    HoldsOnCore(n, Block(ip, ones), x);
    IntervalOf(ip, ones, Compared(x), zeros);
  }

  lemma InsideHolds(n: IPNet, ip: seq<Byte>, ones: nat, x: seq<Byte>, zeros: nat)
    requires |n.ip| == |n.mask| && (|n.ip| == 4 || |n.ip| == 16)
    requires NumberAndMask(n) == Block(ip, ones) && ones <= 8 * |ip| && zeros == 8 * |ip| - ones
    requires |Compared(x)| == |ip|
    requires Value(NumberAndMask(n).ip) <= Value(Compared(x)) < Value(NumberAndMask(n).ip) + Pow2(zeros)
    ensures Holds(n, x)
  {
    HoldsOnCore(n, Block(ip, ones), x);
    IntervalOf(ip, ones, Compared(x), zeros);
  }

  lemma AndTwice(a: Byte, k: nat)
    requires k <= 8
    ensures And(And(a, MaskByte(k)), MaskByte(k)) == And(a, MaskByte(k))
  {
    AndMaskByte(a, k);
    AndMaskByte(And(a, MaskByte(k)), k);
    ByteSize(k + (8 - k));
    ClearedInterval(a, a, k, 8 - k);
  }

  lemma {:induction false} SelfMatch(ip: seq<Byte>, ones: nat)
    ensures var mask := CidrMask(ones, |ip|); Matches(Masked(ip, mask), mask, ip)
  {
    if ip != [] {
      var k := if ones >= 8 then 8 else ones;
      CidrMaskHead(ones, |ip|, k);
      SelfMatch(ip[1..], ones - k);
      SelfMatchStep(ip, k, CidrMask(ones - k, |ip| - 1));
    }
  }

  lemma CidrMaskHead(ones: nat, width: nat, k: nat)
    requires width > 0 && k == if ones >= 8 then 8 else ones
    ensures CidrMask(ones, width) == [MaskByte(k)] + CidrMask(ones - k, width - 1)
  {
    FullMask(8);
  }

  lemma FullMask(k: nat)
    requires k == 8
    ensures MaskByte(k) == 0xFF
  {
    ByteSize(k);
  }

  lemma SelfMatchStep(ip: seq<Byte>, k: nat, rest: seq<Byte>)
    requires |ip| == |rest| + 1 && k <= 8
    requires Matches(Masked(ip[1..], rest), rest, ip[1..])
    ensures var mask := [MaskByte(k)] + rest; Matches(Masked(ip, mask), mask, ip)
  {
    AndTwice(ip[0], k);
    FirstByteUnfolds(ip, ip, MaskByte(k), rest);
  }

  lemma OwnInterval(ip: seq<Byte>, ones: nat)
    requires ones <= 8 * |ip|
    ensures var low, size := Value(Block(ip, ones).ip), Pow2(8 * |ip| - ones);
            low <= Value(ip) < low + size <= Pow256(|ip|)
  {
    SelfMatch(ip, ones);
    MatchIsInterval(ip, ip, ones);
    BlockSizeIsPow2(ones, |ip|);
  }

  /** The address written in front of the slash lies in its block. */
  lemma OwnAddress(c: Cidr)
    requires c.Valid()
    ensures Low(c) <= Number(c.ip) <= High(c)
  {
    if c.ipv6 {
      assert c.ip[0..] == c.ip;
      OwnInterval(c.ip, c.ones);
    } else {
      OwnInterval(c.ip[12..], c.ones);
      To4IsInterval(c.ip);
      To4IsInterval(NetOf(c).ip);
    }
  }

  /** No block reaches beyond the addresses it is compared with. */
  lemma BlockBounds(c: Cidr)
    requires c.Valid()
    ensures High(c) < TWO_128
    ensures V4Block(c) ==> MAPPED_LOW <= Low(c) && High(c) < TWO_48
  {
    CoreNumbers(c);
    CoreFits(c);
  }

  lemma CoreFits(c: Cidr)
    requires c.Valid()
    ensures CoreBase(c) + CoreSize(c) <= if V4Block(c) then TWO_32 else TWO_128
  {
    var ip, ones := CoreNet(c);
    BlockFits(ip, ones);
  }

  lemma BlockFits(ip: seq<Byte>, ones: nat)
    requires |ip| == 4 || |ip| == 16
    requires ones <= 8 * |ip|
    ensures Value(Block(ip, ones).ip) + Pow2(8 * |ip| - ones) <= if |ip| == 4 then TWO_32 else TWO_128
  {
    Powers();
    OwnInterval(ip, ones);
  }

  // ---------------------------------------------------------------- blocks as prefixes

  /** `v` followed by `n` zero bits. */
  function Doubled(v: int, n: nat): int {
    if n == 0 then v else 2 * Doubled(v, n - 1)
  }

  lemma {:induction false} ShiftedIsDoubled(v: int, n: nat)
    ensures Shifted(v, n) == Doubled(v, 8 * n)
  {
    if n > 0 {
      ShiftedIsDoubled(v, n - 1);
      EightTimes(v, 8 * (n - 1));
    }
  }

  lemma EightTimes(v: int, n: nat)
    ensures Doubled(v, n + 8) == 256 * Doubled(v, n)
  {
    assert Doubled(v, n + 8) == 2 * Doubled(v, n + 7) == 4 * Doubled(v, n + 6);
    assert Doubled(v, n + 6) == 2 * Doubled(v, n + 5) == 4 * Doubled(v, n + 4);
    assert Doubled(v, n + 4) == 2 * Doubled(v, n + 3) == 4 * Doubled(v, n + 2);
    assert Doubled(v, n + 2) == 2 * Doubled(v, n + 1) == 4 * Doubled(v, n);
  }

  lemma {:induction false} DoubledNat(h: nat, n: nat)
    ensures Doubled(h, n) >= 0
  {
    if n > 0 {
      DoubledNat(h, n - 1);
    }
  }

  /** Clearing bits of the lower part leaves the upper part alone. */
  lemma {:induction false} ClearedBelow(h: nat, t: nat, n: nat, k: nat)
    requires k <= n && Doubled(h, n) >= 0
    ensures Cleared(Doubled(h, n) + t, k) == Doubled(h, n) + Cleared(t, k)
  {
    if k > 0 {
      var d := Doubled(h, n - 1);
      assert (2 * d + t) / 2 == d + t / 2;
      ClearedBelow(h, t / 2, n - 1, k - 1);
    }
  }

  /** Clearing the whole lower part and more clears bits of the upper part. */
  lemma {:induction false} ClearedAbove(h: nat, t: nat, n: nat, k: nat)
    requires n <= k && t < Pow2(n) && Doubled(h, n) >= 0
    ensures Cleared(Doubled(h, n) + t, k) == Doubled(Cleared(h, k - n), n)
  {
    if n > 0 {
      var d := Doubled(h, n - 1);
      assert (2 * d + t) / 2 == d + t / 2;
      ClearedAbove(h, t / 2, n - 1, k - 1);
    }
  }

  /** The first address of a block is the given one with the free bits cleared. */
  lemma {:induction false} BaseIsCleared(ip: seq<Byte>, ones: nat)
    requires ones <= 8 * |ip|
    ensures Base(ip, ones) == Cleared(Value(ip), 8 * |ip| - ones)
  {
    if |ip| == 0 {
    } else if ones >= 8 {
      BaseIsCleared(ip[1..], ones - 8);
      WholeByteCleared(ip, ones, 8 * |ip| - ones);
    } else {
      PartByteCleared(ip, ones, 8 * |ip| - ones);
    }
  }

  lemma WholeByteCleared(ip: seq<Byte>, ones: nat, free: nat)
    requires |ip| > 0 && 8 <= ones <= 8 * |ip| && free == 8 * |ip| - ones
    requires Base(ip[1..], ones - 8) == Cleared(Value(ip[1..]), free)
    ensures Base(ip, ones) == Cleared(Value(ip), free)
  {
    WholeByteUnfolds(ip, ip, ones);
    ValueSplits(ip);
    ClearedInTail(ip[0], Value(ip[1..]), |ip| - 1, free);
  }

  lemma PartByteCleared(ip: seq<Byte>, ones: nat, free: nat)
    requires |ip| > 0 && ones < 8 && free == 8 * |ip| - ones
    ensures Base(ip, ones) == Cleared(Value(ip), free)
  {
    PartByteBase(ip, ones);
    ValueSplits(ip);
    ClearedInHead(ip[0], Value(ip[1..]), |ip| - 1, 8 - ones);
  }

  lemma ClearedInTail(h: Byte, t: nat, m: nat, k: nat)
    requires k <= 8 * m
    ensures Shifted(h, m) >= 0 && Cleared(Shifted(h, m) + t, k) == Shifted(h, m) + Cleared(t, k)
  {
    ShiftedIsDoubled(h, m);
    DoubledNat(h, 8 * m);
    ClearedBelow(h, t, 8 * m, k);
  }

  lemma ClearedInHead(h: Byte, t: nat, m: nat, k: nat)
    requires t < Pow256(m)
    ensures Shifted(h, m) >= 0 && Cleared(Shifted(h, m) + t, 8 * m + k) == Shifted(Cleared(h, k), m)
  {
    ShiftedIsDoubled(h, m);
    ShiftedIsDoubled(Cleared(h, k), m);
    DoubledNat(h, 8 * m);
    ShiftedPow2(0, m);
    ClearedAbove(h, t, 8 * m, 8 * m + k);
  }

  lemma PartByteBase(ip: seq<Byte>, ones: nat)
    requires |ip| > 0 && ones < 8
    ensures Base(ip, ones) == Shifted(Cleared(ip[0], 8 - ones), |ip| - 1)
  {
    FirstByteUnfolds(ip, ip, MaskByte(ones), CidrMask(0, |ip| - 1));
    ZeroMask(ip[1..], ip[1..]);
    AndMaskByte(ip[0], ones);
  }

  /** `n` without its last `k` bits. */
  function Prefix(n: nat, k: nat): nat {
    if k == 0 then n else Prefix(n / 2, k - 1)
  }

  lemma {:induction false} PrefixIsCleared(a: nat, x: nat, k: nat)
    ensures Prefix(a, k) == Prefix(x, k) <==> Cleared(a, k) == Cleared(x, k)
  {
    if k > 0 {
      PrefixIsCleared(a / 2, x / 2, k - 1);
    }
  }

  lemma MappedCleared(v: nat, k: nat)
    requires k <= 32
    ensures Cleared(MAPPED_LOW + v, k) == MAPPED_LOW + Cleared(v, k)
  {
    ShiftedIsDoubled(0xFFFF, 4);
    assert Shifted(0xFFFF, 4) == MAPPED_LOW;
    ClearedBelow(0xFFFF, v, 32, k);
  }

  /** The number of bits that a prefix length leaves free. */
  function FreeBits(c: Cidr): nat
    requires c.Valid()
  {
    8 * c.Width() - c.ones
  }

  lemma LowIsCleared(c: Cidr)
    requires c.Valid()
    ensures Low(c) == Cleared(Number(c.ip), FreeBits(c))
  {
    if c.ipv6 {
      assert c.ip[0..] == c.ip;
      BaseIsCleared(c.ip, c.ones);
    } else {
      V4LowIsBase(c);
      V4BaseIsCleared(c.ip[12..], c.ones, FreeBits(c));
    }
  }

  lemma V4LowIsBase(c: Cidr)
    requires c.Valid() && !c.ipv6
    ensures Number(c.ip) == MAPPED_LOW + Value(c.ip[12..])
    ensures Low(c) == MAPPED_LOW + Base(c.ip[12..], c.ones)
  {
    To4IsInterval(c.ip);
    To4IsInterval(NetOf(c).ip);
  }

  lemma V4BaseIsCleared(ip: seq<Byte>, ones: nat, free: nat)
    requires |ip| == 4 && free + ones == 32
    ensures MAPPED_LOW + Base(ip, ones) == Cleared(MAPPED_LOW + Value(ip), free)
  {
    BaseIsCleared(ip, ones);
    MappedCleared(Value(ip), free);
  }

  /** An address lies in the interval of a block exactly if it has the block's prefix. */
  lemma IntervalIsPrefix(c: Cidr, n: nat, free: nat)
    requires c.Valid() && free == FreeBits(c)
    ensures Low(c) <= n <= High(c) <==> Prefix(n, free) == Prefix(Number(c.ip), free)
  {
    LowIsCleared(c);
    PrefixIsCleared(n, Number(c.ip), free);
    ClearedAgree(Number(c.ip), n, free);
  }

  /** Which blocks are compared on four bytes, by what is written in front of and behind the slash. */
  lemma V4BlockIs(c: Cidr)
    requires c.Valid()
    ensures V4Block(c) <==> !c.ipv6 || (c.ones >= 96 && To4(c.ip).Some?)
  {
    if c.ipv6 {
      assert c.ip[0..] == c.ip;
      if V4Block(c) {
        NarrowBlock(c.ip, c.ones);
      }
      if c.ones >= 96 {
        FullPrefixKept(c.ip, c.ones);
      }
    }
  }

  lemma {:induction false} FullMaskAt(ones: nat, width: nat, i: nat)
    requires i < width && 8 * (i + 1) <= ones
    ensures CidrMask(ones, width)[i] == 0xFF
  {
    if i > 0 {
      FullMaskAt(ones - 8, width - 1, i - 1);
    }
  }

  lemma FullPrefixKept(ip: seq<Byte>, ones: nat)
    requires |ip| == 16 && ones >= 96
    ensures forall i :: 0 <= i < 12 ==> Block(ip, ones).ip[i] == ip[i]
  {
    var mask := CidrMask(ones, 16);
    forall i | 0 <= i < 12
      ensures Masked(ip, mask)[i] == ip[i]
    {
      MaskedAt(ip, mask, i);
      FullMaskAt(ones, 16, i);
      WholeMask(ip[i]);
    }
  }

  /**
   Membership is agreement on the prefix, between addresses of one family: section 3.1 of
   RFC 4632 in numbers.
   */
  lemma ContainsIsPrefix(c: Cidr, x: seq<Byte>, free: nat)
    requires c.Valid() && free + c.ones == if c.ipv6 then 128 else 32
    requires |x| == 4 || |x| == 16
    ensures Holds(NetOf(c), x) <==>
            && Prefix(Number(x), free) == Prefix(Number(c.ip), free)
            && (To4(x).Some? <==> !c.ipv6 || (c.ones >= 96 && To4(c.ip).Some?))
  {
    ContainsIsInterval(c, x);
    IntervalIsPrefix(c, Number(x), free);
    V4BlockIs(c);
  }
}

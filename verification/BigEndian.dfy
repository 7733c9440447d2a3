/**
 Big-endian byte strings and the numbers they denote: the two views of an address that
 `math/big` converts between (`SetBytes` and `Bytes`).
 */
module BigEndian {
  type Byte = n: int | 0 <= n < 256

  /** `v` moved `n` bytes to the left. */
  function Shifted(v: int, n: nat): int {
    if n == 0 then v else 256 * Shifted(v, n - 1)
  }

  /** The number of values of `n` bytes. */
  function Pow256(n: nat): int {
    Shifted(1, n)
  }

  /** The number a byte string denotes, most significant byte first (`big.Int.SetBytes`). */
  function Value(bs: seq<Byte>): nat
  {
    if bs == [] then 0 else 256 * Value(bs[..|bs| - 1]) + bs[|bs| - 1]
  }

  /** The shortest byte string denoting `n` (`big.Int.Bytes`); no byte at all for 0. */
  function Bytes(n: nat): seq<Byte>
  {
    if n == 0 then [] else Bytes(n / 256) + [n % 256]
  }

  lemma {:induction false} ShiftedAdds(a: int, b: int, n: nat)
    ensures Shifted(a + b, n) == Shifted(a, n) + Shifted(b, n)
  {
    if n > 0 {
      ShiftedAdds(a, b, n - 1);
    }
  }

  lemma {:induction false} ShiftedTwice(v: int, m: nat, n: nat)
    ensures Shifted(Shifted(v, m), n) == Shifted(v, m + n)
  {
    if n > 0 {
      ShiftedTwice(v, m, n - 1);
    }
  }

  lemma {:induction false} ShiftedIsProduct(v: int, n: nat)
    ensures Shifted(v, n) == v * Pow256(n)
  {
    if n > 0 {
      ShiftedIsProduct(v, n - 1);
      assert v * (256 * Pow256(n - 1)) == 256 * (v * Pow256(n - 1));
    }
  }

  lemma {:induction false} ShiftedMonotone(a: int, b: int, n: nat)
    requires a <= b
    ensures Shifted(a, n) <= Shifted(b, n)
  {
    if n > 0 {
      ShiftedMonotone(a, b, n - 1);
    }
  }

  lemma {:induction false} ShiftedZero(n: nat)
    ensures Shifted(0, n) == 0
  {
    if n > 0 {
      ShiftedZero(n - 1);
    }
  }

  lemma {:induction false} Pow256Positive(n: nat)
    ensures Pow256(n) >= 1
  {
    if n > 0 {
      Pow256Positive(n - 1);
    }
  }

  lemma {:induction false} Pow256Monotone(m: nat, n: nat)
    requires m <= n
    ensures Pow256(m) <= Pow256(n)
  {
    if m < n {
      Pow256Monotone(m, n - 1);
      Pow256Positive(n - 1);
    }
  }

  lemma {:induction false} ValueBound(bs: seq<Byte>)
    ensures Value(bs) < Pow256(|bs|)
  {
    if bs == [] {
    } else {
      ValueBound(bs[..|bs| - 1]);
    }
  }

  /** Reading and writing are inverse: no byte is lost and none is added. */
  lemma {:induction false} ValueOfBytes(n: nat)
    ensures Value(Bytes(n)) == n
  {
    if n == 0 {
    } else {
      ValueOfBytes(n / 256);
      assert Bytes(n)[..|Bytes(n)| - 1] == Bytes(n / 256);
    }
  }

  /** `Bytes` is as short as possible: `k` bytes are enough exactly for the numbers below 256^k. */
  lemma {:induction false} BytesLength(n: nat, k: nat)
    ensures |Bytes(n)| <= k <==> n < Pow256(k)
  {
    if n == 0 {
      Pow256Positive(k);
    } else if k == 0 {
      assert |Bytes(n)| >= 1;
    } else {
      BytesLength(n / 256, k - 1);
    }
  }

  /** Concatenation shifts the left part by the width of the right one. */
  lemma {:induction false} ValueOfConcat(a: seq<Byte>, b: seq<Byte>)
    ensures Value(a + b) == Shifted(Value(a), |b|) + Value(b)
  {
    if b == [] {
      assert a + b == a;
    } else {
      var b' := b[..|b| - 1];
      ValueOfConcat(a, b');
      assert (a + b)[..|a + b| - 1] == a + b';
    }
  }

  /** Strings of one length are told apart by their values. */
  lemma {:induction false} ValueInjective(a: seq<Byte>, b: seq<Byte>)
    requires |a| == |b|
    requires Value(a) == Value(b)
    ensures a == b
  {
    if a == [] {
    } else {
      ValueInjective(a[..|a| - 1], b[..|b| - 1]);
      assert a == a[..|a| - 1] + [a[|a| - 1]];
      assert b == b[..|b| - 1] + [b[|b| - 1]];
    }
  }

  /** The first byte weighs most. */
  lemma FirstWeighsMost(a: Byte, b: Byte, c: Byte, d: Byte)
    ensures Value([a, b, c, d]) == 0x100_0000 * a + 0x1_0000 * b + 0x100 * c + d
  {
    var s := [a, b, c, d];
    assert s[..3] == [a, b, c] && [a, b, c][..2] == [a, b] && [a, b][..1] == [a] && [a][..0] == [];
    assert Value([a]) == a;
    assert Value([a, b]) == 256 * a + b;
    assert Value([a, b, c]) == 256 * Value([a, b]) + c;
  }
}

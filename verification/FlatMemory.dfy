/**
  The meaning shared by both memories: one circular sequence of bits.  Byte address `a`
  denotes the bits from `8 * a` on, and addresses wrap at 2^64.
 */
module FlatMemory {
  import opened BitVectors

  const ADDRESSES: nat := 0x1_0000_0000_0000_0000
  const TOTAL_BITS: nat := 0x8_0000_0000_0000_0000

  /** How far position `j` is after position `p` on a circle of `n` bits. */
  function Dist(n: nat, p: nat, j: nat): nat
    requires p < n && j < n
  {
    if j >= p then j - p else j + n - p
  }

  function Wrap(n: nat, x: nat): (r: nat)
    requires x < 2 * n
    ensures r < n
  {
    if x < n then x else x - n
  }

  function FlatWrite(s: Bits, p: nat, v: Bits): (r: Bits)
    requires p < |s| && |v| <= |s|
    ensures |r| == |s|
  {
    seq(|s|, j requires 0 <= j < |s| => if Dist(|s|, p, j) < |v| then v[Dist(|s|, p, j)] else s[j])
  }

  function FlatRead(s: Bits, p: nat, n: nat): (r: Bits)
    requires p < |s| && n <= |s|
    ensures |r| == n
  {
    seq(n, k requires 0 <= k < n => s[Wrap(|s|, p + k)])
  }

  /** A read returns what was last written there. */
  lemma ReadOverWrite(s: Bits, p: nat, v: Bits)
    requires p < |s| && |v| <= |s|
    ensures FlatRead(FlatWrite(s, p, v), p, |v|) == v
  {
    var r := FlatRead(FlatWrite(s, p, v), p, |v|);
    forall k | 0 <= k < |v|
      ensures r[k] == v[k]
    {
      assert Dist(|s|, p, Wrap(|s|, p + k)) == k;
    }
  }

  /** More generally, a read of part of what was written returns that part. */
  lemma ReadInsideWrite(s: Bits, p: nat, v: Bits, off: nat, n: nat)
    requires p < |s| && |v| <= |s| && off + n <= |v|
    ensures FlatRead(FlatWrite(s, p, v), Wrap(|s|, p + off), n) == v[off..off + n]
  {
    var r := FlatRead(FlatWrite(s, p, v), Wrap(|s|, p + off), n);
    forall k | 0 <= k < n
      ensures r[k] == v[off..off + n][k]
    {
      assert Dist(|s|, p, Wrap(|s|, Wrap(|s|, p + off) + k)) == off + k;
    }
  }

  /** Two ranges that share no position. */
  predicate Separate(n: nat, p: nat, len: nat, q: nat, len': nat)
    requires p < n && q < n
  {
    Dist(n, p, q) >= len && Dist(n, q, p) >= len'
  }

  /** A write outside the range that is read does not change the result. */
  lemma ReadElsewhere(s: Bits, p: nat, v: Bits, q: nat, n: nat)
    requires p < |s| && q < |s| && |v| <= |s| && n <= |s| && Separate(|s|, p, |v|, q, n)
    ensures FlatRead(FlatWrite(s, p, v), q, n) == FlatRead(s, q, n)
  {
    var r, r' := FlatRead(FlatWrite(s, p, v), q, n), FlatRead(s, q, n);
    forall k | 0 <= k < n
      ensures r[k] == r'[k]
    {
      assert Dist(|s|, p, Wrap(|s|, q + k)) >= |v|;
    }
  }

  /** Adjacent writes compose. */
  lemma WriteCompose(s: Bits, p: nat, v: Bits, w: Bits)
    requires p < |s| && |v| + |w| <= |s| && |v| < |s|
    ensures FlatWrite(FlatWrite(s, p, v), Wrap(|s|, p + |v|), w) == FlatWrite(s, p, v + w)
  {
    var a, b := FlatWrite(FlatWrite(s, p, v), Wrap(|s|, p + |v|), w), FlatWrite(s, p, v + w);
    forall j | 0 <= j < |s|
      ensures a[j] == b[j]
    {
      var d, d' := Dist(|s|, p, j), Dist(|s|, Wrap(|s|, p + |v|), j);
      assert d' == if d >= |v| then d - |v| else d + |s| - |v|;
    }
  }

  lemma ReadCompose(s: Bits, p: nat, m: nat, n: nat)
    requires p < |s| && m < |s| && m + n <= |s|
    ensures Concat(FlatRead(s, Wrap(|s|, p + m), n), FlatRead(s, p, m)) == FlatRead(s, p, m + n)
  {
    var a, b := FlatRead(s, p, m) + FlatRead(s, Wrap(|s|, p + m), n), FlatRead(s, p, m + n);
    forall k | 0 <= k < m + n
      ensures a[k] == b[k]
    {
      if k >= m {
        assert Wrap(|s|, Wrap(|s|, p + m) + (k - m)) == Wrap(|s|, p + k);
      }
    }
  }

  /** `a + k` on 64-bit addresses. */
  function AddrAdd(a: nat, k: nat): (r: nat)
    requires a < ADDRESSES && k < ADDRESSES
    ensures r < ADDRESSES
    ensures 8 * r == Wrap(TOTAL_BITS, 8 * a + 8 * k)
  {
    Wrap(ADDRESSES, a + k)
  }
}

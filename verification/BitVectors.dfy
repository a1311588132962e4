/** Bit-vector values as little-endian sequences of bits, and the operations the memories use. */
module BitVectors {

  type Bits = seq<bool>

  function Zeros(n: nat): (r: Bits)
    ensures |r| == n
  {
    seq(n, _ => false)
  }

  function Ones(n: nat): (r: Bits)
    ensures |r| == n
  {
    seq(n, _ => true)
  }

  /** Bits `low` to `high`, both inclusive. */
  function Slice(b: Bits, high: nat, low: nat): (r: Bits)
    requires low <= high < |b|
    ensures |r| == high - low + 1
  {
    b[low..high + 1]
  }

  /** `hi` supplies the most significant bits. */
  function Concat(hi: Bits, lo: Bits): Bits {
    lo + hi
  }

  function Uext(b: Bits, n: nat): Bits {
    b + Zeros(n)
  }

  function Sll(b: Bits, k: nat): (r: Bits)
    ensures |r| == |b|
  {
    seq(|b|, i requires 0 <= i < |b| => i >= k && b[i - k])
  }

  function Srl(b: Bits, k: nat): (r: Bits)
    ensures |r| == |b|
  {
    seq(|b|, i requires 0 <= i < |b| => i + k < |b| && b[i + k])
  }

  function Not(b: Bits): (r: Bits)
    ensures |r| == |b|
  {
    seq(|b|, i requires 0 <= i < |b| => !b[i])
  }

  function And(a: Bits, b: Bits): (r: Bits)
    requires |a| == |b|
    ensures |r| == |a|
  {
    seq(|a|, i requires 0 <= i < |a| => a[i] && b[i])
  }

  function Or(a: Bits, b: Bits): (r: Bits)
    requires |a| == |b|
    ensures |r| == |a|
  {
    seq(|a|, i requires 0 <= i < |a| => a[i] || b[i])
  }

  /** `b` with the bits from `offset` on replaced by `val`, computed with a clearing mask and a
      writing mask, since bits cannot be sliced at a symbolic position. */
  function Masked(b: Bits, val: Bits, offset: nat): (r: Bits)
    requires offset + |val| <= |b|
    ensures r == b[..offset] + val + b[offset + |val|..]
  {
    var maskClear := Not(Sll(Uext(Ones(|val|), |b| - |val|), offset));
    var maskWrite := Sll(Uext(val, |b| - |val|), offset);
    Or(And(b, maskClear), maskWrite)
  }
}

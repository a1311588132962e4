/** Values of bit-vectors as binary digits, most significant digit first. */
module BinaryDigits {

  type Digits = seq<bool>

  function Pow2(n: nat): (r: nat)
    ensures r > 0
  {
    if n == 0 then 1 else 2 * Pow2(n - 1)
  }

  function Number(d: Digits): nat {
    if d == [] then 0 else 2 * Number(d[..|d| - 1]) + if d[|d| - 1] then 1 else 0
  }

  /** Exactly `w` digits, padded with zeroes. */
  function ToDigits(v: nat, w: nat): (d: Digits)
    ensures |d| == w
  {
    if w == 0 then [] else ToDigits(v / 2, w - 1) + [v % 2 == 1]
  }

  lemma {:induction false} NumberBound(d: Digits)
    ensures Number(d) < Pow2(|d|)
  {
    if d != [] {
      NumberBound(d[..|d| - 1]);
    }
  }

  lemma {:induction false} NumberOfDigits(v: nat, w: nat)
    requires v < Pow2(w)
    ensures Number(ToDigits(v, w)) == v
  {
    if w > 0 {
      NumberOfDigits(v / 2, w - 1);
    }
  }

  lemma {:induction false} DigitsOfNumber(d: Digits)
    ensures ToDigits(Number(d), |d|) == d
  {
    if d != [] {
      DigitsOfNumber(d[..|d| - 1]);
      assert d == d[..|d| - 1] + [d[|d| - 1]];
    }
  }

  /** Digit strings of one width are determined by their number. */
  lemma NumberInjective(a: Digits, b: Digits)
    requires |a| == |b| && Number(a) == Number(b)
    ensures a == b
  {
    DigitsOfNumber(a);
    DigitsOfNumber(b);
  }

  lemma {:induction false} NumberConcat(a: Digits, b: Digits)
    ensures Number(a + b) == Number(a) * Pow2(|b|) + Number(b)
  {
    if b == [] {
      assert a + b == a;
    } else {
      var b' := b[..|b| - 1];
      assert (a + b)[..|a + b| - 1] == a + b' && (a + b)[|a + b| - 1] == b[|b| - 1];
      NumberConcat(a, b');
      ScaleTwice(Number(a), Pow2(|b'|));
    }
  }

  lemma ScaleTwice(x: nat, p: nat)
    ensures x * (2 * p) == 2 * (x * p)
  {
  }

  lemma ScaleStrictly(x: nat, y: nat, p: nat)
    requires x < y
    ensures x * p + p <= y * p
  {
    assert (y - x - 1) * p >= 0;
    assert y * p == x * p + p + (y - x - 1) * p;
  }

  /** Comparing numbers digit block by digit block, from the top. */
  lemma NumberLexicographic(a: Digits, b: Digits, c: Digits, d: Digits)
    requires |b| == |d|
    ensures Number(a) < Number(c) ==> Number(a + b) < Number(c + d)
    ensures Number(a) == Number(c) ==> (Number(a + b) <= Number(c + d) <==> Number(b) <= Number(d))
  {
    NumberConcat(a, b);
    NumberConcat(c, d);
    NumberBound(b);
    if Number(a) < Number(c) {
      ScaleStrictly(Number(a), Number(c), Pow2(|b|));
    }
  }

  lemma {:induction false} Pow2Monotone(a: nat, b: nat)
    requires a <= b
    ensures Pow2(a) <= Pow2(b)
  {
    if a < b {
      Pow2Monotone(a, b - 1);
    }
  }

  lemma Pow2Of64()
    ensures Pow2(64) == 0x1_0000_0000_0000_0000
  {
    assert Pow2(8) == 256;
    assert Pow2(16) == 65536;
    assert Pow2(24) == 0x100_0000;
    assert Pow2(32) == 0x1_0000_0000;
    assert Pow2(40) == 0x100_0000_0000;
    assert Pow2(48) == 0x1_0000_0000_0000;
    assert Pow2(56) == 0x100_0000_0000_0000;
  }

  lemma {:induction false} OnesIsLargest(w: nat)
    ensures Number(seq(w, _ => true)) == Pow2(w) - 1
  {
    if w > 0 {
      OnesIsLargest(w - 1);
      assert seq(w, _ => true)[..w - 1] == seq(w - 1, _ => true);
    }
  }
}

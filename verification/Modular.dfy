/** Remainders. */
module Modular {

  lemma Distribute(a: int, b: int, m: int)
    ensures (a - b) * m == a * m - b * m
  {
  }

  lemma {:induction false} MultipleAtLeast(d: nat, m: nat)
    requires d > 0
    ensures d * m >= m
  {
    if d > 1 {
      MultipleAtLeast(d - 1, m);
      Distribute(d, 1, m);
    }
  }

  lemma QuotientUnique(m: nat, q: int, t: int, q': int, t': int)
    requires m > 0 && q * m + t == q' * m + t' && 0 <= t < m && 0 <= t' < m
    ensures q == q' && t == t'
  {
    Distribute(q, q', m);
    Distribute(q', q, m);
    if q > q' {
      MultipleAtLeast(q - q', m);
      assert false;
    } else if q < q' {
      MultipleAtLeast(q' - q, m);
      assert false;
    }
  }

  lemma RemainderIs(v: int, m: nat, q: int, t: int)
    requires m > 0 && v == q * m + t && 0 <= t < m
    ensures v % m == t
  {
    QuotientUnique(m, q, t, v / m, v % m);
  }

  lemma HalfRemainder(v: nat, p: nat)
    requires p > 0
    ensures v % (2 * p) == v % 2 + 2 * (v / 2 % p)
  {
    var q, r := v / 2 / p, v / 2 % p;
    Halves(v, p, q, r);
    RemainderIs(v, 2 * p, q, v % 2 + 2 * r);
  }

  lemma Halves(v: nat, p: nat, q: nat, r: nat)
    requires p > 0 && v / 2 == q * p + r && r < p
    ensures v == q * (2 * p) + (v % 2 + 2 * r)
  {
    assert v == 2 * (v / 2) + v % 2;
    assert 2 * (q * p) == q * (2 * p);
  }

  lemma AddRemainder(a: int, b: int, m: nat)
    requires m > 0
    ensures (a % m + b) % m == (a + b) % m
  {
    var q, r := a / m, a % m;
    var q', t := (r + b) / m, (r + b) % m;
    assert a == q * m + r && r + b == q' * m + t;
    Distribute(q, -q', m);
    RemainderIs(a + b, m, q + q', t);
  }

  lemma AddRemainders(a: int, b: int, m: nat)
    requires m > 0
    ensures (a % m + b % m) % m == (a + b) % m
  {
    AddRemainder(a, b % m, m);
    AddRemainder(b, a, m);
  }

  lemma {:induction false} MultiplyRemainder(i: nat, b: nat, m: nat)
    requires m > 0
    ensures i * (b % m) % m == i * b % m
  {
    if i > 0 {
      MultiplyRemainder(i - 1, b, m);
      Distribute(i, 1, b % m);
      Distribute(i, 1, b);
      AddRemainders((i - 1) * (b % m), b % m, m);
      AddRemainders((i - 1) * b, b, m);
      RemainderTwice(b, m);
    } else {
      assert i * (b % m) == 0 && i * b == 0;
    }
  }

  lemma RemainderTwice(b: int, m: nat)
    requires m > 0
    ensures b % m % m == b % m
  {
    RemainderIs(b % m, m, 0, b % m);
  }
}

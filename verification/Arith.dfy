/** Quotient and remainder facts for a variable divisor. */
module Arith {

  lemma MulAtLeast(d: int, w: nat)
    requires d >= 1
    ensures d * w >= w
  {
    assert d * w == (d - 1) * w + w;
  }

  lemma DivModUnique(x: nat, w: nat, q: int, r: nat)
    requires w > 0 && x == q * w + r && r < w
    ensures x % w == r && x / w == q
  {
    var q' := x / w;
    var d := q - q';
    assert x == q' * w + x % w;
    assert d * w == q * w - q' * w;
    if d >= 1 {
      MulAtLeast(d, w);
    } else if d <= -1 {
      assert (-d) * w == -(d * w);
      MulAtLeast(-d, w);
    }
  }

  lemma ModAddPeriod(x: nat, w: nat)
    requires w > 0
    ensures (x + w) % w == x % w
  {
    assert x + w == (x / w + 1) * w + x % w;
    DivModUnique(x + w, w, x / w + 1, x % w);
  }

  lemma QuotientRemainder(n: nat, w: nat)
    requires w > 0
    ensures n / w >= 0 && n / w * w + n % w == n && n % w < w
  {
  }

  /** Multiplying by `c` and then by its inverse modulo `m` gives back the number. */
  lemma InverseCancels(v: nat, c: nat, d: nat, m: nat)
    requires m > 1 && v < m && c * d % m == 1
    ensures v * c % m * d % m == v
  {
    var k, q, r := c * d / m, v * c / m, v * c % m;
    assert c * d == k * m + 1;
    assert v * c == q * m + r;
    assert r * d == (v * k - q * d) * m + v by {
      assert r * d == (v * c - q * m) * d == v * (c * d) - q * m * d;
      assert v * (c * d) == v * k * m + v;
      assert q * m * d == q * d * m;
    }
    DivModUnique(r * d, m, v * k - q * d, v);
  }
}

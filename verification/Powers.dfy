/** Powers of two and of 256. */
module Powers {
  function Pow2(n: nat): (p: nat)
    ensures p >= 1
  {
    if n == 0 then 1 else 2 * Pow2(n - 1)
  }

  function Pow256(size: nat): (p: nat)
    ensures p >= 1
  {
    if size == 0 then 1 else 256 * Pow256(size - 1)
  }

  lemma ProductIsNatural(a: nat, b: nat)
    ensures a * b >= 0
  {}

  lemma MultipleIsLarge(d: int, k: int)
    requires d > 0 && k != 0
    ensures d * k >= d || d * k <= -d
  {
    if k > 0 {
      ProductIsNatural(d, k - 1);
      assert d * k == d + d * (k - 1);
    } else {
      ProductIsNatural(d, -k - 1);
      assert d * k == -d - d * (-k - 1);
    }
  }

  lemma QuotientIs(x: nat, d: nat, q: nat, r: nat)
    requires d > 0 && x == d * q + r && r < d
    ensures x / d == q
  {
    var k := x / d - q;
    assert d * k == r - x % d;
    if k != 0 {
      MultipleIsLarge(d, k);
    }
  }

  lemma Associative(a: nat, b: nat, c: nat)
    ensures a * (b * c) == (a * b) * c
  {}

  lemma Distributive(a: nat, b: nat, c: nat)
    ensures a * (b + c) == a * b + a * c
  {}

  lemma RestFits(a: nat, b: nat, t: nat, r: nat)
    requires r < a && t < b
    ensures a * t + r < a * b
  {
    ProductIsNatural(a, b - t - 1);
    assert a * b == a * t + a + a * (b - t - 1);
  }

  /** Dividing twice is dividing by the product. */
  lemma DivideTwice(x: nat, a: nat, b: nat)
    requires a > 0 && b > 0
    ensures a * b > 0 && x / a / b == x / (a * b)
  {
    var q := x / a;
    Regrouped(a, b, x, q, x % a, q / b, q % b);
    RestFits(a, b, q % b, x % a);
    QuotientIs(x, a * b, q / b, a * (q % b) + x % a);
  }

  lemma Regrouped(a: nat, b: nat, x: nat, q: nat, r: nat, s: nat, t: nat)
    requires x == a * q + r && q == b * s + t
    ensures x == (a * b) * s + (a * t + r)
  {
    Distributive(a, b * s, t);
    Associative(a, b, s);
  }
}

/** Quotients, found by what is left over. */
module Quotients {
  lemma QuotientIs(n: int, m: int, k: int, r: int)
    requires m > 0 && n == m * k + r && 0 <= r < m
    ensures n / m == k
  {
    var t := n / m - k;
    assert m * t == r - n % m;
    MultipleIsFar(m, t);
  }

  lemma MultipleIsFar(m: int, t: int)
    requires m > 0
    ensures t >= 1 ==> m * t >= m
    ensures t <= -1 ==> m * t <= -m
  {
  }

  /** Dividing twice is dividing by the product. */
  lemma DividedTwice(n: nat, p: nat, q: nat)
    requires p > 0 && q > 0
    ensures p * q > 0 && n / p / q == n / (p * q)
  {
    MultipleIsFar(p, q);
    var k, r := n / p / q, n / p % q;
    assert n / p == q * k + r;
    assert n == p * (q * k + r) + n % p;
    assert p * (q * k + r) == (p * q) * k + p * r;
    assert p * r <= p * (q - 1);
    QuotientIs(n, p * q, k, p * r + n % p);
  }
}

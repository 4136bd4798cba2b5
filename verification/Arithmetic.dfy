/** The few facts about products and quotients that the solver does not find unaided. */
module Arithmetic {

  function Max(x: int, y: int): int {
    if x > y then x else y
  }

  function Min(x: int, y: int): int {
    if x < y then x else y
  }

  lemma ProductIsMonotone(k: nat, x: int, y: int)
    requires x <= y
    ensures k * x <= k * y
  {
    assert k * y == k * x + k * (y - x);
  }

  lemma OneMoreFactor(k: int, n: int)
    ensures k * (n + 1) == k * n + k
    ensures (n + 1) * k == n * k + k
  {
  }

  /** Quotient and remainder are determined by the equation they satisfy. */
  lemma QuotientIsUnique(x: int, d: int, q: int, r: int)
    requires d > 0 && 0 <= r < d && x == d * q + r
    ensures x / d == q && x % d == r
  {
    var p, s := x / d, x % d;
    assert x == d * p + s;
    if p < q {
      ProductIsMonotone(d, p + 1, q);
      OneMoreFactor(d, p);
    } else if q < p {
      ProductIsMonotone(d, q + 1, p);
      OneMoreFactor(d, q);
    }
  }

  lemma QuotientOfLess(x: int, d: int)
    requires d > 0
    ensures (x - d) / d == x / d - 1
    ensures (x - d) % d == x % d
  {
    OneMoreFactor(d, x / d - 1);
    QuotientIsUnique(x - d, d, x / d - 1, x % d);
  }

  lemma QuotientIsMonotone(x: int, y: int, d: int)
    requires d > 0 && x <= y
    ensures x / d <= y / d
  {
    var p, q := x / d, y / d;
    assert x == d * p + x % d && y == d * q + y % d;
    if q < p {
      ProductIsMonotone(d, q + 1, p);
      OneMoreFactor(d, q);
    }
  }

  lemma QuotientByMore(x: nat, d: int, e: int)
    requires 0 < d <= e
    ensures x / e <= x / d
  {
    var p, q := x / d, x / e;
    assert x == d * p + x % d && x == e * q + x % e;
    if p < q {
      ProductIsMonotone(d, p + 1, q);
      OneMoreFactor(d, p);
      ProductIsMonotone(q, d, e);
    }
  }

  /** If each of n units takes time p, and c is at most rate * p, then c * n is at most rate * T. */
  lemma ScaledBound(over: int, n: nat, c: nat, rate: nat, p: nat, T: int)
    requires over <= n && c <= rate * p && n * p <= T
    ensures over * c <= rate * T
  {
    calc {
      over * c;
    ==
      c * over;
    <=  { ProductIsMonotone(c, over, n); }
      c * n;
    ==
      n * c;
    <=  { ProductIsMonotone(n, c, rate * p); }
      n * (rate * p);
    ==
      rate * (n * p);
    <=  { ProductIsMonotone(rate, n * p, T); }
      rate * T;
    }
  }
}

/** Products, quotients and powers of two that the other modules reason with. */
module Arithmetic {
  function Pow2(n: nat): (p: nat)
    ensures p >= 1
  {
    if n == 0 then 1 else 2 * Pow2(n - 1)
  }

  lemma {:induction false} Pow2Grows(n: nat, more: nat)
    ensures Pow2(n) <= Pow2(n + more)
  {
    if more > 0 { Pow2Grows(n, more - 1); }
  }

  lemma Scale(a: int, b: int, k: nat)
    requires a <= b
    ensures a * k <= b * k
  {
  }

  lemma Quotient(n: nat, m: nat, d: nat)
    requires m > 0
    ensures n / m >= d <==> m * d <= n
  {
    var q := n / m;
    assert m * q <= n < m * (q + 1);
    if q >= d { Scale(d, q, m); } else { Scale(q + 1, d, m); }
  }

  lemma QuotientIs(n: nat, m: nat, q: nat)
    requires m > 0 && m * q <= n < m * (q + 1)
    ensures n / m == q
  {
    Quotient(n, m, q);
    Quotient(n, m, q + 1);
  }

  lemma QuotientOfSum(n: nat, r: nat, m: nat, q: nat)
    requires n == r + m * q && r < m
    ensures n / m == q
  {
    QuotientIs(n, m, q);
  }

  lemma RemainderIs(n: nat, m: nat, q: nat, r: nat)
    requires n == r + m * q && r < m
    ensures n % m == r
  {
    QuotientIs(n, m, q);
  }

  lemma QuotientAtMost(c: nat, p: nat, t: nat)
    requires t >= p > 0
    ensures (c * p) / t <= c
  {
    Quotient(c * p, t, c + 1);
    Scale(p, t, c + 1);
    assert p * (c + 1) == c * p + p;
  }

  lemma DivCancel(a: nat, m: nat, k: nat)
    requires m > 0 && k > 0
    ensures m * k > 0 && (a * k) / (m * k) == a / m
  {
    var q := a / m;
    var low, high := m * q, m * (q + 1);
    assert low <= a < high;
    Scale(low, a, k);
    Scale(a + 1, high, k);
    MulSwap(m, q, k);
    MulSwap(m, q + 1, k);
    QuotientIs(a * k, m * k, q);
  }

  lemma Commutes(a: nat, b: nat)
    ensures a * b == b * a
  {
  }

  lemma MulSwap(a: nat, b: nat, c: nat)
    ensures (a * b) * c == (a * c) * b == a * (b * c)
  {
  }

  lemma SmallPart(x: nat, p: nat, k: nat, t: nat)
    requires x <= p && p * k <= t
    ensures x * k <= t
  {
    Scale(x, p, k);
  }

  lemma SmallProduct(t: nat, cap: nat, d: nat, most: nat)
    requires t <= cap && d <= most
    ensures t * d <= most * cap
  {
    Scale(t, cap, d);
    Scale(d, most, cap);
  }

  lemma ProductAbove(t: nat, bound: nat, d: nat, limit: nat)
    requires bound < d && t * (bound + 1) > limit
    ensures t * d > limit
  {
    Scale(bound + 1, d, t);
    Commutes(t, d);
    Commutes(t, bound + 1);
  }

  lemma Above(low: nat, x: nat, y: nat, p: nat)
    requires low < p && x < y
    ensures low + p * x < p * y
  {
    Scale(x + 1, y, p);
    assert (x + 1) * p == p * x + p;
  }
}

/** Small facts about numbers. */
module Arithmetic {

  function Min(a: int, b: int): int { if a < b then a else b }

  function Max(a: nat, b: nat): nat { if a < b then b else a }

  /** `n * d` as repeated addition. */
  function Times(n: nat, d: nat): nat { if n == 0 then 0 else Times(n - 1, d) + d }

  lemma {:induction false} TimesIsProduct(n: nat, d: nat)
    ensures Times(n, d) == n * d
  {
    if n > 0 {
      TimesIsProduct(n - 1, d);
    }
  }

  lemma MulMonotone(a: nat, b: nat, d: nat)
    requires a <= b
    ensures a * d <= b * d
  {
    assert b * d == a * d + (b - a) * d;
  }

  lemma QuotientBound(q: nat, n: nat, d: nat)
    requires d > 0 && q * d <= n
    ensures q <= n / d
  {
    var k := n / d;
    assert n < (k + 1) * d;
    if q > k {
      MulMonotone(k + 1, q, d);
    }
  }
}

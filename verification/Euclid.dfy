/** Division with remainder, for variable divisors. */
module Euclid {

  lemma MultipleGrows(k: int, d: int)
    requires d >= 0
    ensures k >= 1 ==> k * d >= d
    ensures k <= -1 ==> k * d <= -d
  {
  }

  lemma ProductOrder(p: nat, q: nat, d: nat)
    ensures p >= q ==> p * d >= q * d
    ensures p < q ==> p * d + d <= q * d
  {
    MultipleGrows(p - q, d);
    assert (p - q) * d == p * d - q * d;
  }

  lemma Successor(k: nat, d: nat)
    ensures (k + 1) * d == k * d + d
  {
  }

  /** Quotient and remainder are determined by w == q * d + r with r < d. */
  lemma Remainder(w: nat, q: nat, r: nat, d: nat)
    requires w == q * d + r && r < d
    ensures w / d == q && w % d == r
  {
    Unique(w, w / d, w % d, q, r, d);
  }

  lemma Unique(w: nat, q: nat, r: nat, q': nat, r': nat, d: nat)
    requires w == q * d + r && w == q' * d + r' && r < d && r' < d
    ensures q == q' && r == r'
  {
    assert (q - q') * d == r' - r;
    MultipleGrows(q - q', d);
  }

  lemma Divided(k: nat, d: nat)
    requires d > 0
    ensures k == k / d * d + k % d && k % d < d
  {
  }

  /** The quotient grows at the multiples of the divisor. */
  lemma QuotientStep(k: nat, d: nat)
    requires d > 0
    ensures k == 0 ==> k / d == 0 && k % d == 0
    ensures k > 0 ==> k / d == (k - 1) / d + if k % d == 0 then 1 else 0
  {
    Divided(k, d);
    if k == 0 {
      Remainder(0, 0, 0, d);
    } else {
      Before(k, k / d, k % d, d);
    }
  }

  lemma Before(k: nat, q: nat, r: nat, d: nat)
    requires k > 0 && k == q * d + r && r < d
    ensures q == (k - 1) / d + if r == 0 then 1 else 0
  {
    if r > 0 {
      Remainder(k - 1, q, r - 1, d);
    } else {
      Successor(q - 1, d);
      Remainder(k - 1, q - 1, d - 1, d);
    }
  }
}

/** Elementary facts about products, quotients and remainders. */
module Arith {

  lemma {:induction false} TimesMonotone(i: nat, j: nat, z: nat)
    requires i <= j
    ensures i * z <= j * z
    decreases j - i
  {
    if i < j {
      TimesMonotone(i + 1, j, z);
      assert (i + 1) * z == i * z + z;
    }
  }

  lemma ModBelow(x: nat, n: nat)
    requires x < n
    ensures x % n == x
  {}

  lemma ModSelf(n: nat)
    requires n > 0
    ensures n % n == 0
  {}

  lemma QuotientIs(n: nat, p: nat, k: nat)
    requires p > 0 && k * p <= n < k * p + p
    ensures n / p == k
  {
    var q := n / p;
    assert q * p <= n < q * p + p;
    if q < k {
      TimesMonotone(q + 1, k, p);
    } else if q > k {
      TimesMonotone(k + 1, q, p);
    }
  }

  lemma Regroup(q: nat, p: nat)
    ensures 2 * q * p == q * (2 * p) == 2 * (q * p) && (2 * q + 1) * p == 2 * (q * p) + p
  {}
}

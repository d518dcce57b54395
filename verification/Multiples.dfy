/**
 Multiples of an alignment, without leaving the rest of a proof to non-linear arithmetic.
 */
module Multiples {
  /** a is a multiple of m. */
  predicate Multiple(a: int, m: nat) { m > 0 && a % m == 0 }

  lemma Distribute(m: int, a: int, b: int)
    ensures m * (a + b) == m * a + m * b && m * (a - b) == m * a - m * b
  {
  }

  lemma Stretch(m: nat, d: int)
    ensures d >= 1 ==> m * d >= m
    ensures d <= -1 ==> m * d <= 0 - m
  {
    Distribute(m, d - 1, 1);
    Distribute(m, d + 1, 1);
  }

  lemma TimesIsMultiple(m: nat, k: int)
    requires m > 0
    ensures Multiple(m * k, m)
  {
    var q, r := m * k / m, m * k % m;
    Distribute(m, k, q);
    Stretch(m, k - q);
  }

  lemma MultipleSum(a: int, b: int, m: nat)
    requires Multiple(a, m) && Multiple(b, m)
    ensures Multiple(a + b, m) && Multiple(a - b, m)
  {
    var i, j := a / m, b / m;
    Distribute(m, i, j);
    TimesIsMultiple(m, i + j);
    TimesIsMultiple(m, i - j);
  }

  lemma MultipleAtLeast(a: int, m: nat)
    requires Multiple(a, m) && a > 0
    ensures a >= m
  {
    var k := a / m;
    Stretch(m, k);
  }

  /** Rounding down and up to a multiple. */
  lemma RoundDown(n: nat, m: nat)
    requires m > 0
    ensures Multiple(n / m * m, m) && n - m < n / m * m <= n
  {
    assert n / m * m == m * (n / m);
    TimesIsMultiple(m, n / m);
  }

  lemma Remainder(n: nat, m: nat, q: nat, r: nat)
    requires n == m * q + r && r < m
    ensures n % m == r && n / m == q
  {
    var q', r' := n / m, n % m;
    Distribute(m, q, q');
    Stretch(m, q - q');
  }
}

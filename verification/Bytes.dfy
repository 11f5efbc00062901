/** Bytes as numbers. */
module Bytes {

  lemma ByteAndBack(i: nat)
    requires i < 256
    ensures (i as bv8) as int == i
  {
  }

  lemma QuotientIs(x: nat, m: nat, a: nat, v: nat)
    requires x == m * a + v && v < m
    ensures x / m == a
  {
    var d, e := x / m, x % m;
    Quotient(x, m);
    if d < a {
      NextMultiple(m, d, a);
    } else if d > a {
      NextMultiple(m, a, d);
    }
  }

  lemma Quotient(x: nat, m: nat)
    requires m > 0
    ensures x == m * (x / m) + x % m && 0 <= x % m < m
  {
  }

  lemma NextMultiple(m: nat, d: nat, a: nat)
    requires d < a
    ensures m * d + m <= m * a
  {
    assert m * a == m * d + m * (a - d);
    assert m * (a - d) == m + m * (a - d - 1);
  }
}

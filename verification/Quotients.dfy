/** Division of whole numbers, as far as the models below need it. */
module Quotients {

  lemma {:induction false} Multiples(d: int, p: int, q: int)
    requires d > 0 && p < q
    ensures d * q >= d * p + d
    decreases q - p
  {
    if p + 1 < q {
      Multiples(d, p, q - 1);
      assert d * q == d * (q - 1) + d;
    }
  }

  lemma UniqueQuotient(a: nat, d: nat, q: nat, r: nat)
    requires d > 0 && a == d * q + r && r < d
    ensures a / d == q
  {
    var p := a / d;
    assert a == d * p + a % d;
    if p > q {
      Multiples(d, q, p);
    } else if p < q {
      Multiples(d, p, q);
    }
  }

  lemma QuotientOfSum(a: nat, d: nat)
    requires d > 0
    ensures (a + d) / d == a / d + 1
  {
    var q, r := a / d, a % d;
    assert a + d == d * (q + 1) + r;
    UniqueQuotient(a + d, d, q + 1, r);
  }

  lemma SmallQuotient(a: nat, d: nat)
    requires a < d
    ensures a / d == 0
  {
  }
}

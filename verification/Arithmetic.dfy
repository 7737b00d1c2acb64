/** The few facts about products, quotients and remainders the models need. */
module Arithmetic {

  function Min(a: int, b: int): (m: int)
    ensures m == a || m == b
    ensures m <= a && m <= b
  {
    if a < b then a else b
  }

  lemma MulMonotone(d: nat, a: nat, b: nat)
    requires a <= b
    ensures d * a <= d * b
  {
  }

  lemma QuotientUnique(d: nat, q: nat, r: nat, q': nat, r': nat)
    requires d * q + r == d * q' + r' && r < d && r' < d
    ensures q == q' && r == r'
  {
    if q' < q {
      MulMonotone(d, q' + 1, q);
    } else if q < q' {
      MulMonotone(d, q + 1, q');
    }
  }

  lemma ModUnique(x: nat, d: nat, q: nat, r: nat)
    requires x == d * q + r && r < d
    ensures x % d == r && x / d == q
  {
    QuotientUnique(d, q, r, x / d, x % d);
  }

  /** Dropping one whole d does not change the remainder. */
  lemma ModDrop(x: nat, d: nat)
    requires 0 < d <= x
    ensures x % d == (x - d) % d && x / d == (x - d) / d + 1
  {
    var q, r := (x - d) / d, (x - d) % d;
    assert x == d * (q + 1) + r;
    ModUnique(x, d, q + 1, r);
  }

  lemma ModAdd(a: nat, b: nat, d: nat)
    requires d > 0
    ensures (a % d + b) % d == (a + b) % d
  {
    var q, r := (a % d + b) / d, (a % d + b) % d;
    assert a + b == d * (a / d + q) + r by {
      assert d * (a / d + q) == d * (a / d) + d * q;
    }
    ModUnique(a + b, d, a / d + q, r);
  }

  lemma SmallMod(a: nat, d: nat)
    requires a < d
    ensures a % d == a
  {
  }

  lemma PositiveMultiple(x: nat, d: nat)
    requires x > 0 && d > 0 && x % d == 0
    ensures x >= d
  {
  }
}

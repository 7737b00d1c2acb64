/** Powers of two and the bitwise trick that isolates the lowest set bit. */
module Bits {
  import opened Arithmetic

  function Pow2(k: nat): (p: nat)
    ensures p > 0
  {
    if k == 0 then 1 else 2 * Pow2(k - 1)
  }

  lemma {:induction false} Pow2Sum(j: nat, k: nat)
    ensures Pow2(j + k) == Pow2(j) * Pow2(k)
  {
    if j > 0 {
      Pow2Sum(j - 1, k);
      var p, q := Pow2(j - 1), Pow2(k);
      assert 2 * (p * q) == (2 * p) * q;
    }
  }

  lemma Pow2Of8()
    ensures Pow2(8) == 256
  {
    assert Pow2(4) == 16;
    Pow2Sum(4, 4);
  }

  lemma Pow2Of32()
    ensures Pow2(32) == 0x1_0000_0000
  {
    Pow2Of8();
    hide Pow2;
    Pow2Sum(8, 8);
    Pow2Sum(16, 16);
  }

  lemma Pow2Of64()
    ensures Pow2(64) == 0x1_0000_0000_0000_0000
  {
    Pow2Of32();
    hide Pow2;
    Pow2Sum(32, 32);
  }

  /** Bitwise AND of two naturals. */
  function And(x: nat, y: nat): nat {
    if x == 0 || y == 0 then 0
    else (if x % 2 == 1 && y % 2 == 1 then 1 else 0) + 2 * And(x / 2, y / 2)
  }

  function TrailingZeros(x: nat): nat
    requires x > 0
  {
    if x % 2 == 1 then 0 else 1 + TrailingZeros(x / 2)
  }

  lemma {:induction false} AndComplement(x: nat, k: nat)
    requires x < Pow2(k)
    ensures And(x, Pow2(k) - 1 - x) == 0
  {
    if k > 0 {
      AndComplement(x / 2, k - 1);
      assert (Pow2(k) - 1 - x) / 2 == Pow2(k - 1) - 1 - x / 2;
    }
  }

  /** In k-bit arithmetic, x & -x is the lowest set bit of x. */
  lemma {:induction false} AndNegate(x: nat, k: nat)
    requires 0 < x < Pow2(k)
    ensures And(x, Pow2(k) - x) == Pow2(TrailingZeros(x))
  {
    assert k > 0;
    if x % 2 == 1 {
      AndComplement(x / 2, k - 1);
      assert (Pow2(k) - x) / 2 == Pow2(k - 1) - 1 - x / 2;
    } else {
      AndNegate(x / 2, k - 1);
      assert (Pow2(k) - x) / 2 == Pow2(k - 1) - x / 2;
    }
  }

  lemma DoubleMod(y: nat, p: nat)
    requires p > 0
    ensures (2 * y) % (2 * p) == 2 * (y % p)
  {
    assert 2 * y == 2 * p * (y / p) + 2 * (y % p);
    ModUnique(2 * y, 2 * p, y / p, 2 * (y % p));
  }

  lemma EvenMod(x: nat, p: nat)
    requires p > 0 && x % (2 * p) == 0
    ensures x % 2 == 0
  {
    var q := x / (2 * p);
    assert x == 2 * (p * q);
  }

  /** A power of two divides x exactly when it is no greater than the lowest set bit. */
  lemma {:induction false} DividesExactly(x: nat, k: nat)
    requires x > 0
    ensures x % Pow2(k) == 0 <==> k <= TrailingZeros(x)
  {
    if k > 0 {
      if x % 2 == 0 {
        DividesExactly(x / 2, k - 1);
        DoubleMod(x / 2, Pow2(k - 1));
      } else if x % Pow2(k) == 0 {
        EvenMod(x, Pow2(k - 1));
      }
    }
  }

  lemma {:induction false} Pow2Grows(j: nat, k: nat)
    requires j <= k
    ensures Pow2(j) <= Pow2(k)
  {
    if j < k {
      Pow2Grows(j, k - 1);
    }
  }

  lemma {:induction false} Pow2Divides(j: nat, k: nat)
    requires j <= k
    ensures Pow2(k) % Pow2(j) == 0
  {
    if j < k {
      Pow2Divides(j, k - 1);
      TwiceMultiple(Pow2(k - 1), Pow2(j));
    } else {
      ModUnique(Pow2(k), Pow2(j), 1, 0);
    }
  }

  lemma MultipleOf(x: nat, c: nat, d: nat)
    requires d > 0 && x % d == 0
    ensures (c * x) % d == 0
  {
    var q := x / d;
    assert x == d * q;
    assert c * x == d * (c * q) + 0;
    ModUnique(c * x, d, c * q, 0);
  }

  lemma TwiceMultiple(x: nat, d: nat)
    requires d > 0 && x % d == 0
    ensures (2 * x) % d == 0
  {
    MultipleOf(x, 2, d);
  }

  lemma SumOfMultiples(x: nat, y: nat, d: nat)
    requires d > 0 && x % d == 0 && y % d == 0
    ensures (x + y) % d == 0
  {
    var p, q := x / d, y / d;
    assert d * (p + q) == d * p + d * q;
    ModUnique(x + y, d, p + q, 0);
  }

  lemma DifferenceOfMultiples(x: nat, y: nat, d: nat)
    requires d > 0 && x % d == 0 && y % d == 0 && y <= x
    ensures (x - y) % d == 0
  {
    var p, q := x / d, y / d;
    assert d * (p - q) == d * p - d * q;
    ModUnique(x - y, d, p - q, 0);
  }

  /** A multiple of d reduced by a multiple of d stays one. */
  lemma ReducedMultiple(x: nat, m: nat, d: nat)
    requires d > 0 && m > 0 && m % d == 0 && x % d == 0
    ensures x % m % d == 0
  {
    var q := x / m;
    assert x % m == x - m * q;
    MultipleOf(m, q, d);
    assert q * m == m * q;
    DifferenceOfMultiples(x, m * q, d);
  }

  /** Adding its lowest set bit to an address at least doubles the alignment. */
  lemma {:induction false} NextAlignment(x: nat)
    requires x > 0
    ensures (x + Pow2(TrailingZeros(x))) % Pow2(TrailingZeros(x) + 1) == 0
  {
    if x % 2 == 0 {
      NextAlignment(x / 2);
      var y := x / 2 + Pow2(TrailingZeros(x / 2));
      DoubleMod(y, Pow2(TrailingZeros(x / 2) + 1));
      assert x + Pow2(TrailingZeros(x)) == 2 * y;
    }
  }
}

/** The few facts of non-linear arithmetic the other modules rest on. */
module Arith {

  function CeilDiv(a: nat, b: nat): nat
    requires b > 0
  {
    (a + b - 1) / b
  }

  lemma CeilCovers(a: nat, b: nat)
    requires b > 0
    ensures a <= b * CeilDiv(a, b) < a + b
  {
    assert a + b - 1 == b * CeilDiv(a, b) + (a + b - 1) % b;
  }

  lemma MulMonotonic(a: int, b: int, c: nat)
    ensures a <= b ==> a * c <= b * c
    ensures a + 1 <= b ==> a * c + c <= b * c
  {
    if a + 1 <= b {
      var d: nat := b - a - 1;
      Product(d, c);
      assert b == a + 1 + d;
      Distribute3(a, d, c);
    }
  }

  lemma Product(a: nat, b: nat)
    ensures 0 <= a * b
  {
  }

  lemma Distribute3(a: int, d: int, c: int)
    ensures (a + 1 + d) * c == a * c + c + d * c
  {
  }

  lemma Distribute(a: nat, b: nat, c: nat)
    ensures (a + b) * c == a * c + c * b
  {
  }

  lemma DivUnique(p: nat, d: nat, q: nat)
    requires d > 0 && q * d <= p < q * d + d
    ensures p / d == q && p % d == p - q * d
  {
    assert p == p / d * d + p % d;
    MulMonotonic(q, p / d, d);
    MulMonotonic(p / d, q, d);
  }
}

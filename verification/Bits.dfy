/** Bit-level operators on unsigned machine words, as natural numbers.

    A word of k bits is a number below Pow2(k).  Shifting right by n is dividing by
    Pow2(n), masking the low n bits is the remainder by Pow2(n), and the operators that
    mix two words are defined bit by bit. */
module Bits {

  function Pow2(n: nat): (r: int)
    ensures r > 0
  {
    if n == 0 then 1 else 2 * Pow2(n - 1)
  }

  /** Shift left, without a limit on the width. */
  function Shl(v: nat, n: nat): (r: nat)
    ensures v == 0 ==> r == 0
    ensures v <= r
  {
    if n == 0 then v else 2 * Shl(v, n - 1)
  }

  /** Conversion of any integer to an unsigned word of `k` bits: add or subtract 2^k
      until it fits. */
  function Wrap(k: nat, v: int): (r: nat)
    ensures r < Pow2(k)
    decreases v < 0, if v < 0 then -v else v
  {
    if v < 0 then Wrap(k, v + Pow2(k))
    else if v >= Pow2(k) then Wrap(k, v - Pow2(k))
    else v
  }

  /** Reinterpretation of a word of `k` bits as a two's-complement integer. */
  function ToSigned(k: nat, u: nat): int
    requires k > 0
  {
    if u < Pow2(k - 1) then u else u - Pow2(k)
  }

  function Or(x: nat, y: nat): nat
    decreases x + y
  {
    if x == 0 && y == 0 then 0
    else (if x % 2 == 1 || y % 2 == 1 then 1 else 0) + 2 * Or(x / 2, y / 2)
  }

  function And(x: nat, y: nat): nat
    decreases x + y
  {
    if x == 0 && y == 0 then 0
    else (if x % 2 == 1 && y % 2 == 1 then 1 else 0) + 2 * And(x / 2, y / 2)
  }

  function Xor(x: nat, y: nat): nat
    decreases x + y
  {
    if x == 0 && y == 0 then 0
    else (if x % 2 != y % 2 then 1 else 0) + 2 * Xor(x / 2, y / 2)
  }

  lemma {:induction false} Pow2Monotonic(m: nat, n: nat)
    ensures m <= n ==> Pow2(m) <= Pow2(n)
  {
    if m < n {
      Pow2Monotonic(m, n - 1);
    }
  }

  lemma {:induction false} ShlAdd(a: nat, b: nat, n: nat)
    ensures Shl(a + b, n) == Shl(a, n) + Shl(b, n)
  {
    if n > 0 {
      ShlAdd(a, b, n - 1);
    }
  }

  lemma {:induction false} ShlShl(v: nat, m: nat, n: nat)
    ensures Shl(Shl(v, m), n) == Shl(v, m + n)
  {
    if n > 0 {
      ShlShl(v, m, n - 1);
    }
  }

  lemma {:induction false} ShlOne(n: nat)
    ensures Shl(1, n) == Pow2(n)
  {
    if n > 0 {
      ShlOne(n - 1);
    }
  }

  lemma {:induction false} ShlMonotonic(a: nat, b: nat, n: nat)
    ensures a <= b ==> Shl(a, n) <= Shl(b, n)
  {
    if a <= b {
      ShlAdd(a, b - a, n);
    }
  }

  /** Exclusive or with all ones flips every bit. */
  lemma {:induction false} XorOnes(k: nat, x: nat)
    requires x < Pow2(k)
    ensures Xor(x, Pow2(k) - 1) == Pow2(k) - 1 - x
  {
    if k > 0 {
      var p := Pow2(k - 1);
      XorOnes(k - 1, x / 2);
      assert (2 * p - 1) / 2 == p - 1 && (2 * p - 1) % 2 == 1;
    }
  }

  lemma {:induction false} XorZero(x: nat)
    ensures Xor(x, 0) == x
  {
    if x > 0 {
      XorZero(x / 2);
    }
  }

  lemma {:induction false} OrZero(y: nat)
    ensures Or(0, y) == y
  {
    if y > 0 {
      OrZero(y / 2);
    }
  }

  /** A word below 2^i joined with one shifted left by i is their sum. */
  lemma {:induction false} OrShifted(x: nat, y: nat, i: nat)
    requires x < Pow2(i)
    ensures Or(x, Shl(y, i)) == x + Shl(y, i)
  {
    if i == 0 {
      OrZero(y);
    } else {
      OrShifted(x / 2, y, i - 1);
    }
  }
}

/** Digits and the numbers they spell. */
module Chars {

  predicate IsDigit(c: char) {
    '0' <= c <= '9'
  }

  predicate IsAlpha(c: char) {
    'A' <= c <= 'Z' || 'a' <= c <= 'z'
  }

  predicate IsHex(c: char) {
    IsDigit(c) || 'A' <= c <= 'F' || 'a' <= c <= 'f'
  }

  predicate IsNumber(w: string) {
    forall c :: c in w ==> IsDigit(c)
  }

  function DigitValue(c: char): nat
    requires IsDigit(c)
  {
    c as int - '0' as int
  }

  function Value(digits: string): nat
    requires IsNumber(digits)
  {
    if digits == [] then 0
    else
      assert digits[|digits| - 1] in digits;
      10 * Value(digits[..|digits| - 1]) + DigitValue(digits[|digits| - 1])
  }

  /** A number that is not negative, as an output stream or std::to_string writes it. */
  function Decimal(n: nat): (d: string)
    ensures d != [] && IsNumber(d)
  {
    var last := [('0' as int + n % 10) as char];
    if n < 10 then last else Decimal(n / 10) + last
  }

  lemma {:induction false} ValueOfDecimal(n: nat)
    ensures Value(Decimal(n)) == n
  {
    if n >= 10 {
      ValueOfDecimal(n / 10);
      var d := Decimal(n);
      assert d[..|d| - 1] == Decimal(n / 10);
    }
  }

  // ---------------------------------------------------------------- hexadecimal

  function HexDigit(c: char): (v: nat)
    requires IsHex(c)
    ensures v < 16
  {
    if c <= '9' then c as int - '0' as int else if c <= 'F' then c as int - 'A' as int + 10 else c as int - 'a' as int + 10
  }

  predicate AllHex(d: string) {
    forall i :: 0 <= i < |d| ==> IsHex(d[i])
  }

  function HexValue(d: string): nat
    requires AllHex(d)
  {
    if d == "" then 0 else 16 * HexValue(d[..|d| - 1]) + HexDigit(d[|d| - 1])
  }

  /** How many hexadecimal digits a text starts with. */
  function HexPrefix(w: string): (n: nat)
    ensures n <= |w| && AllHex(w[..n]) && (n < |w| ==> !IsHex(w[n]))
  {
    if w == "" || !IsHex(w[0]) then 0
    else
      var n := HexPrefix(w[1..]);
      assert w[..n + 1] == [w[0]] + w[1..][..n];
      n + 1
  }

  lemma {:induction false} HexPrefixIs(w: string, n: nat)
    requires n <= |w| && AllHex(w[..n]) && (n < |w| ==> !IsHex(w[n]))
    ensures HexPrefix(w) == n
  {
    if n > 0 {
      assert w[..n][0] == w[0] && IsHex(w[0]);
      assert w[1..][..n - 1] == w[..n][1..];
      assert n < |w| ==> w[1..][n - 1] == w[n];
      HexPrefixIs(w[1..], n - 1);
    }
  }

  /** std::hex: lower case, no leading zeros. */
  function HexText(n: nat): (d: string)
    ensures d != "" && AllHex(d)
  {
    var last := [(if n % 16 < 10 then '0' as int + n % 16 else 'a' as int + n % 16 - 10) as char];
    if n < 16 then last else HexText(n / 16) + last
  }

  lemma {:induction false} ValueOfHexText(n: nat)
    ensures HexValue(HexText(n)) == n
  {
    var d := HexText(n);
    if n >= 16 {
      ValueOfHexText(n / 16);
      assert d[..|d| - 1] == HexText(n / 16);
    } else {
      assert d[..|d| - 1] == "";
    }
  }
}

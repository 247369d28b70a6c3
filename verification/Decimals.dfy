/** Decimal numerals, most significant digit first. */
module Decimals {

  predicate IsDigit(c: char) {
    '0' <= c <= '9'
  }

  function Numeral(n: nat): (r: string)
    ensures r != [] && forall i :: 0 <= i < |r| ==> IsDigit(r[i])
  {
    if n < 10 then [('0' as int + n) as char] else Numeral(n / 10) + [('0' as int + n % 10) as char]
  }

  function DigitValue(c: char): nat
    requires IsDigit(c)
  {
    c as int - '0' as int
  }

  function NumeralValue(s: string): (n: nat)
    requires forall i :: 0 <= i < |s| ==> IsDigit(s[i])
  {
    if s == [] then 0 else 10 * NumeralValue(s[..|s| - 1]) + DigitValue(s[|s| - 1])
  }

  lemma {:induction false} NumeralIsRead(n: nat)
    ensures NumeralValue(Numeral(n)) == n
  {
    var r := Numeral(n);
    if n >= 10 {
      NumeralIsRead(n / 10);
      assert r[..|r| - 1] == Numeral(n / 10);
    } else {
      assert r[..0] == [];
    }
  }

  lemma {:induction false} NumeralIsShort(n: nat, digits: nat)
    requires 0 < digits && n < Power10(digits)
    decreases digits
    ensures |Numeral(n)| <= digits
  {
    assert Power10(digits) == 10 * Power10(digits - 1);
    if n >= 10 {
      NumeralIsShort(n / 10, digits - 1);
    }
  }

  function Power10(digits: nat): nat {
    if digits == 0 then 1 else 10 * Power10(digits - 1)
  }
}

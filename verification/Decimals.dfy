/** Decimal numerals. */
module Decimals {
  predicate IsDigit(c: char) {
    '0' <= c <= '9'
  }

  function Value(digits: string): nat {
    if digits == "" then 0
    else Value(digits[..|digits| - 1]) * 10 + if IsDigit(digits[|digits| - 1]) then (digits[|digits| - 1] - '0') as nat else 0
  }

  const DIGITS := "0123456789"

  function Decimal(n: nat): string {
    if n < 10 then [DIGITS[n]] else Decimal(n / 10) + [DIGITS[n % 10]]
  }

  lemma DigitValue(d: nat)
    requires d < 10
    ensures IsDigit(DIGITS[d]) && (DIGITS[d] - '0') as nat == d
  {
  }

  lemma {:induction false} ValueOfDecimal(n: nat)
    ensures Value(Decimal(n)) == n
  {
    DigitValue(n % 10);
    if n < 10 {
      assert [DIGITS[n]][..0] == "";
    } else {
      ValueOfDecimal(n / 10);
      var rest, last := Decimal(n / 10), [DIGITS[n % 10]];
      assert (rest + last)[..|rest + last| - 1] == rest && (rest + last)[|rest + last| - 1] == DIGITS[n % 10];
    }
  }

  /** Different numbers have different numerals. */
  lemma DecimalInjective(m: nat, n: nat)
    requires Decimal(m) == Decimal(n)
    ensures m == n
  {
    ValueOfDecimal(m);
    ValueOfDecimal(n);
  }
}

/** Decimal numerals. */
module Decimal {

  predicate IsDigit(c: char) {
    '0' <= c <= '9'
  }

  predicate AllDigits(s: string) {
    forall i :: 0 <= i < |s| ==> IsDigit(s[i])
  }

  function Numeral(n: nat): (s: string)
    ensures s != "" && AllDigits(s)
  {
    (if n < 10 then "" else Numeral(n / 10)) + [DigitChar(n % 10)]
  }

  function DigitChar(d: nat): (c: char)
    requires d < 10
    ensures IsDigit(c) && DigitValue(c) == d
  {
    ('0' as int + d) as char
  }

  function DigitValue(c: char): int {
    c as int - '0' as int
  }

  /** The ten digits. */
  lemma DigitCharIs(d: nat)
    requires d < 10
    ensures DigitChar(d) == "0123456789"[d]
  {
  }

  /** The number that a string of digits denotes. */
  function Denoted(digits: string): (n: nat)
    requires AllDigits(digits)
  {
    if digits == "" then 0
    else Denoted(digits[..|digits| - 1]) * 10 + DigitValue(digits[|digits| - 1])
  }

  lemma DenotedSnoc(digits: string, c: char)
    requires IsDigit(c) && AllDigits(digits)
    ensures Denoted(digits + [c]) == Denoted(digits) * 10 + DigitValue(c)
  {
    assert (digits + [c])[..|digits|] == digits;
  }

  lemma {:induction false} NumeralDenotes(n: nat)
    ensures Denoted(Numeral(n)) == n
  {
    hide DigitChar, DigitValue;
    if n < 10 {
      DenotedSnoc("", DigitChar(n));
    } else {
      NumeralDenotes(n / 10);
      DenotedSnoc(Numeral(n / 10), DigitChar(n % 10));
    }
  }

  function Pow10(k: nat): nat {
    if k == 0 then 1 else 10 * Pow10(k - 1)
  }

  lemma {:induction false} NumeralLength(n: nat, k: nat)
    requires k > 0 && n < Pow10(k)
    ensures |Numeral(n)| <= k
  {
    if n >= 10 {
      assert k > 1;
      NumeralLength(n / 10, k - 1);
    }
  }

  lemma TenTimes(x: nat, k: nat)
    ensures x * Pow10(k + 1) == x * Pow10(k) * 10
  {
    var p := Pow10(k);
    assert Pow10(k + 1) == 10 * p;
  }

  /** Place value: digits in front of others count that many powers of ten more. */
  lemma {:induction false} DenotedConcat(a: string, b: string)
    requires AllDigits(a) && AllDigits(b)
    ensures AllDigits(a + b) && Denoted(a + b) == Denoted(a) * Pow10(|b|) + Denoted(b)
    decreases |b|
  {
    if b == "" {
      assert a + b == a;
    } else {
      var front, c := b[..|b| - 1], b[|b| - 1];
      assert a + b == a + front + [c] && b == front + [c];
      DenotedConcat(a, front);
      DenotedSnoc(a + front, c);
      DenotedSnoc(front, c);
      hide *;
      TenTimes(Denoted(a), |front|);
    }
  }
}

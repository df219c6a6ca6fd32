/** Natural numbers written in decimal, as a string conversion writes them. */
module Decimals {

  predicate IsDigit(c: char) {
    '0' <= c <= '9'
  }

  predicate AllDigits(s: string) {
    forall i :: 0 <= i < |s| ==> IsDigit(s[i])
  }

  function Digit(d: nat): (c: char)
    requires d < 10
    ensures IsDigit(c)
  {
    '0' + d as char
  }

  function DigitValue(c: char): (d: nat)
    requires IsDigit(c)
    ensures d < 10 && Digit(d) == c
  {
    (c - '0') as nat
  }

  function Decimal(n: nat): (s: string)
    ensures s != [] && AllDigits(s)
  {
    if n < 10 then [Digit(n)] else Decimal(n / 10) + [Digit(n % 10)]
  }

  /** The number its first `n` digits write. */
  function ValueOf(s: string, n: nat): nat
    requires n <= |s| && AllDigits(s)
  {
    if n == 0 then 0 else 10 * ValueOf(s, n - 1) + DigitValue(s[n - 1])
  }

  function Value(s: string): nat
    requires AllDigits(s)
  {
    ValueOf(s, |s|)
  }

  lemma {:induction false} ValueOfAppend(s: string, t: string, n: nat)
    requires n <= |s| && AllDigits(s) && AllDigits(s + t)
    ensures ValueOf(s + t, n) == ValueOf(s, n)
  {
    if n > 0 {
      ValueOfAppend(s, t, n - 1);
    }
  }

  /** Reading a written number gives it back; hence distinct numbers are written differently. */
  lemma {:induction false} ValueOfDecimal(n: nat)
    ensures Value(Decimal(n)) == n
  {
    if n >= 10 {
      ValueOfDecimal(n / 10);
      ValueOfAppend(Decimal(n / 10), [Digit(n % 10)], |Decimal(n / 10)|);
    } else {
      assert ValueOf([Digit(n)], 0) == 0;
    }
  }

  lemma DecimalIsInjective(m: nat, n: nat)
    requires Decimal(m) == Decimal(n)
    ensures m == n
  {
    ValueOfDecimal(m);
    ValueOfDecimal(n);
  }

  /** `s.padStart(width, "0")`. */
  function PadStart(s: string, width: nat): string
    decreases width - |s|
  {
    if |s| >= width then s else PadStart(['0'] + s, width)
  }

  lemma OneDigit(n: nat)
    requires n < 10
    ensures PadStart(Decimal(n), 3) == ['0', '0', Digit(n)]
  {
    assert PadStart(['0'] + ['0', Digit(n)], 3) == ['0', '0', Digit(n)];
    assert PadStart(['0'] + [Digit(n)], 3) == ['0', '0', Digit(n)];
  }

  lemma TwoDigits(n: nat)
    requires 10 <= n < 100
    ensures PadStart(Decimal(n), 3) == ['0', Digit(n / 10), Digit(n % 10)]
  {
    assert Decimal(n) == [Digit(n / 10), Digit(n % 10)];
    assert PadStart(['0'] + Decimal(n), 3) == ['0', Digit(n / 10), Digit(n % 10)];
  }

  lemma TensOf(n: nat)
    requires n < 1000
    ensures n / 10 / 10 == n / 100 < 10
  {
  }

  /** Numbers below 1000, padded to three digits, are exactly the strings of three digits. */
  lemma ThreeDigits(n: nat)
    requires n < 1000
    ensures PadStart(Decimal(n), 3) == [Digit(n / 100), Digit(n / 10 % 10), Digit(n % 10)]
  {
    if n < 10 {
      OneDigit(n);
    } else if n < 100 {
      TwoDigits(n);
    } else {
      TensOf(n);
      assert Decimal(n / 10) == [Digit(n / 100), Digit(n / 10 % 10)];
    }
  }

  lemma ThreeDigitValue(s: string)
    requires |s| == 3 && AllDigits(s)
    ensures Value(s) == 100 * DigitValue(s[0]) + 10 * DigitValue(s[1]) + DigitValue(s[2]) < 1000
  {
    assert ValueOf(s, 1) == DigitValue(s[0]);
    assert ValueOf(s, 2) == 10 * DigitValue(s[0]) + DigitValue(s[1]);
  }
}

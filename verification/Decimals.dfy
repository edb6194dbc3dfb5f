/** Numbers as decimal digits. */
module Decimals {
  import opened Wrappers

  predicate IsDigit(c: char) {
    '0' <= c <= '9'
  }

  predicate AllDigits(s: string) {
    forall i | 0 <= i < |s| :: IsDigit(s[i])
  }

  const DIGITS: string := "0123456789"

  function DigitChar(n: int): char
    requires 0 <= n < 10
  {
    DIGITS[n]
  }

  function DigitValue(c: char): (n: int)
    requires IsDigit(c)
    ensures 0 <= n < 10 && DigitChar(n) == c
  {
    c as int - '0' as int
  }

  lemma DigitOfValue(n: int)
    requires 0 <= n < 10
    ensures IsDigit(DigitChar(n)) && DigitValue(DigitChar(n)) == n
  {
  }

  /** The number the digits spell. */
  function NumberOf(s: string): (n: int)
    requires AllDigits(s)
    ensures 0 <= n
  {
    if s == "" then 0 else NumberOf(s[..|s| - 1]) * 10 + DigitValue(s[|s| - 1])
  }

  /** The number, or none if any character is not a digit. */
  function Number(s: string): Option<int> {
    if AllDigits(s) then Some(NumberOf(s)) else None
  }

  /** `n` in `width` digits. */
  function Digits(n: int, width: nat): (s: string)
    requires 0 <= n
    ensures |s| == width && AllDigits(s)
  {
    if width == 0 then "" else
      DigitOfValue(n % 10);
      Digits(n / 10, width - 1) + [DigitChar(n % 10)]
  }

  function Pow10(n: nat): (p: int)
    ensures p >= 1
  {
    if n == 0 then 1 else 10 * Pow10(n - 1)
  }

  lemma {:induction false} NumberOfDigits(n: int, width: nat)
    requires 0 <= n < Pow10(width)
    ensures NumberOf(Digits(n, width)) == n
    decreases width
  {
    if width == 0 {
    } else {
      hide DigitValue, DigitChar, IsDigit;
      DigitOfValue(n % 10);
      NumberOfDigits(n / 10, width - 1);
      var s := Digits(n, width);
      assert s[..width - 1] == Digits(n / 10, width - 1);
    }
  }

  lemma {:induction false} DigitsOfNumber(s: string)
    requires AllDigits(s)
    ensures NumberOf(s) < Pow10(|s|) && Digits(NumberOf(s), |s|) == s
    decreases |s|
  {
    if s != "" {
      hide DigitValue, DigitChar, IsDigit, NumberOf, Digits, Pow10;
      var init, last := s[..|s| - 1], s[|s| - 1];
      assert s == init + [last];
      DigitsOfNumber(init);
      NumberOfPush(init, last);
      DigitsPush(NumberOf(init), DigitValue(last), |init|);
      assert Digits(NumberOf(init) * 10 + DigitValue(last), |init| + 1) == init + [last];
    } else {
      assert Digits(0, 0) == "" && Pow10(0) == 1;
    }
  }

  lemma DigitsPush(n: int, v: int, width: nat)
    requires 0 <= n < Pow10(width) && 0 <= v < 10
    ensures n * 10 + v < Pow10(width + 1)
    ensures Digits(n * 10 + v, width + 1) == Digits(n, width) + [DigitChar(v)]
  {
    TensAndUnits(n, v, Pow10(width));
  }

  lemma TensAndUnits(n: int, v: int, p: int)
    requires 0 <= n < p && 0 <= v < 10
    ensures n * 10 + v < 10 * p && (n * 10 + v) / 10 == n && (n * 10 + v) % 10 == v
  {
  }

  lemma NumberOfPush(s: string, c: char)
    requires AllDigits(s) && IsDigit(c)
    ensures AllDigits(s + [c]) && NumberOf(s + [c]) == NumberOf(s) * 10 + DigitValue(c)
  {
    assert (s + [c])[..|s|] == s;
  }

  lemma DigitsRead(n: int, width: nat)
    requires 0 <= n < Pow10(width)
    ensures Number(Digits(n, width)) == Some(n)
  {
    NumberOfDigits(n, width);
  }

  /** `n` in as many digits as it has. */
  function Decimal(n: nat): (s: string)
    ensures s != "" && AllDigits(s)
  {
    DigitOfValue(n % 10);
    (if n < 10 then "" else Decimal(n / 10)) + [DigitChar(n % 10)]
  }

  lemma {:induction false} DecimalReads(n: nat)
    ensures NumberOf(Decimal(n)) == n
    decreases n
  {
    hide DigitValue, DigitChar, IsDigit;
    DigitOfValue(n % 10);
    if n < 10 {
      NumberOfPush("", DigitChar(n));
    } else {
      DecimalReads(n / 10);
      NumberOfPush(Decimal(n / 10), DigitChar(n % 10));
    }
  }
}

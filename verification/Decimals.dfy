/** Decimal numerals: the digits of a number, and the number of a run of digits. */
module Decimals {

  predicate IsDigit(c: char) {
    '0' <= c <= '9'
  }

  predicate AllDigits(s: string) {
    forall k :: 0 <= k < |s| ==> IsDigit(s[k])
  }

  function Digit(d: nat): (c: char)
    requires d < 10
    ensures IsDigit(c) && DigitValue(c) == d && (c == '0' <==> d == 0)
  {
    '0' + d as char
  }

  function DigitValue(c: char): (d: nat)
    requires IsDigit(c)
    ensures d < 10 && (d == 0 <==> c == '0')
  {
    c as int - '0' as int
  }

  /** str(n) of a number that is not negative. */
  function Decimal(n: nat): (s: string)
    ensures s != "" && AllDigits(s)
    ensures s[0] == '0' <==> n == 0
    ensures n == 0 ==> s == "0"
  {
    if n < 10 then [Digit(n)] else Decimal(n / 10) + [Digit(n % 10)]
  }

  /** The number that a run of digits stands for. */
  function Number(s: string): nat
    requires AllDigits(s)
  {
    if s == "" then 0 else Number(s[..|s| - 1]) * 10 + DigitValue(s[|s| - 1])
  }

  lemma NumberSnoc(s: string, c: char)
    requires AllDigits(s) && IsDigit(c)
    ensures AllDigits(s + [c]) && Number(s + [c]) == Number(s) * 10 + DigitValue(c)
  {
    assert (s + [c])[..|s|] == s;
  }

  lemma {:induction false} NumberOfDecimal(n: nat)
    ensures Number(Decimal(n)) == n
  {
    if n < 10 {
      NumberSnoc("", Digit(n));
      assert Decimal(n) == "" + [Digit(n)];
    } else {
      NumberOfDecimal(n / 10);
      NumberSnoc(Decimal(n / 10), Digit(n % 10));
    }
  }

  lemma {:induction false} DecimalOfNumber(s: string)
    requires s != "" && AllDigits(s) && s[0] != '0'
    ensures 1 <= Number(s) && Decimal(Number(s)) == s
  {
    var head, last := s[..|s| - 1], s[|s| - 1];
    assert s == head + [last];
    NumberSnoc(head, last);
    if head == "" {
      assert Number(head) == 0;
    } else {
      DecimalOfNumber(head);
      assert Number(s) / 10 == Number(head) && Number(s) % 10 == DigitValue(last);
    }
  }

  function Pow10(k: nat): (p: nat)
    ensures 1 <= p
  {
    if k == 0 then 1 else 10 * Pow10(k - 1)
  }

  /** A number has at most k digits exactly when it is below 10 to the k. */
  lemma {:induction false} DigitCount(n: nat, k: nat)
    requires 1 <= k
    ensures |Decimal(n)| <= k <==> n < Pow10(k)
  {
    if 10 <= n {
      if k > 1 {
        DigitCount(n / 10, k - 1);
        assert Pow10(k) == 10 * Pow10(k - 1);
      } else {
        assert Pow10(1) == 10 * Pow10(0);
      }
    } else {
      assert Pow10(k) == 10 * Pow10(k - 1);
    }
  }
}

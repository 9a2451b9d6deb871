/**
 Numbers printed in decimal, as %d and Go's fmt verbs print them.
 */
module Decimals {
  function DigitChar(d: nat): char
    requires d < 10
  {
    ('0' as int + d) as char
  }

  function Digits(n: nat): (s: string)
    ensures |s| > 0
  {
    if n < 10 then [DigitChar(n)] else Digits(n / 10) + [DigitChar(n % 10)]
  }

  /** Different numbers print differently. */
  lemma {:induction false} DigitsInjective(a: nat, b: nat)
    requires Digits(a) == Digits(b)
    ensures a == b
  {
    var s, t := Digits(a), Digits(b);
    assert s[|s| - 1] == t[|t| - 1];
    assert a % 10 == b % 10;
    if a >= 10 && b >= 10 {
      assert Digits(a / 10) == s[..|s| - 1] == Digits(b / 10);
      DigitsInjective(a / 10, b / 10);
    }
  }

  lemma {:induction false} DigitsAreDigits(n: nat, i: nat)
    requires i < |Digits(n)|
    ensures '0' <= Digits(n)[i] <= '9'
  {
    if n >= 10 && i < |Digits(n / 10)| {
      DigitsAreDigits(n / 10, i);
    }
  }

  function Pow10(n: nat): nat { if n == 0 then 1 else 10 * Pow10(n - 1) }

  lemma {:induction false} DigitsShort(n: nat, k: nat)
    requires k > 0 && n < Pow10(k)
    ensures |Digits(n)| <= k
    decreases k
  {
    if n >= 10 {
      DigitsShort(n / 10, k - 1);
    }
  }

  /** The number that a string of digits stands for. */
  function NumberOf(s: string): int {
    if s == "" then 0 else 10 * NumberOf(s[..|s| - 1]) + (s[|s| - 1] as int - '0' as int)
  }

  /** Digits is the decimal notation: it stands for the number and has no needless zero. */
  lemma {:induction false} DigitsMean(n: nat)
    ensures NumberOf(Digits(n)) == n && (Digits(n)[0] == '0' <==> n == 0)
  {
    var s := Digits(n);
    if n < 10 {
      assert s[..0] == "";
    } else {
      DigitsMean(n / 10);
      assert s[..|s| - 1] == Digits(n / 10);
    }
  }
}

/** Decimal numerals, as printf("%d"), atoi, JavaScript's Number and toString treat them. */
module Decimal {

  predicate IsDigit(c: char) {
    '0' <= c <= '9'
  }

  predicate AllDigits(s: string) {
    forall i | 0 <= i < |s| :: IsDigit(s[i])
  }

  function DigitChar(d: nat): char
    requires d < 10
  {
    ('0' as int + d) as char
  }

  function DigitValue(c: char): nat
    requires IsDigit(c)
  {
    c as int - '0' as int
  }

  /** The numeral of n, without leading zeros. */
  function Print(n: nat): (s: string)
    ensures |s| >= 1 && AllDigits(s)
    ensures s[0] == '0' ==> s == "0"
    ensures n < 10 ==> |s| == 1
  {
    if n < 10 then [DigitChar(n)] else Print(n / 10) + [DigitChar(n % 10)]
  }

  function Value(s: string): nat
    requires AllDigits(s)
  {
    if s == "" then 0 else Value(s[..|s| - 1]) * 10 + DigitValue(s[|s| - 1])
  }

  lemma {:induction false} ValueOfPrint(n: nat)
    ensures Value(Print(n)) == n
  {
    if n >= 10 {
      ValueOfPrint(n / 10);
      assert Print(n)[..|Print(n)| - 1] == Print(n / 10);
    }
  }

  /** n < 10^k has at most k digits (k at least 1). */
  lemma {:induction false} PrintLength(n: nat, k: nat, bound: nat)
    requires k >= 1 && n < bound && bound == Pow10(k)
    ensures |Print(n)| <= k
    decreases k
  {
    if n >= 10 { PrintLength(n / 10, k - 1, Pow10(k - 1)); }
  }

  function Pow10(k: nat): nat {
    if k == 0 then 1 else 10 * Pow10(k - 1)
  }

  function StripZeros(s: string): string {
    if |s| > 1 && s[0] == '0' then StripZeros(s[1..]) else s
  }

  lemma {:induction false} ValueOfZeroPrefixed(s: string)
    requires AllDigits(s) && s != "" && s[0] == '0'
    ensures AllDigits(s[1..]) && Value(s[1..]) == Value(s)
    decreases |s|
  {
    if |s| > 1 {
      ValueOfZeroPrefixed(s[..|s| - 1]);
      assert s[1..][..|s| - 2] == s[..|s| - 1][1..];
    }
  }

  lemma {:induction false} ValuePositive(s: string)
    requires AllDigits(s) && s != "" && s[0] != '0'
    ensures Value(s) >= 1
    decreases |s|
  {
    if |s| > 1 { ValuePositive(s[..|s| - 1]); }
  }

  /** Printing the value of a numeral gives it back without its leading zeros. */
  lemma {:induction false} PrintOfValue(s: string)
    requires AllDigits(s) && s != ""
    ensures Print(Value(s)) == StripZeros(s)
    decreases |s|
  {
    if |s| > 1 && s[0] == '0' {
      ValueOfZeroPrefixed(s);
      PrintOfValue(s[1..]);
    } else if |s| > 1 {
      var init := s[..|s| - 1];
      ValuePositive(init);
      PrintOfValue(init);
      assert StripZeros(init) == init;
      assert Value(s) / 10 == Value(init) && Value(s) % 10 == DigitValue(s[|s| - 1]);
    } else {
      assert s[..0] == "";
    }
  }
}

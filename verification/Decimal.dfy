/** Decimal text of a natural number, as String(n) prints and Number(digits) reads it. */
module Decimal {
  predicate IsDigit(c: char) {
    '0' <= c <= '9'
  }

  function Digit(n: nat): (c: char)
    requires n < 10
    ensures IsDigit(c) && DigitValue(c) == n
  {
    '0' + n as char
  }

  function Print(n: nat): (s: string)
    ensures |s| > 0 && forall i | 0 <= i < |s| :: IsDigit(s[i])
  {
    if n < 10 then [Digit(n)] else Print(n / 10) + [Digit(n % 10)]
  }

  function DigitValue(c: char): nat
    requires IsDigit(c)
  {
    c as int - '0' as int
  }

  function Value(s: string): nat
    requires forall i | 0 <= i < |s| :: IsDigit(s[i])
  {
    if |s| == 0 then 0 else 10 * Value(s[..|s| - 1]) + DigitValue(s[|s| - 1])
  }

  lemma {:induction false} ValueOfPrint(n: nat)
    ensures Value(Print(n)) == n
  {
    if n >= 10 {
      ValueOfPrint(n / 10);
      assert Print(n)[..|Print(n)| - 1] == Print(n / 10);
    }
  }

  function TenTo(k: nat): (r: nat)
    ensures r > 0
  {
    if k == 0 then 1 else 10 * TenTo(k - 1)
  }

  /** A number has at most `k` digits exactly when it is below 10^k. */
  lemma {:induction false} Length(n: nat, k: nat)
    requires k > 0
    ensures |Print(n)| <= k <==> n < TenTo(k)
  {
    if k == 1 {
      assert TenTo(1) == 10 * TenTo(0);
    } else if n < 10 {
      TenGrows(k);
    } else {
      Length(n / 10, k - 1);
    }
  }

  lemma {:induction false} TenGrows(k: nat)
    requires k > 0
    ensures TenTo(k) >= 10
  {
    if k > 1 {
      TenGrows(k - 1);
    }
  }

  /** And `k` digits never read as 10^k or more. */
  lemma {:induction false} ValueBelow(s: string)
    requires forall i | 0 <= i < |s| :: IsDigit(s[i])
    ensures Value(s) < TenTo(|s|)
  {
    if |s| > 0 {
      ValueBelow(s[..|s| - 1]);
    }
  }

  lemma PrintInjective(n: nat, m: nat)
    requires Print(n) == Print(m)
    ensures n == m
  {
    ValueOfPrint(n);
    ValueOfPrint(m);
  }

  /** Base ten, most significant digit first. */
  lemma PrintedNumbers()
    ensures Print(0) == "0" && Print(7) == "7" && Print(25) == "25" && Print(1_203) == "1203"
  {
    assert Print(1) == "1" && Print(12) == "12" && Print(120) == "120";
  }
}

/** Natural numbers as decimal digits without leading zeros. */
module Decimals {

  predicate Digit(c: char) {
    '0' <= c <= '9'
  }

  function DigitChar(n: nat): (c: char)
    requires n < 10
    ensures Digit(c)
  {
    ('0' as int + n) as char
  }

  function DecimalText(n: nat): (s: string)
    ensures s != "" && forall i :: 0 <= i < |s| ==> Digit(s[i])
  {
    if n < 10 then [DigitChar(n)] else DecimalText(n / 10) + [DigitChar(n % 10)]
  }

  /** `Number(value)` of a string of digits. */
  function NumberOf(s: string): nat
    requires forall i :: 0 <= i < |s| ==> Digit(s[i])
  {
    if s == "" then 0
    else
      assert Digit(s[|s| - 1]);
      NumberOf(s[..|s| - 1]) * 10 + (s[|s| - 1] as int - '0' as int)
  }

  function Power(k: nat): nat {
    if k == 0 then 1 else 10 * Power(k - 1)
  }

  lemma {:induction false} PowerGrows(j: nat, k: nat)
    requires j <= k
    ensures Power(j) <= Power(k)
    decreases k
  {
    if j < k { PowerGrows(j, k - 1); }
  }

  lemma {:induction false} DecimalFacts(n: nat, k: nat)
    requires k > 0 && n < Power(k)
    ensures NumberOf(DecimalText(n)) == n && |DecimalText(n)| <= k
    ensures n > 0 ==> DecimalText(n)[0] != '0'
  {
    if n < 10 {
      assert DecimalText(n)[..0] == "";
    } else {
      assert k > 1;
      DecimalFacts(n / 10, k - 1);
      assert DecimalText(n)[..|DecimalText(n)| - 1] == DecimalText(n / 10);
    }
  }

  lemma {:induction false} LeadingDigit(s: string)
    requires s != "" && s[0] != '0' && forall i :: 0 <= i < |s| ==> Digit(s[i])
    ensures NumberOf(s) > 0 && NumberOf(s) < Power(|s|)
  {
    var last := |s| - 1;
    if last > 0 {
      LeadingDigit(s[..last]);
    } else {
      assert s[..0] == "" && Power(1) == 10 * Power(0);
    }
  }

  lemma {:induction false} DecimalOf(s: string)
    requires s != "" && (s[0] != '0' || |s| == 1) && forall i :: 0 <= i < |s| ==> Digit(s[i])
    ensures DecimalText(NumberOf(s)) == s
  {
    var last := |s| - 1;
    if last > 0 {
      DecimalOf(s[..last]);
      LeadingDigit(s[..last]);
      assert s == s[..last] + [s[last]];
    } else {
      assert s[..0] == "";
    }
  }
}

/** Numbers written in decimal, as base::IntToString writes them and GURL reads ports. */
module Decimals {

  function Digits(n: nat): (s: string)
    ensures s != [] && s[0] != '-' && '0' <= s[0] <= '9'
  {
    if n < 10 then ['0' + n as char] else Digits(n / 10) + ['0' + (n % 10) as char]
  }

  /** The number some digits stand for. */
  function ValueOf(digits: string): int {
    if digits == "" then 0
    else ValueOf(digits[..|digits| - 1]) * 10 + (digits[|digits| - 1] as int - '0' as int)
  }

  predicate AllDigits(s: string) {
    forall i :: 0 <= i < |s| ==> '0' <= s[i] <= '9'
  }

  /** The digits of a number stand for it, and do not start with a needless 0. */
  lemma {:induction false} DigitsStandForNumber(n: nat)
    ensures AllDigits(Digits(n)) && ValueOf(Digits(n)) == n
    ensures Digits(n)[0] == '0' <==> n == 0
  {
    if n < 10 {
      assert Digits(n)[..0] == "";
    } else {
      DigitsStandForNumber(n / 10);
      var s := Digits(n);
      assert s[..|s| - 1] == Digits(n / 10) && s[|s| - 1] == '0' + (n % 10) as char;
    }
  }

  lemma DigitsInjective(m: nat, n: nat)
    requires Digits(m) == Digits(n)
    ensures m == n
  {
    DigitsStandForNumber(m);
    DigitsStandForNumber(n);
  }

  /** In base ten, the most significant digit first. */
  lemma BaseTen(n: nat, d: nat)
    requires n > 0 && d < 10
    ensures Digits(10 * n + d) == Digits(n) + Digits(d)
    ensures Digits(0) == "0" && Digits(1) == "1" && Digits(9) == "9" && Digits(10) == "10"
  {
    assert (10 * n + d) / 10 == n && (10 * n + d) % 10 == d;
    assert Digits(1) == "1";
  }
}

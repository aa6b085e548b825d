/** Decimal numerals: `big.Int.String` and the decimal case of `big.Int.SetString(s, 0)`. */
module Decimal {

  function Digit(d: nat): char
    requires d < 10
  {
    '0' + d as char
  }

  predicate IsDigit(c: char) { '0' <= c <= '9' }

  function Print(n: nat): string {
    if n < 10 then [Digit(n)] else Print(n / 10) + [Digit(n % 10)]
  }

  /** A numeral that base-0 parsing reads in base ten: no redundant leading zero. */
  predicate IsNumeral(s: string) {
    && s != ""
    && (forall i | 0 <= i < |s| :: IsDigit(s[i]))
    && (|s| > 1 ==> s[0] != '0')
  }

  function Value(s: string): nat
    requires forall i | 0 <= i < |s| :: IsDigit(s[i])
  {
    if s == "" then 0
    else
      var n := |s| - 1;
      assert IsDigit(s[n]);
      10 * Value(s[..n]) + (s[n] as int - '0' as int)
  }

  lemma {:induction false} ParseAfterPrint(n: nat)
    ensures IsNumeral(Print(n)) && Value(Print(n)) == n
    ensures n > 0 ==> Print(n)[0] != '0'
  {
    if n < 10 {
      assert Print(n)[..0] == "";
    } else {
      ParseAfterPrint(n / 10);
      var front := Print(n / 10);
      assert Print(n)[..|front|] == front;
    }
  }

  lemma {:induction false} PrintAfterParse(s: string)
    requires IsNumeral(s)
    ensures Print(Value(s)) == s
    ensures s[0] != '0' ==> Value(s) > 0
  {
    var n := |s| - 1;
    assert s == s[..n] + [s[n]];
    if n == 0 {
      assert Value(s[..0]) == 0;
    } else {
      PrintAfterParse(s[..n]);
      assert Value(s) / 10 == Value(s[..n]);
    }
  }
}

/** Decimal numerals without a sign, as strconv prints and parses them and as addresses hold them. */
module Numerals {
  import opened Basics

  function Digit(d: nat): char
    requires d < 10
  {
    '0' + d as char
  }

  function Decimal(n: nat): string {
    if n < 10 then [Digit(n)] else Decimal(n / 10) + [Digit(n % 10)]
  }

  predicate IsDigits(s: string) {
    s != "" && forall i :: 0 <= i < |s| ==> IsDigit(s[i])
  }

  function ValueOf(s: string): nat
    requires IsDigits(s)
  {
    var low := s[|s| - 1] as nat - '0' as nat;
    if |s| == 1 then low else 10 * ValueOf(s[..|s| - 1]) + low
  }

  lemma {:induction false} DecimalValue(n: nat)
    ensures IsDigits(Decimal(n)) && ValueOf(Decimal(n)) == n
    ensures n > 0 ==> Decimal(n)[0] != '0'
  {
    if n >= 10 {
      DecimalValue(n / 10);
      var front := Decimal(n / 10);
      assert (front + [Digit(n % 10)])[..|front|] == front;
    }
  }

  lemma {:induction false} ValueDecimal(s: string)
    requires IsDigits(s) && (s[0] == '0' ==> s == "0")
    ensures Decimal(ValueOf(s)) == s && (ValueOf(s) == 0 ==> s == "0")
  {
    if |s| > 1 {
      var front := s[..|s| - 1];
      var low := s[|s| - 1] as nat - '0' as nat;
      ValueDecimal(front);
      assert s == front + [Digit(low)];
      assert ValueOf(s) / 10 == ValueOf(front) && ValueOf(s) % 10 == low;
    }
  }
}

/** Integers in decimal, as an f-string shows them. */
module Decimals {

  function Digit(d: nat): (c: char)
    requires d < 10
    ensures '0' <= c <= '9' && c as int - '0' as int == d
  {
    "0123456789"[d]
  }

  /** A natural number in decimal, as an f-string shows it. */
  function Digits(n: nat): (s: string)
    ensures s != [] && forall i :: 0 <= i < |s| ==> '0' <= s[i] <= '9'
  {
    if n < 10 then [Digit(n)] else Digits(n / 10) + [Digit(n % 10)]
  }

  function Decimal(i: int): string {
    if i < 0 then "-" + Digits(-i) else Digits(i)
  }

  function ValueOf(s: string): int {
    if s == "" then 0 else 10 * ValueOf(s[..|s| - 1]) + (s[|s| - 1] as int - '0' as int)
  }

  /** Reading the digits back gives the number, and there is no leading zero. */
  lemma {:induction false} DigitsRoundTrip(n: nat)
    ensures ValueOf(Digits(n)) == n
    ensures |Digits(n)| > 1 ==> Digits(n)[0] != '0'
    decreases n
  {
    var s := Digits(n);
    var m := |s| - 1;
    if n >= 10 {
      DigitsRoundTrip(n / 10);
      assert s[..m] == Digits(n / 10);
    } else {
      assert s[..m] == "";
    }
    assert ValueOf(s) == 10 * ValueOf(s[..m]) + n % 10;
  }

  lemma DecimalFirst(i: int)
    ensures Decimal(i) != [] && (Decimal(i)[0] == '-' <==> i < 0)
  {
    if i >= 0 {
      assert '0' <= Digits(i)[0];
    }
  }

  lemma DecimalIsInjective(a: int, b: int)
    requires Decimal(a) == Decimal(b)
    ensures a == b
  {
    DecimalFirst(a);
    DecimalFirst(b);
    var m, n := if a < 0 then -a else a, if b < 0 then -b else b;
    assert Digits(m) == Digits(n) by {
      if a < 0 {
        assert Digits(m) == Decimal(a)[1..] && Digits(n) == Decimal(b)[1..];
      }
    }
    DigitsRoundTrip(m);
    DigitsRoundTrip(n);
  }

  lemma DecimalHasNoColon(i: int)
    ensures ':' !in Decimal(i)
  {
  }
}

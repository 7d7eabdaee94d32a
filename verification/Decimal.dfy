/** Decimal text of integers, as `ToString` and `{0}` produce it. */
module Decimal {

  function Digit(d: nat): (c: char)
    requires d < 10
    ensures '0' <= c <= '9'
  {
    '0' + d as char
  }

  function Digits(n: nat): (s: string)
    ensures s != [] && forall i :: 0 <= i < |s| ==> '0' <= s[i] <= '9'
  {
    if n < 10 then [Digit(n)] else Digits(n / 10) + [Digit(n % 10)]
  }

  function Text(n: int): string {
    if n < 0 then "-" + Digits(-n) else Digits(n)
  }

  function Value(s: string): int {
    if s == [] then 0 else 10 * Value(s[..|s| - 1]) + (s[|s| - 1] as int - '0' as int)
  }

  lemma {:induction false} DigitsRoundTrip(n: nat)
    ensures Value(Digits(n)) == n
  {
    if n >= 10 {
      var s := Digits(n / 10);
      DigitsRoundTrip(n / 10);
      assert Digits(n)[..|Digits(n)| - 1] == s;
    } else {
      assert Digits(n)[..0] == [];
    }
  }

  lemma TextInjective(n: int, m: int)
    requires Text(n) == Text(m)
    ensures n == m
  {
    assert n < 0 ==> Text(n)[0] == '-' && Text(n)[1..] == Digits(-n);
    assert m < 0 ==> Text(m)[0] == '-' && Text(m)[1..] == Digits(-m);
    DigitsRoundTrip(if n < 0 then -n else n);
    DigitsRoundTrip(if m < 0 then -m else m);
  }
}

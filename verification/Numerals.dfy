/** Decimal numerals: str(n) of Python, and reading one back. */
module Numerals {
  import opened Signals

  function Decimal(n: nat): (r: string)
    ensures r != [] && '0' <= r[0] <= '9'
  {
    if n < 10 then [Digit(n)] else Decimal(n / 10) + [Digit(n % 10)]
  }

  function Digit(d: nat): char
    requires d < 10
  {
    '0' + d as char
  }

  /** The value of a list of digits read after a number; None if there is anything but digits. */
  function DigitsValue(s: string, acc: nat): Option<nat> {
    if s == [] then Some(acc)
    else if '0' <= s[0] <= '9' then DigitsValue(s[1..], 10 * acc + (s[0] as int - '0' as int))
    else None
  }

  lemma {:induction false} OneMoreDigit(s: string, d: nat, acc: nat)
    requires d < 10
    ensures DigitsValue(s + [Digit(d)], acc)
      == match DigitsValue(s, acc) case None => None case Some(v) => Some(10 * v + d)
  {
    if s == [] {
      assert s + [Digit(d)] == [Digit(d)] && [Digit(d)][1..] == [];
      assert Digit(d) as int - '0' as int == d;
    } else {
      assert (s + [Digit(d)])[1..] == s[1..] + [Digit(d)];
      if '0' <= s[0] <= '9' {
        OneMoreDigit(s[1..], d, 10 * acc + (s[0] as int - '0' as int));
      }
    }
  }

  /** A numeral is read back as its number. */
  lemma {:induction false} DecimalRead(n: nat)
    ensures DigitsValue(Decimal(n), 0) == Some(n)
  {
    if n < 10 {
      OneMoreDigit([], n, 0);
      assert [] + [Digit(n)] == [Digit(n)];
    } else {
      DecimalRead(n / 10);
      OneMoreDigit(Decimal(n / 10), n % 10, 0);
    }
  }

  lemma DecimalInjective(m: nat, n: nat)
    requires Decimal(m) == Decimal(n)
    ensures m == n
  {
    DecimalRead(m);
    DecimalRead(n);
  }
}

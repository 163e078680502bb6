/** Decimal numerals as text. */
module Decimal {

  predicate IsDigit(c: char) { '0' <= c <= '9' }

  predicate AllDigits(s: string) { forall i | 0 <= i < |s| :: IsDigit(s[i]) }

  function DigitOf(n: nat): char
    requires n < 10
  {
    '0' + n as char
  }

  /** The numeral of n, without leading zeros. */
  function Numeral(n: nat): string {
    if n < 10 then [DigitOf(n)] else Numeral(n / 10) + [DigitOf(n % 10)]
  }

  /** The number a string of digits stands for. */
  function ValueOf(s: string): nat
    requires AllDigits(s)
  {
    if s == [] then 0 else 10 * ValueOf(s[..|s| - 1]) + (s[|s| - 1] - '0') as nat
  }

  /** No leading zero, unless it is the only digit. */
  predicate Canonical(s: string) { s != [] && AllDigits(s) && (s[0] == '0' ==> |s| == 1) }

  lemma {:induction false} NumeralIsCanonical(n: nat)
    ensures Canonical(Numeral(n)) && ValueOf(Numeral(n)) == n
    ensures n > 0 ==> Numeral(n)[0] != '0'
  {
    var s := Numeral(n);
    if n >= 10 {
      NumeralIsCanonical(n / 10);
      assert s[..|s| - 1] == Numeral(n / 10);
    } else {
      assert s[..0] == [];
      assert ValueOf([]) == 0;
    }
  }

  /** Every canonical string of digits is the numeral of its value. */
  lemma {:induction false} CanonicalIsNumeral(s: string)
    requires Canonical(s)
    ensures Numeral(ValueOf(s)) == s
  {
    var last, front := s[|s| - 1], s[..|s| - 1];
    assert s == front + [last];
    if |s| == 1 {
      assert front == [];
      assert ValueOf([]) == 0;
    } else {
      CanonicalIsNumeral(front);
      PositiveWithoutZero(front);
      assert ValueOf(s) / 10 == ValueOf(front) && ValueOf(s) % 10 == (last - '0') as nat;
    }
  }

  lemma {:induction false} PositiveWithoutZero(s: string)
    requires s != [] && AllDigits(s) && s[0] != '0'
    ensures ValueOf(s) > 0
  {
    if |s| > 1 {
      PositiveWithoutZero(s[..|s| - 1]);
    } else {
      assert s[..0] == [];
    }
  }
}

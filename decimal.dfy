/**
  Decimal text of unsigned integers, as Rust's `{}` formatting writes a `u32`:
  at least one digit, most significant first, and no leading zero unless the
  number itself is zero. `Parse` reads such a digit string back.
 */
module Decimal {

  predicate IsDigit(c: char) {
    '0' <= c <= '9'
  }

  predicate AllDigits(s: string) {
    forall i :: 0 <= i < |s| ==> IsDigit(s[i])
  }

  /** The shape `{}` gives a `u32`: non-empty, digits only, no leading zero. */
  predicate IsCanonical(s: string) {
    |s| >= 1 && AllDigits(s) && (s[0] == '0' ==> |s| == 1)
  }

  function DigitValue(c: char): (d: nat)
    requires IsDigit(c)
    ensures d < 10
  {
    c as int - '0' as int
  }

  function DigitChar(d: nat): (c: char)
    requires d < 10
    ensures IsDigit(c) && DigitValue(c) == d
  {
    ('0' as int + d) as char
  }

  /** The number a string of decimal digits denotes (the empty string denotes 0). */
  function Parse(s: string): nat
    requires AllDigits(s)
    decreases |s|
  {
    if s == [] then 0 else 10 * Parse(s[..|s| - 1]) + DigitValue(s[|s| - 1])
  }

  /** The decimal text of `n`; a positive number never starts with '0'. */
  function ToDecimal(n: nat): (s: string)
    ensures IsCanonical(s)
    ensures n > 0 ==> s[0] != '0'
    decreases n
  {
    if n < 10 then [DigitChar(n)] else ToDecimal(n / 10) + [DigitChar(n % 10)]
  }

  /** Reading the decimal text of `n` gives back `n`. */
  lemma {:induction false} ParseToDecimal(n: nat)
    ensures Parse(ToDecimal(n)) == n
  {
    if n >= 10 {
      ParseToDecimal(n / 10);
      var s := ToDecimal(n);
      assert s[..|s| - 1] == ToDecimal(n / 10);
    }
  }

  /** Every canonical digit string is the decimal text of the number it denotes. */
  lemma {:induction false} ToDecimalParse(s: string)
    requires IsCanonical(s)
    ensures ToDecimal(Parse(s)) == s
  {
    var last := s[|s| - 1];
    if |s| == 1 {
      assert Parse(s) == DigitValue(last) by {
        assert s[..0] == [];
      }
      assert DigitChar(DigitValue(last)) == last;
    } else {
      var p := s[..|s| - 1];
      assert p[0] == s[0];
      ToDecimalParse(p);
      assert Parse(p) != 0;
      var n := Parse(s);
      assert n / 10 == Parse(p) && n % 10 == DigitValue(last);
      assert DigitChar(DigitValue(last)) == last;
      assert ToDecimal(n) == p + [last];
      assert p + [last] == s;
    }
  }

  /** One digit exactly below 10, at most two exactly below 100. */
  lemma ToDecimalLength(n: nat)
    ensures |ToDecimal(n)| == 1 <==> n < 10
    ensures |ToDecimal(n)| <= 2 <==> n < 100
  {
    if n >= 100 {
      assert |ToDecimal(n / 10)| >= 2;
    }
  }
}

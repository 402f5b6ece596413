/**
  A fixed-point money amount: an unsigned 32-bit count of hundredths, with a
  zero constructor, in-place addition, in-place scaling by an integer, and a
  `<whole>.<hundredths>` rendering.
 */
module Amounts {
  import opened Decimal

  datatype Option<T> = None | Some(value: T)

  const U32_BOUND: int := 0x1_0000_0000

  /** The values of Rust's `u32`. */
  type U32 = x: int | 0 <= x < U32_BOUND

  /** `Option::unwrap`: panics on `None`, which a caller must rule out. */
  function Unwrap<T>(o: Option<T>): (v: T)
    requires o.Some?
    ensures o == Some(v)
  {
    o.value
  }

  /** `u32::checked_div`: `None` exactly for a zero divisor, otherwise the quotient rounded down. */
  function CheckedDiv(a: U32, b: U32): (r: Option<U32>)
    ensures r.None? <==> b == 0
    ensures r.Some? ==> r.value * b <= a < (r.value + 1) * b
  {
    if b == 0 then None else Some(a / b)
  }

  /** `u32::checked_rem`: `None` exactly for a zero divisor, otherwise what the quotient leaves over. */
  function CheckedRem(a: U32, b: U32): (r: Option<U32>)
    ensures r.None? <==> b == 0
    ensures r.Some? ==> r.value < b && CheckedDiv(a, b).value * b + r.value == a
  {
    if b == 0 then None else Some(a % b)
  }

  /**
    What `Display::fmt` writes for an amount of `asInt` hundredths: the whole
    part, a '.', and the hundredths as a plain `{}` number (not padded to two
    digits). Both `unwrap`s are on a division by the constant 100, so the
    preconditions of `Unwrap` hold for every `asInt`.
   */
  function Format(asInt: U32): (s: string)
    ensures s == ToDecimal(asInt / 100) + "." + ToDecimal(asInt % 100)
  {
    var quot := Unwrap(CheckedDiv(asInt, 100));
    var rem := Unwrap(CheckedRem(asInt, 100));
    ToDecimal(quot) + "." + ToDecimal(rem)
  }

  /** The index of the first `c` in `s`, or `None` if `s` has no `c`. */
  function IndexOf(s: string, c: char): (r: Option<nat>)
    ensures r.None? ==> c !in s
    ensures r.Some? ==> r.value < |s| && s[r.value] == c && c !in s[..r.value]
    decreases |s|
  {
    if s == [] then None
    else if s[0] == c then Some(0)
    else match IndexOf(s[1..], c)
      case None => None
      case Some(k) =>
        assert s[1..][..k] == s[1..k + 1];
        assert s[..k + 1] == [s[0]] + s[1..k + 1];
        Some(k + 1)
  }

  /** Splits `<digits>.<digits>` at its only '.'; `None` for any other shape. */
  function SplitAtDot(s: string): (r: Option<(string, string)>)
    ensures r.Some? ==> s == r.value.0 + "." + r.value.1
    ensures r.Some? ==> |r.value.0| >= 1 && AllDigits(r.value.0) && |r.value.1| >= 1 && AllDigits(r.value.1)
  {
    match IndexOf(s, '.')
    case None => None
    case Some(k) =>
      var whole, frac := s[..k], s[k + 1..];
      assert s == whole + "." + frac;
      if |whole| >= 1 && AllDigits(whole) && |frac| >= 1 && AllDigits(frac) then Some((whole, frac)) else None
  }

  /** The two integer fields on either side of the '.' of a rendered amount. */
  function ParseDisplay(s: string): Option<(nat, nat)>
  {
    match SplitAtDot(s)
    case None => None
    case Some((whole, frac)) => Some((Parse(whole), Parse(frac)))
  }

  /**
    The amount, in hundredths, that a reader takes `<whole>.<fraction>` for
    when the fraction is read as decimal places ("44.5" is 44.50).
   */
  function HundredthsReading(s: string): Option<nat>
  {
    match SplitAtDot(s)
    case None => None
    case Some((whole, frac)) =>
      if |frac| == 1 then Some(Parse(whole) * 100 + Parse(frac) * 10)
      else if |frac| == 2 then Some(Parse(whole) * 100 + Parse(frac))
      else None
  }

  /** Two hundredths digits, the first '0' below ten. */
  function TwoDigits(r: nat): (s: string)
    requires r < 100
    ensures |s| == 2 && AllDigits(s) && Parse(s) == r
  {
    var s := [DigitChar(r / 10), DigitChar(r % 10)];
    assert s[..1] == [s[0]] && s[..1][..0] == [];
    assert Parse(s[..1]) == r / 10;
    s
  }

  /** The rendering with the hundredths padded to two digits, as a money amount is written. */
  function PaddedFormat(asInt: U32): string
  {
    ToDecimal(asInt / 100) + "." + TwoDigits(asInt % 100)
  }

  /** Two digit strings joined by one '.' split back into the same two strings. */
  lemma SplitJoined(whole: string, frac: string)
    requires |whole| >= 1 && AllDigits(whole) && |frac| >= 1 && AllDigits(frac)
    ensures SplitAtDot(whole + "." + frac) == Some((whole, frac))
  {
    var s := whole + "." + frac;
    assert s[|whole|] == '.';
    match IndexOf(s, '.')
    case None =>
      assert false;
    case Some(k) =>
      if k < |whole| {
        assert false;
      } else if k > |whole| {
        assert false;
      }
      assert s[..k] == whole && s[k + 1..] == frac;
  }

  /** A digit string holds no '.'. */
  lemma NoDotInDigits(s: string)
    requires AllDigits(s)
    ensures multiset(s)['.'] == 0
  {
    assert forall i :: 0 <= i < |s| ==> s[i] != '.';
    assert '.' !in s;
  }

  /** The rendering has exactly one '.', between a canonical whole part and a canonical one- or two-digit fraction. */
  lemma FormatShape(asInt: U32)
    ensures multiset(Format(asInt))['.'] == 1
    ensures SplitAtDot(Format(asInt)).Some?
    ensures var (whole, frac) := SplitAtDot(Format(asInt)).value;
      && IsCanonical(whole) && IsCanonical(frac) && 1 <= |frac| <= 2 && Parse(frac) < 100
  {
    var whole, frac := ToDecimal(asInt / 100), ToDecimal(asInt % 100);
    SplitJoined(whole, frac);
    ToDecimalLength(asInt % 100);
    ParseToDecimal(asInt % 100);
    NoDotInDigits(whole);
    NoDotInDigits(frac);
    assert multiset(whole + "." + frac) == multiset(whole) + multiset(".") + multiset(frac);
  }

  /** Reading back the two fields of the rendering gives quotient and remainder by 100, which rebuild the amount. */
  lemma FormatRoundTrip(asInt: U32)
    ensures ParseDisplay(Format(asInt)) == Some((asInt / 100, asInt % 100))
    ensures var (q, r) := ParseDisplay(Format(asInt)).value; q * 100 + r == asInt && r < 100
  {
    SplitJoined(ToDecimal(asInt / 100), ToDecimal(asInt % 100));
    ParseToDecimal(asInt / 100);
    ParseToDecimal(asInt % 100);
  }

  /** Distinct amounts render differently. */
  lemma FormatInjective(a: U32, b: U32)
    ensures Format(a) == Format(b) <==> a == b
  {
    if Format(a) == Format(b) {
      FormatRoundTrip(a);
      FormatRoundTrip(b);
    }
  }

  /** The hundredths are not padded: 4405 renders as "44.5" and 4450 as "44.50". */
  lemma FormatUnpadded()
    ensures Format(4405) == "44.5"
    ensures Format(4450) == "44.50"
    ensures Format(8992) == "89.92"
  {
    assert ToDecimal(44) == "44" by {
      assert ToDecimal(4) == "4";
    }
    assert ToDecimal(89) == "89" by {
      assert ToDecimal(8) == "8";
    }
    assert ToDecimal(50) == "50" by {
      assert ToDecimal(5) == "5";
    }
    assert ToDecimal(92) == "92" by {
      assert ToDecimal(9) == "9";
    }
  }

  /**
    Read as a decimal amount, the rendering is right exactly when the
    hundredths are zero or have two digits; for 1 to 9 hundredths it reads
    ten times too many.
   */
  lemma FormatReadingExact(asInt: U32)
    ensures HundredthsReading(Format(asInt)) == Some(asInt) <==> (asInt % 100 == 0 || asInt % 100 >= 10)
    ensures 0 < asInt % 100 < 10 ==> HundredthsReading(Format(asInt)) == Some(asInt + 9 * (asInt % 100))
  {
    var q, r := asInt / 100, asInt % 100;
    SplitJoined(ToDecimal(q), ToDecimal(r));
    ParseToDecimal(q);
    ParseToDecimal(r);
    ToDecimalLength(r);
  }

  /** The amount 44.05 reads as 44.50 from its rendering. */
  lemma FormatMisreads4405()
    ensures HundredthsReading(Format(4405)) == Some(4450)
  {
    FormatReadingExact(4405);
  }

  /** With padded hundredths the rendering always reads as the amount itself. */
  lemma PaddedFormatReadingExact(asInt: U32)
    ensures HundredthsReading(PaddedFormat(asInt)) == Some(asInt)
    ensures PaddedFormat(asInt) == Format(asInt) <==> asInt % 100 >= 10
  {
    var q, r := asInt / 100, asInt % 100;
    SplitJoined(ToDecimal(q), TwoDigits(r));
    ParseToDecimal(q);
    ToDecimalLength(r);
    if PaddedFormat(asInt) == Format(asInt) {
      assert TwoDigits(r) == ToDecimal(r) by {
        assert PaddedFormat(asInt)[|ToDecimal(q)| + 1..] == TwoDigits(r);
        assert Format(asInt)[|ToDecimal(q)| + 1..] == ToDecimal(r);
      }
    }
    if r >= 10 {
      assert ToDecimal(r) == ToDecimal(r / 10) + [DigitChar(r % 10)];
      assert ToDecimal(r / 10) == [DigitChar(r / 10)];
    }
  }

  /** A money amount: `as_int` hundredths held in a `u32`. */
  class Amount {
    var asInt: U32

    /** `Amount::new`: the zero amount. */
    constructor ()
      ensures asInt == 0
    {
      asInt := 0;
    }

    /**
      `+=`: adds the other amount's hundredths; a sum beyond `u32` panics, so
      callers must keep within it. The other amount is moved in, so it is never
      this amount itself.
     */
    method AddAssign(other: Amount)
      requires other != this
      requires asInt + other.asInt < U32_BOUND
      modifies this
      ensures asInt == old(asInt) + old(other.asInt)
    {
      asInt := asInt + other.asInt;
    }

    /** `*=`: scales by an integer quantity; a product beyond `u32` panics, so callers must keep within it. */
    method MulAssign(multiplier: U32)
      requires asInt * multiplier < U32_BOUND
      modifies this
      ensures asInt == old(asInt) * multiplier
    {
      asInt := asInt * multiplier;
    }

    /**
      The derived `==`: compares the `as_int` fields, so two amounts are equal
      exactly when they render the same text.
     */
    predicate Equals(other: Amount)
      reads this, other
      ensures Equals(other) <==> Format(asInt) == Format(other.asInt)
    {
      FormatInjective(asInt, other.asInt);
      asInt == other.asInt
    }
  }

  /** Adding a freshly constructed amount leaves an amount unchanged. */
  method AddZeroKeepsValue(a: Amount)
    modifies a
    ensures a.asInt == old(a.asInt)
  {
    var zero := new Amount();
    a.AddAssign(zero);
  }

  /** Scaling by 1 leaves an amount unchanged. */
  method MulOneKeepsValue(a: Amount)
    modifies a
    ensures a.asInt == old(a.asInt)
  {
    a.MulAssign(1);
  }

  /** A new amount holds zero hundredths. */
  method ConstructorDefaultWorks() returns (v: U32)
    ensures v == 0
  {
    var am := new Amount();
    v := am.asInt;
  }

  /** 44.12 scaled by 0 is zero. */
  method MultiplyByZero() returns (v: U32)
    ensures v == 0
  {
    var am := new Amount();
    am.asInt := 4412;
    am.MulAssign(0);
    v := am.asInt;
  }

  /** 44.12 scaled by 10 is 441.20. */
  method MultiplyByTen() returns (v: U32)
    ensures v == 44120
  {
    var am := new Amount();
    am.asInt := 4412;
    am.MulAssign(10);
    v := am.asInt;
  }

  /** 44.12 plus 45.80 is 89.92, which renders as "89.92". */
  method AddTwoAmounts() returns (v: U32, text: string)
    ensures v == 8992 && text == "89.92"
  {
    var am1 := new Amount();
    am1.asInt := 4412;
    var am2 := new Amount();
    am2.asInt := 4580;
    am1.AddAssign(am2);
    v := am1.asInt;
    text := Format(v);
    FormatUnpadded();
  }
}

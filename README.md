# Amount: a fixed-point money value

This project models `Amount`, the money type of an order-book price-impact
calculator. An `Amount` holds a monetary value as an unsigned 32-bit count of
hundredths (`as_int: u32`). It has four operations:

- `Amount::new` makes the zero amount.
- `+=` (`AddAssign`) adds another amount in place.
- `*=` (`MulAssign<u32>`) scales the amount in place by an integer quantity.
- `Display::fmt` renders it as `<whole>.<hundredths>`, using integer division
  and remainder by 100.

Layout:

- `decimal.dfy`, module `Decimal`: the decimal text Rust's `{}` writes for an
  unsigned integer (`ToDecimal`), reading it back (`Parse`), and both round trips.
- `amount.dfy`, module `Amounts`: the `u32` range (`U32`), `checked_div`,
  `checked_rem` and `unwrap`, the rendering `Format`, and the class `Amount`.
  `Amount` has the field `asInt`, and its constructor and methods update that field.
  The module also has lemmas about the rendering, and client methods that replay
  the unit tests and the identity laws.

`Display::fmt` only reads `as_int`, so it is modelled as the function
`Format(asInt)` of the field's value. Its calls to `Unwrap` carry the
precondition `Some?`. The verifier discharges it for every `u32`, which shows
that neither `unwrap` in the source can panic. The derived `==` is the
predicate `Amount.Equals`, because `==` on a Dafny object compares references.

The hundredths are printed without zero padding, exactly as the source does:
4405 renders as `"44.5"` and 4450 as `"44.50"`. `Format` keeps this behaviour,
and the lemmas prove it. The padded rendering `PaddedFormat` is given beside it
under "Findings".

## Model

| member | source | states |
|---|---|---|
| `Amounts.Amount.constructor` | src/amount.rs:17-19 | a new amount holds 0 hundredths |
| `Amounts.Amount.AddAssign` | src/amount.rs:33-37 | the new `as_int` is the old one plus the other amount's, and the other amount is left as it was; the other amount is a different object, as the move of `other_amount` guarantees; the caller must keep the sum below 2^32 (beyond it the addition panics) |
| `Amounts.Amount.MulAssign` | src/amount.rs:39-43 | the new `as_int` is the old one times the multiplier; the caller must keep the product below 2^32 |
| `Amounts.Amount.Equals` | src/amount.rs:11-14 | the derived `==`: true exactly when the `as_int` fields are equal, which its contract proves is the same as rendering to the same text |
| `Amounts.Unwrap` | src/amount.rs:47-48 | `Option::unwrap`: defined only on `Some`, so every call site must rule out `None`; the result is the wrapped value |
| `Amounts.CheckedDiv` | src/amount.rs:47 | `None` exactly for a zero divisor; otherwise the quotient q with q*b <= a < (q+1)*b |
| `Amounts.CheckedRem` | src/amount.rs:48 | `None` exactly for a zero divisor; otherwise a remainder below the divisor that, added to quotient*divisor, gives back a |
| `Amounts.Format` | src/amount.rs:45-52 | both `unwrap`s succeed for every `u32`; the text is the decimal of `as_int / 100`, a '.', then the unpadded decimal of `as_int % 100` |
| `Amounts.FormatShape` | src/amount.rs:47-50 | the text has exactly one '.'; both sides are canonical decimals; the fraction has 1 or 2 digits and its value is below 100 |
| `Amounts.FormatRoundTrip` | src/amount.rs:47-50 | parsing the fields on either side of the '.' gives q and r with r < 100 and q*100 + r == as_int |
| `Amounts.FormatInjective` | src/amount.rs:45-52 | two amounts render to the same text exactly when they are equal |
| `Amounts.FormatUnpadded` | src/amount.rs:50 | 4405 renders as "44.5", 4450 as "44.50", 8992 as "89.92" |
| `Amounts.FormatReadingExact` | src/amount.rs:47-50 | read as a decimal number, the text equals the amount exactly when the hundredths are 0 or at least 10; for 1 to 9 hundredths it reads 9*(as_int % 100) hundredths too many |
| `Amounts.FormatMisreads4405` | src/amount.rs:50 | the text for 4405 reads as 4450 hundredths |
| `Amounts.PaddedFormatReadingExact` | src/amount.rs:47-50 | with the hundredths padded to two digits, the text always reads as the amount; the padded text equals the source's exactly when the hundredths are at least 10 |
| `Amounts.AddZeroKeepsValue` | src/amount.rs:17-36 | adding a freshly constructed amount leaves `as_int` unchanged |
| `Amounts.MulOneKeepsValue` | src/amount.rs:40-42 | multiplying by 1 leaves `as_int` unchanged |
| `Amounts.ConstructorDefaultWorks` | src/amount.rs:66-69 | a new amount's `as_int` is 0 |
| `Amounts.MultiplyByZero` | src/amount.rs:78-82 | 4412 multiplied by 0 is 0 |
| `Amounts.MultiplyByTen` | src/amount.rs:85-89 | 4412 multiplied by 10 is 44120 |
| `Amounts.AddTwoAmounts` | src/amount.rs:92-97 | 4412 plus 4580 is 8992, which renders as "89.92" |
| `Decimal.ToDecimal` | src/amount.rs:50 | the `{}` text of an unsigned integer is non-empty and all digits, with no leading zero, and a positive number never starts with '0' |
| `Decimal.ParseToDecimal` | src/amount.rs:50 | reading the `{}` text of n gives back n |
| `Decimal.ToDecimalParse` | src/amount.rs:50 | every canonical digit string is the `{}` text of the number it denotes |
| `Decimal.ToDecimalLength` | src/amount.rs:50 | the text has one digit exactly when n < 10 and at most two exactly when n < 100 |

## Left out

- `Amount::new_from_str` (src/amount.rs:21-30) is not modelled. It parses through `f32`, multiplies by 100.0 and rounds, which is floating-point arithmetic. Its test (src/amount.rs:60-63) depends on that rounding.
- The derived `Hash` (src/amount.rs:11) is library hashing behaviour and is not modelled.
- The `Formatter` and `write!` interface is not modelled. `Format` gives the string that `write!` produces. It never reports a `fmt::Error`, because writing to the formatter is I/O outside the model.
- `Amounts.Amount.AddAssign`: a sum of 2^32 or more is excluded by its precondition. In debug builds that is a panic. A release build wraps modulo 2^32 instead, and the model does not cover that.
- `Amounts.Amount.MulAssign`: a product of 2^32 or more is excluded by its precondition. In debug builds that is a panic. A release build wraps modulo 2^32 instead, and the model does not cover that.
- The tests at src/amount.rs:74-94 call `Amount::new` with a string argument. That does not match the zero-argument `new`. The client methods keep only the values those tests check, and they set `asInt` directly. The test that expects a panic (src/amount.rs:72-75) is not modelled.
- `Amounts.Amount.AddAssign`: Rust moves `other_amount` into `add_assign`. The model states only that it is a different object (`requires other != this`). Its frame `modifies this` leaves the other object unchanged. The model does not capture that the other amount is consumed and can no longer be used.

## Findings

| source | as written | input that shows it | evidently intended | confidence | as-written member | corrected member |
|---|---|---|---|---|---|---|
| src/amount.rs:50 | the hundredths go to `{}` without zero padding | `as_int` = 4405 renders as "44.5", which reads as 44.50 | "44.05": two hundredths digits, `{:02}` | high; not executed | `Amounts.FormatMisreads4405` (with `Amounts.FormatReadingExact` about `Amounts.Format`) | `Amounts.PaddedFormatReadingExact` (about `Amounts.PaddedFormat`) |

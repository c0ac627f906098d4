/** Local timestamps as .NET's DateTime exposes them, and the zero-padded
    decimal fields that custom date format strings print. */
module Clock {

  /** Calendar fields of a local time; hours on the 24-hour clock. */
  datatype Timestamp = Timestamp(year: int, month: int, day: int,
                                 hour: int, minute: int, second: int, millisecond: int)
  {
    /** The ranges DateTime guarantees (the model does not check month lengths). */
    predicate Valid()
    {
      && 1 <= year <= 9999 && 1 <= month <= 12 && 1 <= day <= 31
      && 0 <= hour < 24 && 0 <= minute < 60 && 0 <= second < 60
      && 0 <= millisecond < 1000
    }
  }

  type DateTime = t: Timestamp | t.Valid() witness Timestamp(1, 1, 1, 0, 0, 0, 0)

  function Pow10(n: nat): nat
  {
    if n == 0 then 1 else 10 * Pow10(n - 1)
  }

  predicate IsDigit(c: char)
  {
    '0' <= c <= '9'
  }

  predicate IsDigits(s: string)
  {
    forall i :: 0 <= i < |s| ==> IsDigit(s[i])
  }

  function DigitChar(d: nat): (c: char)
    requires d < 10
    ensures IsDigit(c)
  {
    ('0' as int + d) as char
  }

  /** The number a string of decimal digits denotes. */
  function DigitsValue(s: string): nat
    requires IsDigits(s)
  {
    if s == [] then 0
    else 10 * DigitsValue(s[..|s| - 1]) + (s[|s| - 1] as int - '0' as int)
  }

  /** n in exactly `width` decimal digits with leading zeros, as a custom
      format specifier such as "MM" or "yyyy" prints it. */
  function PadDigits(n: nat, width: nat): (s: string)
    requires n < Pow10(width)
    ensures |s| == width
    ensures IsDigits(s)
    ensures DigitsValue(s) == n
  {
    if width == 0 then ""
    else
      var init := PadDigits(n / 10, width - 1);
      var s := init + [DigitChar(n % 10)];
      assert s[..|s| - 1] == init;
      s
  }

  /** The hour on the 12-hour clock ("hh"): 0 and 12 both print as 12. */
  function Hour12(hour: int): (h: int)
    requires 0 <= hour < 24
    ensures 1 <= h <= 12
    ensures h % 12 == hour % 12
  {
    if hour % 12 == 0 then 12 else hour % 12
  }

  /** Hundredths of a second ("ff"): the fraction truncated, not rounded. */
  function Hundredths(millisecond: int): (f: int)
    requires 0 <= millisecond < 1000
    ensures 0 <= f < 100
    ensures 10 * f <= millisecond < 10 * f + 10
  {
    millisecond / 10
  }
}

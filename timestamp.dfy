/**
 * The batch timestamp of backup.py: a wall-clock reading rendered with the
 * format `%Y%m%d_%H%M%S`. The clock itself is not modelled; callers pass
 * the reading in as a `DateTime`.
 */
module Timestamp {

  /** The fields of a Python `datetime` that the format uses. */
  datatype DateTime = DateTime(year: int, month: int, day: int, hour: int, minute: int, second: int)

  /** The ranges a Python `datetime` guarantees for those fields. */
  predicate ValidDateTime(t: DateTime) {
    && 1 <= t.year <= 9999
    && 1 <= t.month <= 12
    && 1 <= t.day <= 31
    && 0 <= t.hour <= 23
    && 0 <= t.minute <= 59
    && 0 <= t.second <= 59
  }

  function Pow10(w: nat): (r: nat)
    ensures r >= 1
  {
    if w == 0 then 1 else 10 * Pow10(w - 1)
  }

  predicate IsDigit(c: char) {
    '0' <= c <= '9'
  }

  function DigitChar(d: nat): (c: char)
    requires d < 10
    ensures IsDigit(c) && c as int - '0' as int == d
  {
    (d + '0' as int) as char
  }

  function DigitValue(c: char): (d: nat)
    requires IsDigit(c)
    ensures d < 10 && DigitChar(d) == c
  {
    c as int - '0' as int
  }

  /** `n` written in decimal with exactly `w` digits, zero-padded on the left. */
  function Digits(n: nat, w: nat): (r: string)
    requires n < Pow10(w)
    ensures |r| == w
    ensures forall i :: 0 <= i < w ==> IsDigit(r[i])
  {
    if w == 0 then [] else Digits(n / 10, w - 1) + [DigitChar(n % 10)]
  }

  /** The number a string of decimal digits denotes. */
  function Value(s: string): (n: nat)
    requires forall i :: 0 <= i < |s| ==> IsDigit(s[i])
  {
    if s == [] then 0
    else 10 * Value(s[..|s| - 1]) + DigitValue(s[|s| - 1])
  }

  /** Reading back a zero-padded rendering gives the number. */
  lemma {:induction false} ValueOfDigits(n: nat, w: nat)
    requires n < Pow10(w)
    ensures Value(Digits(n, w)) == n
  {
    if w > 0 {
      var d := Digits(n, w);
      assert d[..w - 1] == Digits(n / 10, w - 1);
      ValueOfDigits(n / 10, w - 1);
    }
  }

  /** The shape of a rendered timestamp: `YYYYMMDD_HHMMSS`. */
  predicate IsTimestamp(s: string) {
    && |s| == 15
    && s[8] == '_'
    && forall i :: 0 <= i < 15 && i != 8 ==> IsDigit(s[i])
  }

  /** `strftime('%Y%m%d_%H%M%S')`: the year zero-padded to four digits,
      every other field to two. */
  function Format(t: DateTime): (r: string)
    requires ValidDateTime(t)
    ensures IsTimestamp(r)
    ensures '/' !in r
  {
    Digits(t.year, 4) + Digits(t.month, 2) + Digits(t.day, 2) + "_"
      + Digits(t.hour, 2) + Digits(t.minute, 2) + Digits(t.second, 2)
  }

  /** Reads the six fields back out of a rendered timestamp. */
  function Parse(s: string): (d: DateTime)
    requires IsTimestamp(s)
  {
    DateTime(Value(s[0..4]), Value(s[4..6]), Value(s[6..8]),
             Value(s[9..11]), Value(s[11..13]), Value(s[13..15]))
  }

  /** The rendering loses nothing: parsing it gives the reading back, so two
      different readings never share a timestamp. */
  lemma FormatRoundTrip(t: DateTime)
    requires ValidDateTime(t)
    ensures Parse(Format(t)) == t
  {
    var s := Format(t);
    assert s[0..4] == Digits(t.year, 4);
    assert s[4..6] == Digits(t.month, 2);
    assert s[6..8] == Digits(t.day, 2);
    assert s[9..11] == Digits(t.hour, 2);
    assert s[11..13] == Digits(t.minute, 2);
    assert s[13..15] == Digits(t.second, 2);
    ValueOfDigits(t.year, 4);
    ValueOfDigits(t.month, 2);
    ValueOfDigits(t.day, 2);
    ValueOfDigits(t.hour, 2);
    ValueOfDigits(t.minute, 2);
    ValueOfDigits(t.second, 2);
  }
}

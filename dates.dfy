/**
  Timestamps of posts and their `YYYY-MM-DD` projection (`format_date`).

  A post's date is a chrono `DateTime<Utc>`; the model keeps the fields the
  program reads from it (year, month, day) and the time of day, which only
  matters for ordering posts.
*/
module Dates {
  import opened Results

  /** The calendar fields and the time of day of a UTC date-time. */
  datatype DateTime = DateTime(year: int, month: int, day: int, second: int, nanosecond: int)

  predicate IsLeapYear(year: int) {
    year % 4 == 0 && (year % 100 != 0 || year % 400 == 0)
  }

  function DaysInMonth(year: int, month: int): int
    requires 1 <= month <= 12
  {
    if month == 2 then (if IsLeapYear(year) then 29 else 28)
    else if month == 4 || month == 6 || month == 9 || month == 11 then 30
    else 31
  }

  /** What chrono guarantees of every value it hands out (a leap second is a nanosecond count of one second or more). */
  predicate ValidDateTime(t: DateTime) {
    && 1 <= t.month <= 12
    && 1 <= t.day <= DaysInMonth(t.year, t.month)
    && 0 <= t.second < 86400
    && 0 <= t.nanosecond < 2_000_000_000
  }

  type Timestamp = t: DateTime | ValidDateTime(t) witness DateTime(1970, 1, 1, 0, 0)

  /** `a < b` in chrono's ordering of instants: lexicographic on the fields. */
  predicate Earlier(a: Timestamp, b: Timestamp) {
    || a.year < b.year
    || (a.year == b.year && a.month < b.month)
    || (a.year == b.year && a.month == b.month && a.day < b.day)
    || (a.year == b.year && a.month == b.month && a.day == b.day && a.second < b.second)
    || (a.year == b.year && a.month == b.month && a.day == b.day && a.second == b.second
        && a.nanosecond < b.nanosecond)
  }

  lemma EarlierIsStrictTotalOrder(a: Timestamp, b: Timestamp, c: Timestamp)
    ensures !Earlier(a, a)
    ensures Earlier(a, b) ==> !Earlier(b, a)
    ensures Earlier(a, b) && Earlier(b, c) ==> Earlier(a, c)
    ensures a == b || Earlier(a, b) || Earlier(b, a)
  {
  }

  // ---------------------------------------------------------------------
  // Decimal numerals

  predicate IsDigit(c: char) {
    '0' <= c <= '9'
  }

  predicate AllDigits(s: string) {
    forall i :: 0 <= i < |s| ==> IsDigit(s[i])
  }

  function DigitChar(d: int): (c: char)
    requires 0 <= d < 10
    ensures IsDigit(c)
  {
    (48 + d) as char
  }

  function DigitValue(c: char): int
    requires IsDigit(c)
  {
    c as int - 48
  }

  /** The shortest decimal numeral of `n`, as Rust's `Display` writes it. */
  function Decimal(n: nat): (s: string)
    ensures 1 <= |s| && AllDigits(s)
    decreases n
  {
    if n < 10 then [DigitChar(n)] else Decimal(n / 10) + [DigitChar(n % 10)]
  }

  /** The number a string of digits denotes, leading zeros allowed. */
  function ValueOf(s: string): nat
    requires AllDigits(s)
    decreases |s|
  {
    if s == [] then 0 else ValueOf(s[..|s| - 1]) * 10 + DigitValue(s[|s| - 1])
  }

  function Pow10(k: nat): (p: nat)
    ensures p >= 1
  {
    if k == 0 then 1 else 10 * Pow10(k - 1)
  }

  function Zeros(k: nat): (s: string)
    ensures |s| == k && AllDigits(s)
    ensures forall i :: 0 <= i < k ==> s[i] == '0'
  {
    seq(k, _ => '0')
  }

  /** Left-pads `s` with zeros to at least `width` characters. */
  function PadLeft(s: string, width: nat): string {
    if |s| >= width then s else Zeros(width - |s|) + s
  }

  /**
    Rust's `format!("{:0w$}", n)` for a signed integer: the sign comes first
    and counts towards the width, zeros fill the rest, and a numeral longer
    than the width is never cut.
  */
  function FormatPadded(n: int, width: nat): string {
    if n < 0 then "-" + PadLeft(Decimal(-n), if width > 0 then width - 1 else 0)
    else PadLeft(Decimal(n), width)
  }

  /** Reads an optionally signed decimal numeral back. */
  function ParseInteger(s: string): Option<int> {
    if |s| > 1 && s[0] == '-' && AllDigits(s[1..]) then Some(0 - ValueOf(s[1..]) as int)
    else if |s| > 0 && AllDigits(s) then Some(ValueOf(s))
    else None
  }

  /** `format_date`: `{:04}-{:02}-{:02}` of the year, month and day. */
  function FormatDate(t: Timestamp): string {
    FormatPadded(t.year, 4) + "-" + FormatPadded(t.month, 2) + "-" + FormatPadded(t.day, 2)
  }

  /** Reads a `format_date` string back, from the right: day, month, then a signed year. */
  function ParseDate(s: string): Option<(int, int, int)> {
    if |s| < 7 || s[|s| - 6] != '-' || s[|s| - 3] != '-' then None
    else if !AllDigits(s[|s| - 5..|s| - 3]) || !AllDigits(s[|s| - 2..]) then None
    else match ParseInteger(s[..|s| - 6])
      case None => None
      case Some(year) => Some((year, ValueOf(s[|s| - 5..|s| - 3]), ValueOf(s[|s| - 2..])))
  }

  // ---------------------------------------------------------------------
  // Lemmas

  lemma {:induction false} DecimalReadBack(n: nat)
    ensures ValueOf(Decimal(n)) == n
  {
    if n >= 10 {
      DecimalReadBack(n / 10);
      var s := Decimal(n);
      assert s[..|s| - 1] == Decimal(n / 10);
    }
  }

  lemma {:induction false} DecimalLength(n: nat, k: nat)
    requires 1 <= k && n < Pow10(k)
    ensures |Decimal(n)| <= k
  {
    if n >= 10 {
      DecimalLength(n / 10, k - 1);
    }
  }

  lemma {:induction false} ZerosValue(k: nat)
    ensures ValueOf(Zeros(k)) == 0
  {
    if k > 0 {
      ZerosValue(k - 1);
      assert Zeros(k)[..k - 1] == Zeros(k - 1);
    }
  }

  /** Leading zeros do not change the number a digit string denotes. */
  lemma {:induction false} LeadingZerosValue(k: nat, s: string)
    requires AllDigits(s)
    ensures AllDigits(Zeros(k) + s) && ValueOf(Zeros(k) + s) == ValueOf(s)
    decreases |s|
  {
    if s == [] {
      assert Zeros(k) + s == Zeros(k);
      ZerosValue(k);
    } else {
      LeadingZerosValue(k, s[..|s| - 1]);
      var t := Zeros(k) + s;
      assert t[..|t| - 1] == Zeros(k) + s[..|s| - 1];
    }
  }

  lemma PadLeftDigits(s: string, width: nat)
    requires AllDigits(s)
    ensures AllDigits(PadLeft(s, width)) && ValueOf(PadLeft(s, width)) == ValueOf(s)
    ensures |s| <= width ==> |PadLeft(s, width)| == width
    ensures |s| >= width ==> PadLeft(s, width) == s
  {
    if |s| < width {
      LeadingZerosValue(width - |s|, s);
    }
  }

  /** Every padded numeral reads back as the number it renders. */
  lemma FormatPaddedReadBack(n: int, width: nat)
    ensures ParseInteger(FormatPadded(n, width)) == Some(n)
  {
    var w := if n < 0 && width > 0 then width - 1 else width;
    var digits := PadLeft(Decimal(if n < 0 then -n else n), w);
    PadLeftDigits(Decimal(if n < 0 then -n else n), w);
    DecimalReadBack(if n < 0 then -n else n);
    if n < 0 {
      var s := FormatPadded(n, width);
      assert s == "-" + digits && s[1..] == digits;
    }
  }

  /** A zero or positive number below 10^width renders as exactly `width` digits denoting it. */
  lemma FormatPaddedFixedWidth(n: int, width: nat)
    requires 1 <= width && 0 <= n < Pow10(width)
    ensures |FormatPadded(n, width)| == width
    ensures AllDigits(FormatPadded(n, width)) && ValueOf(FormatPadded(n, width)) == n
  {
    DecimalLength(n, width);
    PadLeftDigits(Decimal(n), width);
    DecimalReadBack(n);
  }

  /**
    For years 0 to 9999 the date is the ISO 8601 extended calendar date:
    ten characters, `YYYY-MM-DD`, whose digit groups denote the year, the
    month and the day.
  */
  lemma FormatDateShape(t: Timestamp)
    requires 0 <= t.year <= 9999
    ensures var s := FormatDate(t);
      && |s| == 10
      && s[4] == '-' && s[7] == '-'
      && AllDigits(s[0..4]) && AllDigits(s[5..7]) && AllDigits(s[8..10])
      && ValueOf(s[0..4]) == t.year && ValueOf(s[5..7]) == t.month && ValueOf(s[8..10]) == t.day
  {
    var y, m, d := FormatPadded(t.year, 4), FormatPadded(t.month, 2), FormatPadded(t.day, 2);
    FormatPaddedFixedWidth(t.year, 4);
    FormatPaddedFixedWidth(t.month, 2);
    FormatPaddedFixedWidth(t.day, 2);
    var s := FormatDate(t);
    assert s == y + "-" + m + "-" + d;
    assert s[0..4] == y && s[5..7] == m && s[8..10] == d;
  }

  /** Whatever the year, the formatted date reads back as the year, month and day it came from. */
  lemma FormatDateReadBack(t: Timestamp)
    ensures ParseDate(FormatDate(t)) == Some((t.year, t.month, t.day))
  {
    FormatPaddedReadBack(t.year, 4);
    FormatPaddedFixedWidth(t.month, 2);
    FormatPaddedFixedWidth(t.day, 2);
    ParseDateOfParts(FormatPadded(t.year, 4), FormatPadded(t.month, 2), FormatPadded(t.day, 2));
  }

  /** A signed year numeral and two two-digit groups, joined by dashes, read back as their values. */
  lemma ParseDateOfParts(y: string, m: string, d: string)
    requires ParseInteger(y).Some?
    requires |m| == 2 && AllDigits(m) && |d| == 2 && AllDigits(d)
    ensures ParseDate(y + "-" + m + "-" + d) == Some((ParseInteger(y).value, ValueOf(m), ValueOf(d)))
  {
    var s := y + "-" + m + "-" + d;
    assert |s| == |y| + 6;
    assert s[|s| - 6] == '-' && s[|s| - 3] == '-';
    assert s[..|s| - 6] == y && s[|s| - 5..|s| - 3] == m && s[|s| - 2..] == d;
  }
}

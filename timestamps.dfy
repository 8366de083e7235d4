/** The canonical timestamp `YYYY:MM:DD HH:MM:SS` both scripts pass around, and
    what `datetime.strptime(val, "%Y:%m:%d %H:%M:%S")` makes of it. */
module Timestamps {
  import opened Wrappers
  import opened Text

  /** A naive (wall-clock) date-time, counted in microseconds from
      0001-01-01 00:00:00. Filesystem times enter the model already converted
      by `datetime.fromtimestamp`, in the same unit. */
  type Instant = int

  const MicrosPerSecond: nat := 1_000_000

  /** The zero-filled value cameras write when they have no date. */
  const Sentinel: string := "0000:00:00 00:00:00"

  /** `re.match(r"\d{4}<sep>\d{2}<sep>\d{2} \d{2}:\d{2}:\d{2}", s)`: the date-time
      pattern, with `sep` between the date fields, at the start of `s`. */
  predicate ShapedPrefix(s: string, sep: char) {
    |s| >= 19
    && IsDigit(s[0]) && IsDigit(s[1]) && IsDigit(s[2]) && IsDigit(s[3]) && s[4] == sep
    && IsDigit(s[5]) && IsDigit(s[6]) && s[7] == sep && IsDigit(s[8]) && IsDigit(s[9])
    && s[10] == ' '
    && IsDigit(s[11]) && IsDigit(s[12]) && s[13] == ':' && IsDigit(s[14]) && IsDigit(s[15])
    && s[16] == ':' && IsDigit(s[17]) && IsDigit(s[18])
  }

  /** The canonical shape: exactly 19 characters, `\d{4}:\d{2}:\d{2} \d{2}:\d{2}:\d{2}`. */
  predicate IsCanonical(s: string) {
    |s| == 19 && ShapedPrefix(s, ':')
  }

  predicate IsLeapYear(y: int) {
    y % 4 == 0 && (y % 100 != 0 || y % 400 == 0)
  }

  function DaysInMonth(y: int, m: int): nat
    requires 1 <= m <= 12
  {
    if m == 2 then (if IsLeapYear(y) then 29 else 28)
    else if m == 4 || m == 6 || m == 9 || m == 11 then 30
    else 31
  }

  /** Days in the months of year `y` before month `m`. */
  function DaysBeforeMonth(y: int, m: int): nat
    requires 1 <= m <= 12
  {
    if m == 1 then 0 else DaysBeforeMonth(y, m - 1) + DaysInMonth(y, m - 1)
  }

  /** Days from 0001-01-01 to the first of January of year `y`. */
  function DaysBeforeYear(y: nat): nat
    requires y >= 1
  {
    var p := y - 1;
    365 * p + p / 4 - p / 100 + p / 400
  }

  /** The fields of a canonical timestamp, read as numbers. */
  datatype Fields = Fields(year: nat, month: nat, day: nat, hour: nat, minute: nat, second: nat)

  /** The two-digit number at positions `i` and `i + 1`. */
  function TwoDigits(s: string, i: nat): nat
    requires i + 1 < |s| && IsDigit(s[i]) && IsDigit(s[i + 1])
  {
    DigitValue(s[i]) * 10 + DigitValue(s[i + 1])
  }

  function FieldsOf(s: string): Fields
    requires IsCanonical(s)
  {
    Fields(TwoDigits(s, 0) * 100 + TwoDigits(s, 2), TwoDigits(s, 5), TwoDigits(s, 8),
           TwoDigits(s, 11), TwoDigits(s, 14), TwoDigits(s, 17))
  }

  /** What `datetime` accepts: year 1..9999, a real day of a real month,
      hours below 24, minutes and seconds below 60. */
  predicate IsValidDateTime(f: Fields) {
    1 <= f.year && 1 <= f.month <= 12 && 1 <= f.day <= DaysInMonth(f.year, f.month)
    && f.hour < 24 && f.minute < 60 && f.second < 60
  }

  /** `datetime.strptime(s, "%Y:%m:%d %H:%M:%S")` on a canonical string:
      the instant it denotes, or `None` where Python raises `ValueError`. */
  function ParseTimestamp(s: string): (r: Option<Instant>)
    requires IsCanonical(s)
    ensures r.Some? <==> IsValidDateTime(FieldsOf(s))
    ensures r.Some? ==> r.value >= 0
  {
    var f := FieldsOf(s);
    if !IsValidDateTime(f) then None
    else
      var days := DaysBeforeYear(f.year) + DaysBeforeMonth(f.year, f.month) + f.day - 1;
      Some((((days * 24 + f.hour) * 60 + f.minute) * 60 + f.second) * MicrosPerSecond)
  }

  /** The zero-filled sentinel is canonical in shape but names no date. */
  lemma SentinelUnparseable()
    ensures IsCanonical(Sentinel) && ParseTimestamp(Sentinel).None?
  {
  }
}

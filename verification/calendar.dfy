/** The fixed formats of dates ("YYYY-MM-DD"), times of day ("HH:MM") and
    appointment timestamps ("YYYY-MM-DD HH:MM"). */
module Calendar {
  import opened Wrappers
  import Text

  predicate IsLeapYear(y: int) {
    y % 4 == 0 && (y % 100 != 0 || y % 400 == 0)
  }

  function DaysInMonth(y: int, m: int): (n: int)
    requires 1 <= m <= 12
    ensures 28 <= n <= 31
    ensures n == 29 <==> m == 2 && IsLeapYear(y)
  {
    if m == 2 then (if IsLeapYear(y) then 29 else 28)
    else if m == 4 || m == 6 || m == 9 || m == 11 then 30
    else 31
  }

  /** A zero-padded "YYYY-MM-DD" naming a day of the proleptic Gregorian calendar
      from year 1 on. */
  predicate ValidDate(s: string) {
    && |s| == 10
    && s[4] == '-' && s[7] == '-'
    && Text.IsDigits(s[..4]) && Text.IsDigits(s[5..7]) && Text.IsDigits(s[8..])
    && var y, m, d := Text.Decimal(s[..4]), Text.Decimal(s[5..7]), Text.Decimal(s[8..]);
       1 <= y && 1 <= m <= 12 && 1 <= d <= DaysInMonth(y, m)
  }

  /** A zero-padded 24-hour "HH:MM". */
  predicate ValidTime(s: string) {
    && |s| == 5
    && s[2] == ':'
    && Text.IsDigits(s[..2]) && Text.IsDigits(s[3..])
    && Text.Decimal(s[..2]) < 24 && Text.Decimal(s[3..]) < 60
  }

  /** Parses "YYYY-MM-DD HH:MM" into its date key and its time-of-day key, or fails. */
  function ParseTimestamp(s: string): (r: Option<(string, string)>)
    ensures r.Some? ==> ValidDate(r.value.0) && ValidTime(r.value.1)
    ensures r.Some? ==> s == r.value.0 + " " + r.value.1
  {
    if |s| == 16 && s[10] == ' ' && ValidDate(s[..10]) && ValidTime(s[11..]) then
      assert s == s[..10] + " " + s[11..];
      Some((s[..10], s[11..]))
    else None
  }

  /** Every well-formed date and time, joined by one space, parses back to themselves:
      with the success case of `ParseTimestamp`, parsing succeeds exactly on such strings. */
  lemma ParseTimestampRoundTrip(date: string, time: string)
    requires ValidDate(date) && ValidTime(time)
    ensures ParseTimestamp(date + " " + time) == Some((date, time))
  {
    var s := date + " " + time;
    assert s[..10] == date && s[11..] == time;
  }
}

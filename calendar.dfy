/** The proleptic Gregorian calendar of Python's datetime and calendar modules: month
    lengths, the day count of date.toordinal(), the hour count that stands for a timestamp,
    and the two date formats the scripts parse. */
module Calendar {
  import opened Wrappers
  import opened Decimal

  datatype Date = Date(year: int, month: int, day: int)

  predicate IsLeapYear(y: int)
  {
    y % 4 == 0 && (y % 100 != 0 || y % 400 == 0)
  }

  /** calendar.monthrange(y, m)[1]: the number of days in month m of year y. */
  function DaysInMonth(y: int, m: int): (n: int)
    requires 1 <= m <= 12
    ensures 28 <= n <= 31
  {
    if m == 2 then (if IsLeapYear(y) then 29 else 28)
    else if m == 4 || m == 6 || m == 9 || m == 11 then 30
    else 31
  }

  /** The dates datetime.date accepts (MINYEAR = 1, MAXYEAR = 9999). */
  predicate ValidDate(d: Date)
  {
    1 <= d.year <= 9999 && 1 <= d.month <= 12 && 1 <= d.day <= DaysInMonth(d.year, d.month)
  }

  function DaysInYear(y: int): int
  {
    if IsLeapYear(y) then 366 else 365
  }

  function DaysBeforeYear(y: int): nat
    requires y >= 1
  {
    if y == 1 then 0 else DaysBeforeYear(y - 1) + DaysInYear(y - 1)
  }

  function DaysBeforeMonth(y: int, m: int): nat
    requires 1 <= m <= 12
  {
    [0, 31, 59, 90, 120, 151, 181, 212, 243, 273, 304, 334][m - 1] + (if m > 2 && IsLeapYear(y) then 1 else 0)
  }

  /** date.toordinal(): 0001-01-01 is day 1. */
  function Ordinal(d: Date): int
    requires ValidDate(d)
  {
    DaysBeforeYear(d.year) + DaysBeforeMonth(d.year, d.month) + d.day
  }

  /** A timestamp, counted in hours: midnight of date d plus the given number of hours
      (datetime(d) + to_timedelta(hours, unit='h')). */
  function HourStamp(d: Date, hours: int): int
    requires ValidDate(d)
  {
    Ordinal(d) * 24 + hours
  }

  /** The first day of a month follows the last day of the month before it, across a year
      boundary too. */
  lemma MonthBoundary(y: int, m: int)
    requires 1 <= y <= 9999 && 1 <= m <= 12
    ensures var prev := if m == 1 then Date(y - 1, 12, 31) else Date(y, m - 1, DaysInMonth(y, m - 1));
      (y > 1 || m > 1) ==> ValidDate(prev) && Ordinal(prev) + 1 == Ordinal(Date(y, m, 1))
  {
  }

  /** Two consecutive days of one month are one ordinal apart, 24 hours apart as timestamps. */
  lemma NextDayStamp(d: Date, h: int)
    requires ValidDate(d) && d.day < DaysInMonth(d.year, d.month)
    ensures ValidDate(Date(d.year, d.month, d.day + 1))
    ensures HourStamp(Date(d.year, d.month, d.day + 1), h) == HourStamp(d, h + 24)
  {
  }

  /** datetime.strptime(t, '%Y%m%d') on an eight-digit token: four-digit year, two-digit
      month and day, and a date datetime accepts; None where strptime raises ValueError. */
  function ParseCompactDate(t: string): (r: Option<Date>)
    requires |t| == 8 && AllDigits(t)
    ensures r.Some? ==> ValidDate(r.value)
  {
    var d := Date(ValueOf(t[..4]), ValueOf(t[4..6]), ValueOf(t[6..]));
    if ValidDate(d) then Some(d) else None
  }

  /** The YYYYMMDD token of a date whose year has four digits. */
  function CompactDate(d: Date): (t: string)
    requires ValidDate(d) && d.year >= 1000
    ensures |t| == 8 && AllDigits(t)
  {
    FourDigitCount(d.year);
    DecimalString(d.year) + TwoDigits(d.month) + TwoDigits(d.day)
  }

  lemma CompactDateRoundTrip(d: Date)
    requires ValidDate(d) && d.year >= 1000
    ensures ParseCompactDate(CompactDate(d)) == Some(d)
  {
    FourDigitCount(d.year);
    var t := CompactDate(d);
    assert t[..4] == DecimalString(d.year);
    assert t[4..6] == TwoDigits(d.month);
    assert t[6..] == TwoDigits(d.day);
  }

  /** The dates whose midnight a nanosecond pandas Timestamp can hold: 1677-09-22 to
      2262-04-11. to_datetime raises OutOfBoundsDatetime, a ValueError, on any other. */
  predicate InTimestampRange(d: Date)
  {
    (d.year > 1677 || (d.year == 1677 && (d.month > 9 || (d.month == 9 && d.day >= 22)))) &&
    (d.year < 2262 || (d.year == 2262 && (d.month < 4 || (d.month == 4 && d.day <= 11))))
  }

  /** A month or day field after a '-' separator: pandas' ISO date parser takes one digit or
      two. */
  predicate DateField(f: string)
  {
    1 <= |f| <= 2 && AllDigits(f)
  }

  /** pandas.to_datetime(s, format='%Y-%m-%d') on one cell: a four-digit year, '-', a month
      field, '-', a day field and nothing more, naming a date that datetime accepts and a
      Timestamp can hold; None where the conversion raises. */
  function ParseIsoDate(s: string): (r: Option<Date>)
    ensures r.Some? ==> ValidDate(r.value) && InTimestampRange(r.value)
  {
    if |s| < 5 || !AllDigits(s[..4]) || s[4] != '-' then None
    else
      var dash := 5 + FirstIndexOf(s[5..], '-');
      if dash == |s| || !DateField(s[5..dash]) || !DateField(s[dash + 1..]) then None
      else
        var d := Date(ValueOf(s[..4]), ValueOf(s[5..dash]), ValueOf(s[dash + 1..]));
        if ValidDate(d) && InTimestampRange(d) then Some(d) else None
  }

  /** Every date a Timestamp can hold reads back from its year, '-', its month and '-', its
      day, whether the month and day are written with a leading zero or not. */
  lemma IsoDateRoundTrip(d: Date, month: string, day: string)
    requires ValidDate(d) && InTimestampRange(d)
    requires DateField(month) && ValueOf(month) == d.month
    requires DateField(day) && ValueOf(day) == d.day
    ensures ParseIsoDate(DecimalString(d.year) + "-" + month + "-" + day) == Some(d)
  {
    FourDigitCount(d.year);
    var y := DecimalString(d.year);
    IsoFields(y, month, day);
  }

  /** Where the parser finds the fields of a text built from a four-digit year and two
      digit fields. */
  lemma IsoFields(y: string, month: string, day: string)
    requires |y| == 4 && AllDigits(y) && DateField(month) && DateField(day)
    ensures var s := y + "-" + month + "-" + day;
      s[..4] == y && s[4] == '-' && 5 + FirstIndexOf(s[5..], '-') == 5 + |month| < |s| &&
      s[5..5 + |month|] == month && s[5 + |month| + 1..] == day
  {
    var s := y + "-" + month + "-" + day;
    assert s[5..] == month + ("-" + day);
    FirstIndexAfter(month, '-', "-" + day);
  }

  /** The %Y-%m-%d form of a date, as strftime writes it, parses back to the date. */
  lemma PaddedIsoDateRoundTrip(d: Date)
    requires ValidDate(d) && InTimestampRange(d)
    ensures ParseIsoDate(DecimalString(d.year) + "-" + TwoDigits(d.month) + "-" + TwoDigits(d.day)) == Some(d)
  {
    IsoDateRoundTrip(d, TwoDigits(d.month), TwoDigits(d.day));
  }

  /** The same date without leading zeros, as in 2024-3-1, parses to the same date. */
  lemma UnpaddedIsoDateRoundTrip(d: Date)
    requires ValidDate(d) && InTimestampRange(d)
    ensures ParseIsoDate(DecimalString(d.year) + "-" + DecimalString(d.month) + "-" + DecimalString(d.day)) == Some(d)
  {
    DigitCountBelow100(d.month);
    DigitCountBelow100(d.day);
    IsoDateRoundTrip(d, DecimalString(d.month), DecimalString(d.day));
  }
}

/** The reporting window: the calendar month before the run date, the name of its monthly
    capability file and the names of its daily intertie and load files (days 22 to the end
    of the month). The run date, which the scripts read from the clock, is a parameter. */
module FilenameHelper {
  import opened Wrappers
  import opened Decimal
  import opened Calendar

  datatype YearMonth = YearMonth(year: int, month: int)

  /** The month of today.replace(day=1) - timedelta(days=1): the last day of the reporting
      month is the day before the first day of today's month. */
  function ReportingMonth(today: Date): (ym: YearMonth)
    requires ValidDate(today)
    ensures 1 <= ym.month <= 12
    ensures (today.year > 1 || today.month > 1) ==>
      var last := Date(ym.year, ym.month, DaysInMonth(ym.year, ym.month));
      ValidDate(last) && Ordinal(last) + 1 == Ordinal(Date(today.year, today.month, 1))
  {
    MonthBoundary(today.year, today.month);
    if today.month == 1 then YearMonth(today.year - 1, 12) else YearMonth(today.year, today.month - 1)
  }

  /** Run dates whose reporting month '%Y' prints with four digits. */
  predicate InWindowRange(today: Date)
  {
    ValidDate(today) && ReportingMonth(today).year >= 1000
  }

  /** get_last_month(): the reporting month as a YYYYMM token (strftime('%Y%m')). */
  function LastMonth(today: Date): (token: string)
    requires InWindowRange(today)
    ensures |token| == 6 && AllDigits(token)
    ensures ParseNat(token[..4]) == Some(ReportingMonth(today).year)
    ensures ParseNat(token[4..]) == Some(ReportingMonth(today).month)
  {
    var ym := ReportingMonth(today);
    FourDigitCount(ym.year);
    var token := DecimalString(ym.year) + TwoDigits(ym.month);
    assert token[..4] == DecimalString(ym.year);
    assert token[4..] == TwoDigits(ym.month);
    token
  }

  const MonthlyPrefix: string := "PUB_GenOutputCapabilityMonth_"

  /** get_output_file_name(): the monthly capability file of the reporting month. */
  function OutputFileName(today: Date): (name: string)
    requires InWindowRange(today)
    ensures |name| == 39 && name[..29] == MonthlyPrefix && name[35..] == ".csv"
    ensures ParseNat(name[29..33]) == Some(ReportingMonth(today).year)
    ensures ParseNat(name[33..35]) == Some(ReportingMonth(today).month)
  {
    var token := LastMonth(today);
    var name := MonthlyPrefix + token + ".csv";
    assert |MonthlyPrefix| == 29;
    assert name[29..35] == token;
    assert name[29..33] == token[..4] && name[33..35] == token[4..];
    name
  }

  /** Any day of April 2024 reports on March 2024. */
  lemma LastMonthForApril2024(today: Date)
    requires today.year == 2024 && today.month == 4 && 1 <= today.day <= 30
    ensures InWindowRange(today) && LastMonth(today) == "202403"
  {
    assert ReportingMonth(today) == YearMonth(2024, 3);
    assert DecimalString(20) == "20";
    assert DecimalString(202) == "202";
    assert DecimalString(2024) == "2024";
    assert TwoDigits(3) == "03" by {
      assert DecimalString(3) == "3" && Zeros(1) == "0";
    }
  }

  lemma PrefixedName()
    ensures MonthlyPrefix + "202403" + ".csv" == "PUB_GenOutputCapabilityMonth_202403.csv"
  {
  }

  lemma OutputFileNameForMarch2024(today: Date)
    requires today.year == 2024 && today.month == 4 && 1 <= today.day <= 30
    ensures OutputFileName(today) == "PUB_GenOutputCapabilityMonth_202403.csv"
  {
    LastMonthForApril2024(today);
    assert OutputFileName(today) == MonthlyPrefix + LastMonth(today) + ".csv";
    PrefixedName();
  }

  function IntertieFileName(token: string): string
  {
    "PUB_IntertieScheduleFlow_" + token + ".xml"
  }

  function LoadFileName(token: string): string
  {
    "PUB_DAConstTotals_" + token + ".xml"
  }

  /** The first day of the month for which daily files are pulled. */
  const FirstDailyDay: nat := 22

  /** get_daily_data_file_names(): for each day from 22 to the last day of the reporting
      month, one intertie and one load file name, in day order, and the year and month
      tokens that name the window's output file. */
  method DailyDataFileNames(today: Date)
    returns (intertieNames: seq<string>, loadNames: seq<string>, year: string, month: string)
    requires InWindowRange(today)
    ensures year + month == LastMonth(today) && |year| == 4 && |month| == 2
    ensures ParseNat(year) == Some(ReportingMonth(today).year)
    ensures ParseNat(month) == Some(ReportingMonth(today).month)
    ensures |intertieNames| == |loadNames|
            == DaysInMonth(ReportingMonth(today).year, ReportingMonth(today).month) - FirstDailyDay + 1
    ensures forall i :: 0 <= i < |intertieNames| ==>
              intertieNames[i] == IntertieFileName(year + month + TwoDigits(FirstDailyDay + i)) &&
              loadNames[i] == LoadFileName(year + month + TwoDigits(FirstDailyDay + i))
  {
    var lastMonth := LastMonth(today);
    year := lastMonth[..4];
    month := lastMonth[|lastMonth| - 2..];
    assert year + month == lastMonth;
    var daysInMonth := DaysInMonth(ParseNat(year).value, ParseNat(month).value);
    intertieNames := [];
    loadNames := [];
    var day := FirstDailyDay;
    while day < daysInMonth + 1
      invariant FirstDailyDay <= day <= daysInMonth + 1
      invariant |intertieNames| == |loadNames| == day - FirstDailyDay
      invariant forall i :: 0 <= i < |intertieNames| ==>
                  intertieNames[i] == IntertieFileName(year + month + TwoDigits(FirstDailyDay + i)) &&
                  loadNames[i] == LoadFileName(year + month + TwoDigits(FirstDailyDay + i))
    {
      var token := year + month + TwoDigits(day);
      assert token == year + month + TwoDigits(FirstDailyDay + |intertieNames|);
      intertieNames := intertieNames + [IntertieFileName(token)];
      loadNames := loadNames + [LoadFileName(token)];
      day := day + 1;
    }
  }

  /** Both file name prefixes are free of digits, so the eight-digit search on a daily
      file name finds the token it was built from. */
  lemma NameToken(token: string)
    requires |token| == 8 && AllDigits(token)
    ensures FirstEightDigitRun(IntertieFileName(token)) == Some(token)
    ensures FirstEightDigitRun(LoadFileName(token)) == Some(token)
  {
    var intertiePrefix := "PUB_IntertieScheduleFlow_";
    var loadPrefix := "PUB_DAConstTotals_";
    assert NoDigits(intertiePrefix);
    assert NoDigits(loadPrefix);
    FirstEightDigitRunAfter(intertiePrefix, token, ".xml");
    FirstEightDigitRunAfter(loadPrefix, token, ".xml");
  }

  /** The token for day index i is the YYYYMMDD form of day 22 + i of the reporting month. */
  lemma DayToken(today: Date, year: string, month: string, i: nat)
    requires InWindowRange(today)
    requires year + month == LastMonth(today) && |year| == 4
    requires i < DaysInMonth(ReportingMonth(today).year, ReportingMonth(today).month) - FirstDailyDay + 1
    ensures var ym := ReportingMonth(today);
      var day := Date(ym.year, ym.month, FirstDailyDay + i);
      ValidDate(day) && ym.year >= 1000 && year + month + TwoDigits(FirstDailyDay + i) == CompactDate(day)
  {
    var ym := ReportingMonth(today);
    FourDigitCount(ym.year);
    var lastMonth := DecimalString(ym.year) + TwoDigits(ym.month);
    assert year == lastMonth[..4] && month == lastMonth[4..];
  }

  /** The YYYYMMDD token the names for day index i carry is the date of day 22 + i of the
      reporting month: both names of the pair yield it to the eight-digit search, and it
      parses back to that date. */
  lemma DailyNameDate(today: Date, year: string, month: string, i: nat)
    requires InWindowRange(today)
    requires year + month == LastMonth(today) && |year| == 4
    requires i < DaysInMonth(ReportingMonth(today).year, ReportingMonth(today).month) - FirstDailyDay + 1
    ensures var ym := ReportingMonth(today);
      var day := Date(ym.year, ym.month, FirstDailyDay + i);
      var token := year + month + TwoDigits(FirstDailyDay + i);
      ValidDate(day) && token == CompactDate(day)
      && FirstEightDigitRun(IntertieFileName(token)) == Some(token)
      && FirstEightDigitRun(LoadFileName(token)) == Some(token)
      && ParseCompactDate(token) == Some(day)
  {
    var ym := ReportingMonth(today);
    var day := Date(ym.year, ym.month, FirstDailyDay + i);
    DayToken(today, year, month, i);
    CompactDateRoundTrip(day);
    NameToken(CompactDate(day));
  }
}

/** The calendar dates of an analysis task: LocalDate.parse with the
    pattern formatter "yyyy-MM-dd" (java.time's default SMART resolver) and
    the inverse LocalDate.format with the same pattern. The request record
    only checks the shape dddd-dd-dd; calendar validity is decided here. */
module TaskDates {
  import opened Wrappers
  import opened DecimalDigits
  import opened CreateTaskRequestValidation

  /** A date of the proleptic Gregorian calendar. */
  datatype LocalDate = LocalDate(year: int, month: int, day: int)

  predicate IsLeap(year: int) {
    year % 4 == 0 && (year % 100 != 0 || year % 400 == 0)
  }

  /** Number of days in a month (Month.length). */
  function MonthLength(year: int, month: int): int {
    if month == 2 then (if IsLeap(year) then 29 else 28)
    else if month == 4 || month == 6 || month == 9 || month == 11 then 30
    else 31
  }

  /** A month has 28 to 31 days; February has 29 exactly in a leap year. */
  lemma MonthLengthRange(year: int, month: int)
    ensures 28 <= MonthLength(year, month) <= 31
    ensures month == 2 ==> (MonthLength(year, month) == 29 <==> IsLeap(year))
  {
  }

  /** A real calendar date whose year the four-digit pattern writes. */
  predicate IsCalendarDate(d: LocalDate) {
    && 1 <= d.year <= 9999
    && 1 <= d.month <= 12
    && 1 <= d.day <= MonthLength(d.year, d.month)
  }

  /** The dates a task can hold. */
  type CalendarDate = d: LocalDate | IsCalendarDate(d) witness LocalDate(1970, 1, 1)

  /** The number written in the year, month and day positions. */
  function WrittenYear(s: string): (n: nat)
    requires MatchesDatePattern(s)
    ensures n < 10000
  {
    MatchingDateIsFormatted(s);
    ValuePadded(s[..4]);
    assert Pow10(4) == 10000;
    DigitsValue(s[..4])
  }

  function WrittenMonth(s: string): nat
    requires MatchesDatePattern(s)
  {
    MatchingDateIsFormatted(s); DigitsValue(s[5..7])
  }

  function WrittenDay(s: string): nat
    requires MatchesDatePattern(s)
  {
    MatchingDateIsFormatted(s); DigitsValue(s[8..])
  }

  /** LocalDate.parse of a string of the request's shape. The year of era
      must be at least 1, the month 1..12 and the day 1..31, otherwise the
      parse throws (None); a day past the end of its month is moved back to
      the month's last day. */
  function ParseDate(s: string): (r: Option<LocalDate>)
    requires MatchesDatePattern(s)
    ensures r.Some? ==> IsCalendarDate(r.value)
    ensures r.Some? ==> r.value.year == WrittenYear(s) && r.value.month == WrittenMonth(s)
    ensures r.Some? ==> r.value.day <= WrittenDay(s)
  {
    var year, month, day := WrittenYear(s), WrittenMonth(s), WrittenDay(s);
    if year < 1 || month < 1 || 12 < month || day < 1 || 31 < day then None
    else if day <= MonthLength(year, month) then Some(LocalDate(year, month, day))
    else Some(LocalDate(year, month, MonthLength(year, month)))
  }

  /** LocalDate.format with the pattern: four-digit year, two-digit month
      and day. */
  function Format(d: LocalDate): (s: string)
    requires IsCalendarDate(d)
    ensures MatchesDatePattern(s)
    ensures WrittenYear(s) == d.year && WrittenMonth(s) == d.month && WrittenDay(s) == d.day
  {
    FormattedDateMatches(d.year, d.month, d.day);
    FormatDate(d.year, d.month, d.day)
  }

  /** Formatting a date and parsing the text gives the date back. */
  lemma ParseFormat(d: LocalDate)
    requires IsCalendarDate(d)
    ensures ParseDate(Format(d)) == Some(d)
  {
  }

  /** Parsing is exact except for clamping: a parsed date formats back to
      the text it came from exactly when the written day lies within its
      month. */
  lemma {:induction false} FormatParse(s: string)
    requires MatchesDatePattern(s) && ParseDate(s).Some?
    ensures Format(ParseDate(s).value) == s <==> WrittenDay(s) <= MonthLength(WrittenYear(s), WrittenMonth(s))
  {
    var d := ParseDate(s).value;
    MatchingDateIsFormatted(s);
    if WrittenDay(s) <= MonthLength(WrittenYear(s), WrittenMonth(s)) {
      assert d == LocalDate(WrittenYear(s), WrittenMonth(s), WrittenDay(s));
    } else {
      assert WrittenDay(Format(d)) != WrittenDay(s);
    }
  }

  /** The SMART resolver moves 30 February back to 29 February in a leap
      year... */
  lemma LeapYearClamping()
    ensures ParseDate("2024-02-30") == Some(LocalDate(2024, 2, 29))
  {
    Literal(2024, 2, 30, "2024-02-30");
  }

  /** ...and 29 February back to 28 February in a common year. */
  lemma CommonYearClamping()
    ensures ParseDate("2023-02-29") == Some(LocalDate(2023, 2, 28))
  {
    Literal(2023, 2, 29, "2023-02-29");
  }

  /** A century is a leap year only when divisible by 400. */
  lemma CenturyIsCommonYear()
    ensures ParseDate("1900-02-29") == Some(LocalDate(1900, 2, 28))
  {
    Literal(1900, 2, 29, "1900-02-29");
  }

  lemma FourHundredthYearIsLeap()
    ensures ParseDate("2000-02-29") == Some(LocalDate(2000, 2, 29))
  {
    Literal(2000, 2, 29, "2000-02-29");
  }

  /** A thirty-day month clamps day 31 to 30. */
  lemma ThirtyDayMonthClamping()
    ensures ParseDate("2024-04-31") == Some(LocalDate(2024, 4, 30))
  {
    Literal(2024, 4, 31, "2024-04-31");
  }

  /** A thirteenth month, a day 32 and the year 0 are rejected although the
      request's shape check lets each of them through. */
  lemma MonthThirteenRejected()
    ensures ParseDate("2024-13-01") == None
  {
    Literal(2024, 13, 1, "2024-13-01");
  }

  lemma DayThirtyTwoRejected()
    ensures ParseDate("2024-01-32") == None
  {
    Literal(2024, 1, 32, "2024-01-32");
  }

  lemma YearZeroRejected()
    ensures ParseDate("0000-01-01") == None
  {
    Literal(0, 1, 1, "0000-01-01");
  }

  /** Parsing a literal date text, given the numbers its fields spell. */
  lemma Literal(year: nat, month: nat, day: nat, s: string)
    requires year < 10000 && month < 100 && day < 100
    requires s == [Digit(year / 1000 % 10), Digit(year / 100 % 10), Digit(year / 10 % 10), Digit(year % 10), '-',
                   Digit(month / 10 % 10), Digit(month % 10), '-', Digit(day / 10 % 10), Digit(day % 10)]
    ensures MatchesDatePattern(s)
    ensures ParseDate(s) == if year < 1 || month < 1 || 12 < month || day < 1 || 31 < day then None
      else if day <= MonthLength(year, month) then Some(LocalDate(year, month, day))
      else Some(LocalDate(year, month, MonthLength(year, month)))
  {
    PaddedFour(year); PaddedTwo(month); PaddedTwo(day);
    assert s == FormatDate(year, month, day);
    FormattedDateMatches(year, month, day);
  }

  lemma PaddedFour(n: nat)
    ensures Padded(n, 4) == [Digit(n / 1000 % 10), Digit(n / 100 % 10), Digit(n / 10 % 10), Digit(n % 10)]
  {
    assert n / 10 / 10 == n / 100;
    assert n / 100 / 10 == n / 1000;
  }

  lemma PaddedTwo(n: nat)
    ensures Padded(n, 2) == [Digit(n / 10 % 10), Digit(n % 10)]
  {
  }
}

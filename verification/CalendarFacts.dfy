/** Facts anyone can look up, which tie the day numbers, the months and the weeks of the model to the calendar. */
module CalendarFacts {
  import opened Wrappers
  import opened Calendar
  import opened Recurrence

  /** 1 January 1970 is day 0, a Thursday; 8 March 2026 a Sunday, 20,520 days later. */
  lemma KnownDays()
    ensures DayNumber(1970, 1, 1) == 0 && Weekday(DayNumber(1970, 1, 1)) == 3
    ensures DayNumber(2026, 3, 8) == 20_520 && Weekday(DayNumber(2026, 3, 8)) == 6
  {
    assert DaysBeforeYear(1970) == 0 && DaysBeforeMonth(1970, 1) == 0;
    assert DaysBeforeYear(2026) == 20_454 && DaysBeforeMonth(2026, 3) == 59;
    hide DaysBeforeYear, DaysBeforeMonth;
  }

  /** Date.UTC takes the years 0 to 99 for those of the last century. */
  lemma TwoDigitYears(y: int, month: int, day: int)
    requires 0 <= y <= 99 && 0 <= month <= 11
    ensures UtcDay(y, month, day) == DayNumber(1900 + y, month + 1, day)
  {
    hide DaysBeforeYear, DaysBeforeMonth;
  }

  /** Century years are leap years only every fourth time. */
  lemma KnownFebruaries()
    ensures MonthLength(2023, 2) == 28 && MonthLength(2024, 2) == 29
    ensures MonthLength(1900, 2) == 28 && MonthLength(2000, 2) == 29 && MonthLength(2100, 2) == 28
  {
  }

  /** Thirty days hath September, April, June and November. */
  lemma KnownMonths(y: int, m: int)
    requires 1 <= m <= 12 && m != 2
    ensures MonthLength(y, m) == if m in {4, 6, 9, 11} then 30 else 31
  {
  }

  /** Four hundred years are 146,097 days, a whole number of weeks. */
  lemma FourCenturies(y: int)
    ensures DaysBeforeYear(y + 400) == DaysBeforeYear(y) + 146_097 && 146_097 % 7 == 0
  {
    FoursShift(y);
    CenturiesShift(y);
    FourHundredsShift(y);
    var fours, centuries, fourHundreds := (y - 1969) / 4, (y - 1901) / 100, (y - 1601) / 400;
    assert DaysBeforeYear(y) == 365 * (y - 1970) + fours - centuries + fourHundreds;
    assert DaysBeforeYear(y + 400) == 365 * (y - 1570) + (fours + 100) - (centuries + 4) + (fourHundreds + 1);
  }

  lemma FoursShift(y: int)
    ensures (y + 400 - 1969) / 4 == (y - 1969) / 4 + 100
  {
    QuotientShifts(y - 1969, 4, 100);
  }

  lemma CenturiesShift(y: int)
    ensures (y + 400 - 1901) / 100 == (y - 1901) / 100 + 4
  {
    QuotientShifts(y - 1901, 100, 4);
  }

  lemma FourHundredsShift(y: int)
    ensures (y + 400 - 1601) / 400 == (y - 1601) / 400 + 1
  {
    QuotientShifts(y - 1601, 400, 1);
  }

  lemma Distributes(k: int, q: int, n: int)
    ensures k * (q + n) == k * q + k * n
  {
  }

  lemma QuotientShifts(a: int, k: int, n: int)
    requires k > 0
    ensures (a + k * n) / k == a / k + n
  {
    Distributes(k, a / k, n);
    assert a == k * (a / k) + a % k;
    QuotientUnique(a + k * n, k, a / k + n, a % k);
  }

  /** Weekdays follow each other, Monday after Sunday. */
  lemma WeekdaysFollow(n: int)
    ensures 0 <= Weekday(n) <= 6 && Weekday(n + 1) == if Weekday(n) == 6 then 0 else Weekday(n) + 1
  {
  }

  /** The Monday of the week a day is in. */
  function Monday(n: int): int {
    n - Weekday(n)
  }

  /** Weeks begin on Monday: a date is so many weeks after the first one as its Monday is after the first one's. */
  lemma WeeksBeginOnMonday(base: Civil, c: Civil)
    requires 1 <= base.month <= 12 && 1 <= c.month <= 12
    ensures Monday(Number(c)) == Monday(Number(base)) + 7 * Period(Weekly, base, c)
  {
    hide DayNumber;
    MondayIsWeek(Number(c));
    MondayIsWeek(Number(base));
  }

  lemma MondayIsWeek(n: int)
    ensures Monday(n) == 7 * ((n + 3) / 7) - 3
  {
  }
}

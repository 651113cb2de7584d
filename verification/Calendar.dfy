/** The proleptic Gregorian calendar, as Date.UTC and the getUTC accessors compute it.
    Days are counted from 1 January 1970; instants are milliseconds from its midnight. */
module Calendar {
  const DAY_MS := 86_400_000

  datatype Civil = Civil(year: int, month: int, day: int)

  datatype WallClock = WallClock(year: int, month: int, day: int, hour: int, minute: int, second: int)

  predicate Leap(y: int) {
    y % 4 == 0 && (y % 100 != 0 || y % 400 == 0)
  }

  function YearLength(y: int): int {
    if Leap(y) then 366 else 365
  }

  function MonthLength(y: int, m: int): int {
    if m == 2 then (if Leap(y) then 29 else 28)
    else if m == 4 || m == 6 || m == 9 || m == 11 then 30
    else 31
  }

  predicate ValidCivil(c: Civil) {
    1 <= c.month <= 12 && 1 <= c.day <= MonthLength(c.year, c.month)
  }

  /** Days from 1 January 1970 to 1 January of year y. */
  function DaysBeforeYear(y: int): int {
    365 * (y - 1970) + (y - 1969) / 4 - (y - 1901) / 100 + (y - 1601) / 400
  }

  /** Days of year y that lie before month m; m == 13 gives the whole year. */
  function DaysBeforeMonth(y: int, m: int): int
    requires 1 <= m <= 13
  {
    (if m == 1 then 0 else if m == 2 then 31 else if m == 3 then 59 else if m == 4 then 90
     else if m == 5 then 120 else if m == 6 then 151 else if m == 7 then 181 else if m == 8 then 212
     else if m == 9 then 243 else if m == 10 then 273 else if m == 11 then 304 else if m == 12 then 334
     else 365) + if m > 2 && Leap(y) then 1 else 0
  }

  function DayNumber(y: int, m: int, d: int): int
    requires 1 <= m <= 12
  {
    DaysBeforeYear(y) + DaysBeforeMonth(y, m) + d - 1
  }

  lemma QuotientStep(a: int, k: int)
    requires k > 1
    ensures (a + 1) / k == a / k + if (a + 1) % k == 0 then 1 else 0
  {
    var q, r := a / k, a % k;
    assert a == k * q + r;
    if r + 1 == k {
      assert a + 1 == k * (q + 1);
      QuotientUnique(a + 1, k, q + 1, 0);
    } else {
      QuotientUnique(a + 1, k, q, r + 1);
    }
  }

  lemma QuotientUnique(a: int, k: int, q: int, r: int)
    requires k > 0 && a == k * q + r && 0 <= r < k
    ensures a / k == q && a % k == r
  {
    var d := a / k - q;
    assert k * d == r - a % k;
    assert -k < k * d < k;
    assert d < 1 by { if d >= 1 { MulAtLeast(k, d); } }
    assert -d < 1 by { if -d >= 1 { MulAtLeast(k, -d); } }
  }

  lemma MulAtLeast(k: int, d: int)
    requires k > 0 && d >= 1
    ensures k * d >= k
  {
  }

  lemma YearStep(y: int)
    ensures DaysBeforeYear(y + 1) == DaysBeforeYear(y) + YearLength(y)
  {
    QuotientStep(y - 1969, 4);
    QuotientStep(y - 1901, 100);
    QuotientStep(y - 1601, 400);
    LeapShift(y);
  }

  lemma LeapShift(y: int)
    ensures (y - 1968) % 4 == y % 4 && (y - 1900) % 100 == y % 100 && (y - 1600) % 400 == y % 400
    ensures y % 400 == 0 ==> y % 100 == 0
    ensures y % 100 == 0 ==> y % 4 == 0
  {
    QuotientUnique(y - 1968, 4, y / 4 - 492, y % 4);
    QuotientUnique(y - 1900, 100, y / 100 - 19, y % 100);
    QuotientUnique(y - 1600, 400, y / 400 - 4, y % 400);
    if y % 400 == 0 { QuotientUnique(y, 100, 4 * (y / 400), 0); }
    if y % 100 == 0 { QuotientUnique(y, 4, 25 * (y / 100), 0); }
  }

  lemma {:induction false} YearsIncrease(y: int, y': int)
    requires y <= y'
    ensures DaysBeforeYear(y) + 365 * (y' - y) <= DaysBeforeYear(y')
    decreases y' - y
  {
    if y < y' {
      YearsIncrease(y, y' - 1);
      YearStep(y' - 1);
    }
  }

  /** The year a day falls in, searched upwards from a year that starts no later. */
  function YearFrom(n: int, y: int): (r: int)
    requires DaysBeforeYear(y) <= n
    ensures DaysBeforeYear(r) <= n < DaysBeforeYear(r + 1)
    decreases n - DaysBeforeYear(y)
  {
    YearStep(y);
    if n < DaysBeforeYear(y + 1) then y else YearFrom(n, y + 1)
  }

  function YearOf(n: int): (r: int)
    ensures DaysBeforeYear(r) <= n < DaysBeforeYear(r + 1)
  {
    YearFrom(n, if n >= 0 then 1970 + n / 366 else 1970 + n / 365)
  }

  function MonthFrom(y: int, rest: int, m: int): (r: int)
    requires 1 <= m <= 12 && DaysBeforeMonth(y, m) <= rest < YearLength(y)
    ensures 1 <= r <= 12 && DaysBeforeMonth(y, r) <= rest < DaysBeforeMonth(y, r + 1)
    decreases 12 - m
  {
    if rest < DaysBeforeMonth(y, m + 1) then m else MonthFrom(y, rest, m + 1)
  }

  lemma MonthStep(y: int, m: int)
    requires 1 <= m <= 12
    ensures DaysBeforeMonth(y, m + 1) == DaysBeforeMonth(y, m) + MonthLength(y, m)
    ensures DaysBeforeMonth(y, 1) == 0 && DaysBeforeMonth(y, 13) == YearLength(y)
  {
    hide Leap;
  }

  lemma {:induction false} MonthsIncrease(y: int, m: int, m': int)
    requires 1 <= m < m' <= 13
    ensures DaysBeforeMonth(y, m) + MonthLength(y, m) <= DaysBeforeMonth(y, m')
    decreases m' - m
  {
    MonthStep(y, m' - 1);
    MonthLengthPositive(y, m' - 1);
    hide DaysBeforeMonth, MonthLength;
    if m < m' - 1 {
      MonthsIncrease(y, m, m' - 1);
    }
  }

  lemma MonthLengthPositive(y: int, m: int)
    ensures MonthLength(y, m) >= 28
  {
    hide Leap;
  }

  /** The date so many days into year y. */
  function CivilIn(y: int, rest: int): (c: Civil)
    requires 0 <= rest < YearLength(y)
    ensures c.year == y && ValidCivil(c) && DaysBeforeMonth(y, c.month) + c.day - 1 == rest
  {
    MonthStep(y, 1);
    var m := MonthFrom(y, rest, 1);
    MonthStep(y, m);
    Civil(y, m, rest - DaysBeforeMonth(y, m) + 1)
  }

  function CivilOf(n: int): (c: Civil)
    ensures ValidCivil(c) && DayNumber(c.year, c.month, c.day) == n
  {
    var y := YearOf(n);
    YearStep(y);
    CivilIn(y, n - DaysBeforeYear(y))
  }

  /** The number of days in the year before the date. */
  function DayOfYear(c: Civil): int
    requires 1 <= c.month <= 12
  {
    DaysBeforeMonth(c.year, c.month) + c.day - 1
  }

  lemma DayOfYearBounds(c: Civil)
    requires ValidCivil(c)
    ensures 0 <= DayOfYear(c) < YearLength(c.year)
  {
    MonthStep(c.year, 1);
    MonthsIncrease(c.year, c.month, 13);
    if c.month > 1 {
      MonthsIncrease(c.year, 1, c.month);
      MonthLengthPositive(c.year, 1);
    }
    hide DaysBeforeMonth, MonthLength, YearLength;
  }

  /** Within a year the days follow the months. */
  lemma DayOfYearIncreases(a: Civil, b: Civil)
    requires ValidCivil(a) && ValidCivil(b) && a.year == b.year
    ensures DayOfYear(a) < DayOfYear(b) <==> a.month < b.month || (a.month == b.month && a.day < b.day)
  {
    if a.month < b.month { MonthsIncrease(a.year, a.month, b.month); }
    if b.month < a.month { MonthsIncrease(a.year, b.month, a.month); }
    hide DaysBeforeMonth, MonthLength;
  }

  /** Day numbers order dates the way the calendar does. */
  lemma DayNumberIncreases(a: Civil, b: Civil)
    requires ValidCivil(a) && ValidCivil(b)
    ensures DayNumber(a.year, a.month, a.day) < DayNumber(b.year, b.month, b.day) <==>
            a.year < b.year || (a.year == b.year && (a.month < b.month || (a.month == b.month && a.day < b.day)))
  {
    DayOfYearBounds(a);
    DayOfYearBounds(b);
    assert DayNumber(a.year, a.month, a.day) == DaysBeforeYear(a.year) + DayOfYear(a);
    assert DayNumber(b.year, b.month, b.day) == DaysBeforeYear(b.year) + DayOfYear(b);
    hide DaysBeforeYear, DaysBeforeMonth, DayNumber, YearLength, MonthLength, DayOfYear;
    if a.year == b.year {
      DayOfYearIncreases(a, b);
    } else {
      YearsApart(a.year, b.year);
      YearsApart(b.year, a.year);
    }
  }

  lemma YearsApart(y: int, y': int)
    ensures y < y' ==> DaysBeforeYear(y) + YearLength(y) <= DaysBeforeYear(y')
  {
    hide DaysBeforeYear, YearLength;
    if y < y' {
      YearStep(y);
      YearsIncrease(y + 1, y');
    }
  }

  /** The getUTC accessors undo Date.UTC on every real date. */
  lemma CivilRoundTrip(c: Civil)
    requires ValidCivil(c)
    ensures CivilOf(DayNumber(c.year, c.month, c.day)) == c
  {
    var d := CivilOf(DayNumber(c.year, c.month, c.day));
    DayNumberIncreases(c, d);
    DayNumberIncreases(d, c);
  }

  // -------------------------------------------------------------------------
  // Date.UTC
  // -------------------------------------------------------------------------

  /** Date.UTC reads the years 0 to 99 as 1900 to 1999. */
  function FullYear(y: int): int {
    if 0 <= y <= 99 then 1900 + y else y
  }

  /** The day of Date.UTC(y, month0, d): months count from 0 and overflow into years. */
  function UtcDay(y: int, month0: int, d: int): int {
    DayNumber(FullYear(y) + month0 / 12, month0 % 12 + 1, d)
  }

  function DateUtc(w: WallClock): int {
    UtcDay(w.year, w.month - 1, w.day) * DAY_MS + w.hour * 3_600_000 + w.minute * 60_000 + w.second * 1000
  }

  /** The wall clock that reads `t` milliseconds; the sub-second part is dropped. */
  function ClockAt(t: int): (w: WallClock)
    ensures 1 <= w.month <= 12 && 1 <= w.day <= MonthLength(w.year, w.month)
    ensures 0 <= w.hour < 24 && 0 <= w.minute < 60 && 0 <= w.second < 60
  {
    var c := CivilOf(t / DAY_MS);
    var s := t % DAY_MS / 1000;
    WallClock(c.year, c.month, c.day, s / 3600, s / 60 % 60, s % 60)
  }

  /** The first day whose year Date.UTC does not re-read: 1 January 100. */
  const FIRST_DAY := -683_003

  lemma FirstDayIsYear100()
    ensures DayNumber(100, 1, 1) == FIRST_DAY
  {
  }

  lemma YearFromFirstDay(n: int)
    ensures n >= FIRST_DAY <==> CivilOf(n).year >= 100
  {
    var c := CivilOf(n);
    DayNumberIncreases(c, Civil(100, 1, 1));
  }

  lemma UtcDayOfCivil(n: int)
    requires n >= FIRST_DAY
    ensures var c := CivilOf(n); UtcDay(c.year, c.month - 1, c.day) == n
  {
    YearFromFirstDay(n);
    hide CivilOf, DaysBeforeYear, DaysBeforeMonth;
    var c := CivilOf(n);
    assert (c.month - 1) / 12 == 0 && (c.month - 1) % 12 == c.month - 1;
  }

  /** Reading the clock and passing it to Date.UTC gives back the whole second. */
  lemma ClockRoundTrip(t: int)
    requires t >= FIRST_DAY * DAY_MS
    ensures DateUtc(ClockAt(t)) == t - t % 1000
  {
    UtcDayOfCivil(t / DAY_MS);
    var r := t % DAY_MS;
    var s, ms := r / 1000, r % 1000;
    var h, mi, sec := s / 60 / 60, s / 60 % 60, s % 60;
    QuotientUnique(t, 1000, t / DAY_MS * 86_400 + s, ms);
    QuotientUnique(s, 3600, h, mi * 60 + sec);
  }

  // -------------------------------------------------------------------------
  // The helpers of the recurrence module
  // -------------------------------------------------------------------------

  /** 0 is Monday. */
  function DayOfWeek(y: int, m: int, d: int): int {
    ((UtcDay(y, m - 1, d) + 4) % 7 + 6) % 7
  }

  function AddDays(y: int, m: int, d: int, n: int): Civil {
    CivilOf(UtcDay(y, m - 1, d + n))
  }

  function DaysInMonth(y: int, m: int): int {
    CivilOf(UtcDay(y, m, 0)).day
  }

  /** Adding days counts on from the given date, whose two-digit year Date.UTC has re-read. */
  lemma AddDaysAdds(y: int, m: int, d: int, n: int)
    requires 1 <= m <= 12
    ensures var c := AddDays(y, m, d, n);
            ValidCivil(c) && DayNumber(c.year, c.month, c.day) == DayNumber(FullYear(y), m, d) + n
  {
    assert (m - 1) / 12 == 0 && (m - 1) % 12 == m - 1;
    hide CivilOf, DaysBeforeYear, DaysBeforeMonth;
  }

  /** Asking for day 0 of the next month gives the length of this one, in the year Date.UTC reads. */
  lemma DaysInMonthIsLength(y: int, m: int)
    requires 1 <= m <= 12
    ensures DaysInMonth(y, m) == MonthLength(FullYear(y), m)
  {
    LastDayOfMonth(y, m);
    hide DayNumber, UtcDay, MonthLength;
    CivilRoundTrip(Civil(FullYear(y), m, MonthLength(FullYear(y), m)));
  }

  lemma LastDayOfMonth(y: int, m: int)
    requires 1 <= m <= 12
    ensures UtcDay(y, m, 0) == DayNumber(FullYear(y), m, MonthLength(FullYear(y), m))
    ensures ValidCivil(Civil(FullYear(y), m, MonthLength(FullYear(y), m)))
  {
    if m == 12 {
      YearStep(FullYear(y));
    } else {
      assert m / 12 == 0 && m % 12 == m;
      assert DaysBeforeMonth(FullYear(y), m + 1) == DaysBeforeMonth(FullYear(y), m) + MonthLength(FullYear(y), m);
    }
  }
}

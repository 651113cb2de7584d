/** Recurring events: a series is stored once and expanded inside the window being viewed. */
module Recurrence {
  import opened Wrappers
  import opened Calendar
  import opened Zone

  datatype Frequency = Daily | Weekly | Monthly | Yearly

  /** byDay holds weekday numbers, 0 for Monday; until is an instant. */
  datatype Rule = Rule(freq: Frequency, interval: int, count: Option<int>, until: Option<int>, byDay: Option<seq<int>>)

  const MAX_COUNT := 1000
  const MAX_STEPS := 50_000

  ghost predicate Increasing(s: seq<int>) {
    forall i, j :: 0 <= i < j < |s| ==> s[i] < s[j]
  }

  ghost predicate ValidDays(days: seq<int>) {
    days != [] && Increasing(days) && forall i :: 0 <= i < |days| ==> 0 <= days[i] < 7
  }

  /** What parsing guarantees of a rule. */
  ghost predicate ValidRule(r: Rule) {
    && 1 <= r.interval <= 366
    && (r.count.Some? ==> 1 <= r.count.value <= MAX_COUNT && r.until.None?)
    && (r.byDay.Some? ==> r.freq == Weekly && ValidDays(r.byDay.value))
  }

  datatype Series = Series(startsAt: int, endsAt: int, zone: Offset, rule: Option<Rule>)

  datatype Occurrence = Occurrence(start: int, end: int)

  datatype Window = Window(from: int, to: int)

  // -------------------------------------------------------------------------
  // The dates a rule names, by the definition of RFC 5545, section 3.3.10
  // -------------------------------------------------------------------------

  function Number(c: Civil): int
    requires 1 <= c.month <= 12
  {
    DayNumber(c.year, c.month, c.day)
  }

  /** 0 is Monday. */
  function Weekday(n: int): int {
    (n + 3) % 7
  }

  /** How many days, weeks, months or years date c lies after the first date. */
  function Period(f: Frequency, base: Civil, c: Civil): int
    requires 1 <= base.month <= 12 && 1 <= c.month <= 12
  {
    match f
    case Daily => Number(c) - Number(base)
    case Weekly => (Number(c) + 3) / 7 - (Number(base) + 3) / 7
    case Monthly => 12 * (c.year - base.year) + c.month - base.month
    case Yearly => c.year - base.year
  }

  predicate FitsPeriod(r: Rule, base: Civil, c: Civil)
    requires 1 <= base.month <= 12 && 1 <= c.month <= 12
  {
    match r.freq
    case Daily => true
    case Weekly => Weekday(Number(c)) in r.byDay.GetOr([Weekday(Number(base))])
    case Monthly => c.day == base.day
    case Yearly => c.month == base.month && c.day == base.day
  }

  /** c is a real date, in a period the interval does not skip, on a day the rule selects. */
  predicate Named(r: Rule, base: Civil, c: Civil)
    requires r.interval > 0 && 1 <= base.month <= 12
  {
    ValidCivil(c) && Period(r.freq, base, c) >= 0 && Period(r.freq, base, c) % r.interval == 0 && FitsPeriod(r, base, c)
  }

  // -------------------------------------------------------------------------
  // The dates the expansion loop tries
  // -------------------------------------------------------------------------

  function WeekDates(weekStart: Civil, days: seq<int>): seq<Civil> {
    if days == [] then []
    else [AddDays(weekStart.year, weekStart.month, weekStart.day, days[0])] + WeekDates(weekStart, days[1..])
  }

  function StepDates(r: Rule, base: Civil, step: int): seq<Civil> {
    match r.freq
    case Daily => [AddDays(base.year, base.month, base.day, step * r.interval)]
    case Weekly =>
      var startDow := DayOfWeek(base.year, base.month, base.day);
      var weekStart := AddDays(base.year, base.month, base.day, -startDow + step * 7 * r.interval);
      WeekDates(weekStart, r.byDay.GetOr([startDow]))
    case Monthly =>
      var monthIndex := base.month - 1 + step * r.interval;
      var y := base.year + monthIndex / 12;
      var m := monthIndex % 12 + 1;
      if base.day <= DaysInMonth(y, m) then [Civil(y, m, base.day)] else []
    case Yearly =>
      var y := base.year + step * r.interval;
      if base.day <= DaysInMonth(y, base.month) then [Civil(y, base.month, base.day)] else []
  }

  function DatesFrom(r: Rule, base: Civil, step: int, steps: int): seq<Civil>
    decreases steps - step
  {
    if step >= steps then [] else StepDates(r, base, step) + DatesFrom(r, base, step + 1, steps)
  }

  /** A first date the model's calendar reads without the two-digit-year rule, a week to spare. */
  predicate ModernBase(base: Civil) {
    ValidCivil(base) && base.year >= 100 && Number(base) >= FIRST_DAY + 11
  }

  /** A date is what AddDays returns exactly when its day number is the wanted one. */
  lemma AddDaysIs(b: Civil, n: int, c: Civil)
    requires 1 <= b.month <= 12 && b.year >= 100 && ValidCivil(c)
    ensures c == AddDays(b.year, b.month, b.day, n) <==> Number(c) == Number(b) + n
  {
    hide DayNumber, CivilOf, AddDays, MonthLength;
    AddDaysAdds(b.year, b.month, b.day, n);
    CivilRoundTrip(c);
    CivilRoundTrip(AddDays(b.year, b.month, b.day, n));
  }

  lemma AddDaysIsReal(b: Civil, n: int)
    requires 1 <= b.month <= 12 && b.year >= 100
    ensures ValidCivil(AddDays(b.year, b.month, b.day, n))
    ensures Number(AddDays(b.year, b.month, b.day, n)) == Number(b) + n
  {
    hide DayNumber, CivilOf, AddDays, MonthLength;
    AddDaysAdds(b.year, b.month, b.day, n);
  }

  lemma DowIsWeekday(c: Civil)
    requires 1 <= c.month <= 12 && c.year >= 100
    ensures DayOfWeek(c.year, c.month, c.day) == Weekday(Number(c))
  {
    hide DayNumber;
    var n := Number(c);
    assert (c.month - 1) / 12 == 0 && (c.month - 1) % 12 == c.month - 1;
    assert UtcDay(c.year, c.month - 1, c.day) == n;
    DowShift(n);
  }

  lemma DowShift(n: int)
    ensures ((n + 4) % 7 + 6) % 7 == (n + 3) % 7
  {
    var q, e := (n + 3) / 7, (n + 3) % 7;
    if e == 6 {
      QuotientUnique(n + 4, 7, q + 1, 0);
    } else {
      QuotientUnique(n + 4, 7, q, e + 1);
    }
  }

  lemma {:induction false} WeekDatesNames(ws: Civil, days: seq<int>, c: Civil)
    requires 1 <= ws.month <= 12 && ws.year >= 100
    ensures c in WeekDates(ws, days) <==> ValidCivil(c) && Number(c) - Number(ws) in days
  {
    hide Number, AddDays, MonthLength;
    if days != [] {
      AddDaysIsReal(ws, days[0]);
      if ValidCivil(c) {
        AddDaysIs(ws, days[0], c);
      }
      WeekDatesNames(ws, days[1..], c);
      assert days == [days[0]] + days[1..];
    }
  }

  /** The Monday the weekly step starts from, and the weekdays it uses. */
  lemma WeekStart(r: Rule, base: Civil, step: int) returns (ws: Civil, days: seq<int>)
    requires ValidRule(r) && ModernBase(base) && step >= 0 && r.freq == Weekly
    ensures 1 <= ws.month <= 12 && ws.year >= 100
    ensures Number(ws) + 3 == 7 * ((Number(base) + 3) / 7 + step * r.interval)
    ensures days == r.byDay.GetOr([Weekday(Number(base))]) && ValidDays(days)
    ensures StepDates(r, base, step) == WeekDates(ws, days)
  {
    hide DayNumber, AddDays, MonthLength, DayOfWeek, CivilOf;
    DowIsWeekday(base);
    var n, dow := Number(base), Weekday(Number(base));
    days := r.byDay.GetOr([dow]);
    var shift := -dow + step * 7 * r.interval;
    ws := AddDays(base.year, base.month, base.day, shift);
    AddDaysIsReal(base, shift);
    assert step * 7 * r.interval == 7 * (step * r.interval);
    assert step * r.interval >= 0;
    CivilRoundTrip(ws);
    YearFromFirstDay(Number(ws));
  }

  lemma WeekArithmetic(k: int, m: int, n: int)
    requires m + 3 == 7 * k
    ensures (n + 3) / 7 == k <==> 0 <= n - m < 7
    ensures (n + 3) / 7 == k ==> Weekday(n) == n - m
  {
    if 0 <= n - m < 7 {
      QuotientUnique(n + 3, 7, k, n - m);
    }
  }

  /** One step of the loop tries exactly the selected dates of one period. */
  lemma StepNames(r: Rule, base: Civil, step: int, c: Civil)
    requires ValidRule(r) && ModernBase(base) && step >= 0
    ensures c in StepDates(r, base, step) <==>
            ValidCivil(c) && Period(r.freq, base, c) == step * r.interval && FitsPeriod(r, base, c)
  {
    hide DayNumber, AddDays, MonthLength, DayOfWeek, CivilOf, DaysInMonth;
    match r.freq
    case Daily =>
      AddDaysIsReal(base, step * r.interval);
      if ValidCivil(c) { AddDaysIs(base, step * r.interval, c); }
    case Weekly =>
      var ws, days := WeekStart(r, base, step);
      WeekDatesNames(ws, days, c);
      if ValidCivil(c) {
        WeekArithmetic((Number(base) + 3) / 7 + step * r.interval, Number(ws), Number(c));
      }
    case Monthly =>
      MonthStepNames(r, base, step, c);
    case Yearly =>
      assert step * r.interval >= 0;
      DaysInMonthIsLength(base.year + step * r.interval, base.month);
  }

  lemma MonthStepNames(r: Rule, base: Civil, step: int, c: Civil)
    requires ValidRule(r) && ModernBase(base) && step >= 0 && r.freq == Monthly
    ensures c in StepDates(r, base, step) <==>
            ValidCivil(c) && Period(r.freq, base, c) == step * r.interval && FitsPeriod(r, base, c)
  {
    hide DayNumber, AddDays, MonthLength, DayOfWeek, CivilOf, DaysInMonth;
    var monthIndex := base.month - 1 + step * r.interval;
    var y, m := base.year + monthIndex / 12, monthIndex % 12 + 1;
    assert step * r.interval >= 0;
    DaysInMonthIsLength(y, m);
    if ValidCivil(c) && Period(r.freq, base, c) == step * r.interval {
      QuotientUnique(monthIndex, 12, c.year - base.year, c.month - 1);
    }
  }

  lemma {:induction false} MulMonotone(a: int, b: int, i: int)
    requires a <= b && i > 0
    ensures a * i <= b * i
    decreases b - a
  {
    if a < b {
      MulMonotone(a, b - 1, i);
    }
  }

  lemma MultiplesApart(i: int, a: int, b: int)
    requires i > 0
    ensures a < b ==> (a + 1) * i <= b * i
    ensures a >= b ==> a * i >= b * i
  {
    if a < b {
      MulMonotone(a + 1, b, i);
    } else {
      MulMonotone(b, a, i);
    }
  }

  /** The whole loop tries exactly the dates the rule names, up to the period where the steps run out. */
  lemma {:induction false} DatesNamed(r: Rule, base: Civil, step: int, steps: int, c: Civil)
    requires ValidRule(r) && ModernBase(base) && step >= 0
    ensures c in DatesFrom(r, base, step, steps) <==>
            Named(r, base, c) && step * r.interval <= Period(r.freq, base, c) < steps * r.interval
    decreases steps - step
  {
    hide StepDates, Period, FitsPeriod, MonthLength;
    MultiplesApart(r.interval, step, steps);
    if step < steps {
      StepNames(r, base, step, c);
      DatesNamed(r, base, step + 1, steps, c);
      if ValidCivil(c) {
        var p := Period(r.freq, base, c);
        assert step * r.interval >= 0;
        if p == step * r.interval {
          QuotientUnique(p, r.interval, step, 0);
        } else if step * r.interval <= p < (step + 1) * r.interval {
          assert (step + 1) * r.interval == step * r.interval + r.interval;
          QuotientUnique(p, r.interval, step, p - step * r.interval);
        }
      }
    }
  }

  /** Later periods lie on later days. */
  lemma PeriodsOrderDays(f: Frequency, base: Civil, a: Civil, b: Civil)
    requires ValidCivil(base) && ValidCivil(a) && ValidCivil(b)
    requires Period(f, base, a) < Period(f, base, b)
    ensures Number(a) < Number(b)
  {
    hide DayNumber;
    DayNumberIncreases(a, b);
  }

  lemma NotBeforeFirstWeek(r: Rule, base: Civil, c: Civil)
    requires ValidRule(r) && ValidCivil(base) && Named(r, base, c)
    ensures Number(c) >= Number(base) - 6
  {
    hide DayNumber;
    DayNumberIncreases(c, base);
  }

  ghost predicate Precedes(a: Civil, b: Civil) {
    ValidCivil(a) && ValidCivil(b) && Number(a) < Number(b)
  }

  ghost predicate OrderedDates(dates: seq<Civil>) {
    && (forall i :: 0 <= i < |dates| ==> ValidCivil(dates[i]))
    && (forall i, j :: 0 <= i < j < |dates| ==> Precedes(dates[i], dates[j]))
  }

  lemma {:induction false} WeekDatesFollowDays(ws: Civil, days: seq<int>)
    requires 1 <= ws.month <= 12 && ws.year >= 100
    ensures |WeekDates(ws, days)| == |days|
    ensures forall i :: 0 <= i < |days| ==>
              ValidCivil(WeekDates(ws, days)[i]) && Number(WeekDates(ws, days)[i]) == Number(ws) + days[i]
  {
    hide Number, AddDays, MonthLength;
    if days != [] {
      AddDaysIsReal(ws, days[0]);
      WeekDatesFollowDays(ws, days[1..]);
    }
  }

  lemma StepOrdered(r: Rule, base: Civil, step: int)
    requires ValidRule(r) && ModernBase(base) && step >= 0
    ensures OrderedDates(StepDates(r, base, step))
  {
    hide DayNumber, AddDays, MonthLength, DayOfWeek, CivilOf, DaysInMonth;
    forall i | 0 <= i < |StepDates(r, base, step)|
      ensures ValidCivil(StepDates(r, base, step)[i])
    {
      StepNames(r, base, step, StepDates(r, base, step)[i]);
    }
    if r.freq == Weekly {
      var ws, days := WeekStart(r, base, step);
      WeekDatesFollowDays(ws, days);
    }
  }

  ghost predicate AllBefore(a: seq<Civil>, b: seq<Civil>) {
    forall i, j :: 0 <= i < |a| && 0 <= j < |b| ==> Precedes(a[i], b[j])
  }

  lemma OrderedConcat(a: seq<Civil>, b: seq<Civil>)
    requires OrderedDates(a) && OrderedDates(b) && AllBefore(a, b)
    ensures OrderedDates(a + b)
  {
    hide Precedes, MonthLength;
  }

  lemma StepsApart(r: Rule, base: Civil, step: int, steps: int)
    requires ValidRule(r) && ModernBase(base) && step >= 0
    ensures AllBefore(StepDates(r, base, step), DatesFrom(r, base, step + 1, steps))
  {
    hide StepDates, DatesFrom, Period, FitsPeriod, DayNumber;
    var now, later := StepDates(r, base, step), DatesFrom(r, base, step + 1, steps);
    forall i, j | 0 <= i < |now| && 0 <= j < |later|
      ensures Precedes(now[i], later[j])
    {
      StepNames(r, base, step, now[i]);
      DatesNamed(r, base, step + 1, steps, later[j]);
      assert (step + 1) * r.interval == step * r.interval + r.interval;
      PeriodsOrderDays(r.freq, base, now[i], later[j]);
    }
  }

  lemma {:induction false} DatesOrdered(r: Rule, base: Civil, step: int, steps: int)
    requires ValidRule(r) && ModernBase(base) && step >= 0
    ensures OrderedDates(DatesFrom(r, base, step, steps))
    decreases steps - step
  {
    hide StepDates, OrderedDates, AllBefore;
    if step < steps {
      StepOrdered(r, base, step);
      DatesOrdered(r, base, step + 1, steps);
      StepsApart(r, base, step, steps);
      OrderedConcat(StepDates(r, base, step), DatesFrom(r, base, step + 1, steps));
    } else {
      NoDatesOrdered();
    }
  }

  lemma NoDatesOrdered()
    ensures OrderedDates([])
  {
  }

  // -------------------------------------------------------------------------
  // Instants
  // -------------------------------------------------------------------------

  /** The series' own date and time of day, read in its zone. */
  function BaseClock(s: Series): WallClock {
    ClockAt(s.startsAt + s.zone(s.startsAt))
  }

  function BaseDate(s: Series): Civil {
    var w := BaseClock(s);
    Civil(w.year, w.month, w.day)
  }

  /** Wall-clock arithmetic is in whole seconds; the sub-second part of the series is carried over. */
  function StartAt(s: Series, c: Civil): int {
    var w := BaseClock(s);
    InstantOf(s.zone, WallClock(c.year, c.month, c.day, w.hour, w.minute, w.second)) + s.startsAt % 1000
  }

  function Starts(s: Series, dates: seq<Civil>): seq<int> {
    if dates == [] then [] else [StartAt(s, dates[0])] + Starts(s, dates[1..])
  }

  ghost predicate ModernSeries(s: Series) {
    Steady(s.zone) && s.startsAt >= (FIRST_DAY + 12) * DAY_MS
  }

  lemma BaseIsModern(s: Series)
    requires ModernSeries(s)
    ensures ModernBase(BaseDate(s))
  {
    hide DayNumber, CivilOf, MonthLength;
    var n := (s.startsAt + s.zone(s.startsAt)) / DAY_MS;
    assert s.zone(s.startsAt) > -DAY_MS;
    assert BaseDate(s) == CivilOf(n);
    YearFromFirstDay(n);
  }

  lemma TargetOfDate(c: Civil, h: int, m: int, sec: int)
    requires ValidCivil(c) && Number(c) >= FIRST_DAY
    ensures DateUtc(WallClock(c.year, c.month, c.day, h, m, sec)) ==
            Number(c) * DAY_MS + h * 3_600_000 + m * 60_000 + sec * 1000
  {
    hide DayNumber, CivilOf;
    CivilRoundTrip(c);
    UtcDayOfCivil(Number(c));
  }

  lemma TimeOfDay(s: Series)
    ensures var w := BaseClock(s); w.hour >= 0 && w.minute >= 0 && w.second >= 0
  {
    hide ClockAt;
  }

  /** Later dates start later. */
  lemma StartsFollowDates(s: Series, a: Civil, b: Civil)
    requires ModernSeries(s) && ValidCivil(a) && ValidCivil(b)
    requires FIRST_DAY + 4 <= Number(a) < Number(b)
    ensures StartAt(s, a) < StartAt(s, b)
  {
    var w := BaseClock(s);
    TimeOfDay(s);
    hide BaseClock;
    ClocksFollowDates(s.zone, a, b, w.hour, w.minute, w.second);
  }

  /** The same time of day on a later date is a later instant. */
  lemma ClocksFollowDates(z: Offset, a: Civil, b: Civil, h: int, m: int, sec: int)
    requires Steady(z) && ValidCivil(a) && ValidCivil(b) && h >= 0 && m >= 0 && sec >= 0
    requires FIRST_DAY + 4 <= Number(a) < Number(b)
    ensures InstantOf(z, WallClock(a.year, a.month, a.day, h, m, sec)) <
            InstantOf(z, WallClock(b.year, b.month, b.day, h, m, sec))
  {
    hide Number, DateUtc, ShownAt, Settle, MonthLength, ReadsBack;
    TargetOfDate(a, h, m, sec);
    TargetOfDate(b, h, m, sec);
    assert Sane(z);
    ShownReadsBack(z);
    var target := Number(a) * DAY_MS + h * 3_600_000 + m * 60_000 + sec * 1000;
    hide Steady, Sane;
    LaterDayIsLater(Shown(z), z, target, Number(b) - Number(a));
  }

  lemma {:induction false} StartsIncrease(s: Series, dates: seq<Civil>)
    requires ModernSeries(s) && OrderedDates(dates)
    requires forall i :: 0 <= i < |dates| ==> Number(dates[i]) >= FIRST_DAY + 4
    ensures |Starts(s, dates)| == |dates| && Increasing(Starts(s, dates))
    ensures forall i :: 0 <= i < |dates| ==> Starts(s, dates)[i] == StartAt(s, dates[i])
  {
    hide StartAt, DayNumber, MonthLength;
    if dates != [] {
      StartsIncrease(s, dates[1..]);
      forall j | 1 <= j < |dates|
        ensures StartAt(s, dates[0]) < Starts(s, dates)[j]
      {
        assert Precedes(dates[0], dates[j]);
        StartsFollowDates(s, dates[0], dates[j]);
      }
    }
  }

  // -------------------------------------------------------------------------
  // Expansion
  // -------------------------------------------------------------------------

  /** What one call of `emit` does to the counters: stop, or go on with new ones. */
  datatype Emitted = Emitted(stop: bool, produced: int, out: seq<Occurrence>)

  function Emit(s: Series, r: Rule, w: Window, limit: int, start: int, produced: int, out: seq<Occurrence>): Emitted {
    if start < s.startsAt then Emitted(false, produced, out)
    else if r.until.Some? && start > r.until.value then Emitted(true, produced, out)
    else if start >= w.to then Emitted(true, produced, out)
    else
      var end := start + (s.endsAt - s.startsAt);
      var out' := if end > w.from then out + [Occurrence(start, end)] else out;
      Emitted((r.count.Some? && produced + 1 >= r.count.value) || |out'| >= limit, produced + 1, out')
  }

  function Scan(s: Series, r: Rule, w: Window, limit: int, starts: seq<int>, produced: int,
                out: seq<Occurrence>): seq<Occurrence>
    decreases |starts|
  {
    if starts == [] then out
    else
      var e := Emit(s, r, w, limit, starts[0], produced, out);
      if e.stop then e.out else Scan(s, r, w, limit, starts[1..], e.produced, e.out)
  }

  function CandidateStarts(s: Series, r: Rule, step: int): seq<int> {
    Starts(s, DatesFrom(r, BaseDate(s), step, MAX_STEPS))
  }

  /** The loop of expandOccurrences, its nested weekly loop included. */
  method ExpandOccurrences(s: Series, w: Window, limit: nat) returns (out: seq<Occurrence>)
    ensures s.rule.None? ==>
              out == if s.startsAt < w.to && s.endsAt > w.from then [Occurrence(s.startsAt, s.endsAt)] else []
    ensures s.rule.Some? ==> out == Scan(s, s.rule.value, w, limit, CandidateStarts(s, s.rule.value, 0), 0, [])
    ensures s.rule.Some? && ValidRule(s.rule.value) && ModernSeries(s) && limit > 0 ==>
              out == First(limit, Overlapping(s, w, SeriesStarts(s, s.rule.value)))
  {
    hide StepDates, StartAt, BaseDate, First, Overlapping, SeriesStarts;
    out := [];
    if s.rule.None? {
      if s.startsAt < w.to && s.endsAt > w.from {
        out := [Occurrence(s.startsAt, s.endsAt)];
      }
      return;
    }
    var r := s.rule.value;
    var base := BaseDate(s);
    var produced := 0;
    ghost var whole := Scan(s, r, w, limit, CandidateStarts(s, r, 0), 0, []);
    var step, stop := 0, false;
    while step < MAX_STEPS && !stop
      invariant 0 <= step <= MAX_STEPS
      invariant if stop then out == whole else whole == Scan(s, r, w, limit, CandidateStarts(s, r, step), produced, out)
      decreases MAX_STEPS - step, !stop
    {
      var dates := StepDates(r, base, step);
      var i := 0;
      ghost var later := DatesFrom(r, base, step + 1, MAX_STEPS);
      assert dates[0..] + later == dates + later;
      while i < |dates| && !stop
        invariant 0 <= i <= |dates|
        invariant if stop then out == whole
                  else whole == Scan(s, r, w, limit, Starts(s, dates[i..] + later), produced, out)
        decreases |dates| - i, !stop
      {
        assert (dates[i..] + later)[0] == dates[i];
        assert (dates[i..] + later)[1..] == dates[i + 1..] + later;
        assert Starts(s, dates[i..] + later) == [StartAt(s, dates[i])] + Starts(s, dates[i + 1..] + later);
        var e := Emit(s, r, w, limit, StartAt(s, dates[i]), produced, out);
        stop, produced, out := e.stop, e.produced, e.out;
        i := i + 1;
      }
      if !stop {
        assert dates[i..] + later == later;
      }
      step := step + 1;
    }
    assert out == whole;
    if ValidRule(r) && ModernSeries(s) && limit > 0 {
      ExpansionIsWindowOfSeries(s, r, w, limit);
    }
  }

  // -------------------------------------------------------------------------
  // The window-independent series
  // -------------------------------------------------------------------------

  /** Starts at or after the series' own start and not after UNTIL. */
  function Kept(s: Series, r: Rule, starts: seq<int>): seq<int> {
    if starts == [] then []
    else if starts[0] >= s.startsAt && (r.until.Some? ==> starts[0] <= r.until.value)
      then [starts[0]] + Kept(s, r, starts[1..])
    else Kept(s, r, starts[1..])
  }

  function First<T>(n: int, q: seq<T>): seq<T> {
    if n <= 0 then [] else if n < |q| then q[..n] else q
  }

  function Counted(count: Option<int>, q: seq<int>): seq<int> {
    if count.Some? then First(count.value, q) else q
  }

  /** All occurrences of the series: no window appears here. COUNT counts from the first of them. */
  function SeriesStarts(s: Series, r: Rule): seq<int> {
    Counted(r.count, Kept(s, r, CandidateStarts(s, r, 0)))
  }

  function Overlapping(s: Series, w: Window, starts: seq<int>): seq<Occurrence> {
    if starts == [] then []
    else
      var o := Occurrence(starts[0], starts[0] + (s.endsAt - s.startsAt));
      (if o.start < w.to && o.end > w.from then [o] else []) + Overlapping(s, w, starts[1..])
  }

  lemma {:induction false} KeptKeeps(s: Series, r: Rule, starts: seq<int>, x: int)
    ensures x in Kept(s, r, starts) <==> x in starts && x >= s.startsAt && (r.until.Some? ==> x <= r.until.value)
  {
    if starts != [] {
      KeptKeeps(s, r, starts[1..], x);
      assert starts == [starts[0]] + starts[1..];
    }
  }

  lemma {:induction false} KeptIncreases(s: Series, r: Rule, starts: seq<int>)
    requires Increasing(starts)
    ensures Increasing(Kept(s, r, starts))
  {
    if starts != [] {
      KeptIncreases(s, r, starts[1..]);
      var rest := Kept(s, r, starts[1..]);
      forall k | 0 <= k < |rest|
        ensures rest[k] > starts[0]
      {
        KeptKeeps(s, r, starts[1..], rest[k]);
      }
    }
  }

  lemma {:induction false} NothingOverlaps(s: Series, w: Window, starts: seq<int>)
    requires forall i :: 0 <= i < |starts| ==> starts[i] >= w.to
    ensures Overlapping(s, w, starts) == []
  {
    if starts != [] {
      NothingOverlaps(s, w, starts[1..]);
    }
  }

  lemma KeptPastUntil(s: Series, r: Rule, starts: seq<int>)
    requires Increasing(starts) && starts != [] && r.until.Some? && starts[0] > r.until.value
    ensures Kept(s, r, starts) == []
  {
    hide Kept;
    var kept := Kept(s, r, starts);
    if kept != [] {
      KeptKeeps(s, r, starts, kept[0]);
    }
  }

  lemma NothingPastWindow(s: Series, r: Rule, w: Window, starts: seq<int>, left: Option<int>)
    requires Increasing(starts) && starts != [] && starts[0] >= w.to
    ensures Overlapping(s, w, Counted(left, Kept(s, r, starts))) == []
  {
    hide Kept, Overlapping;
    var all := Counted(left, Kept(s, r, starts));
    forall i | 0 <= i < |all| ensures all[i] >= w.to {
      assert all[i] in Kept(s, r, starts);
      KeptKeeps(s, r, starts, all[i]);
    }
    NothingOverlaps(s, w, all);
  }

  function Less(left: Option<int>): Option<int> {
    if left.Some? then Some(left.value - 1) else None
  }

  lemma CountedCons(left: Option<int>, start: int, rest: seq<int>)
    requires left.Some? ==> left.value > 0
    ensures Counted(left, [start] + rest) == [start] + Counted(Less(left), rest)
  {
  }

  /** The occurrences still to come, given what the loop has produced so far. */
  function ToCome(s: Series, r: Rule, w: Window, starts: seq<int>, produced: int): seq<Occurrence> {
    Overlapping(s, w, Counted(if r.count.Some? then Some(r.count.value - produced) else None, Kept(s, r, starts)))
  }

  lemma ToComeStep(s: Series, r: Rule, w: Window, starts: seq<int>, produced: int)
    requires starts != [] && (r.count.Some? ==> produced < r.count.value)
    ensures starts[0] < s.startsAt ==> ToCome(s, r, w, starts, produced) == ToCome(s, r, w, starts[1..], produced)
    ensures starts[0] >= s.startsAt && (r.until.Some? ==> starts[0] <= r.until.value) ==>
              ToCome(s, r, w, starts, produced) ==
              Overlapping(s, w, [starts[0]]) + ToCome(s, r, w, starts[1..], produced + 1)
  {
    var start, kept, rest := starts[0], Kept(s, r, starts), Kept(s, r, starts[1..]);
    if start >= s.startsAt && (r.until.Some? ==> start <= r.until.value) {
      assert kept == [start] + rest;
      var left := if r.count.Some? then Some(r.count.value - produced) else None;
      hide Counted, Kept;
      CountedCons(left, start, rest);
      OverlappingCons(s, w, start, Counted(Less(left), rest));
    } else {
      assert start < s.startsAt ==> kept == rest;
    }
  }

  lemma OverlappingCons(s: Series, w: Window, start: int, tail: seq<int>)
    ensures Overlapping(s, w, [start] + tail) == Overlapping(s, w, [start]) + Overlapping(s, w, tail)
  {
    assert ([start] + tail)[1..] == tail && [start][1..] == [];
    assert Overlapping(s, w, []) == [];
  }

  lemma NoneToCome(s: Series, r: Rule, w: Window, starts: seq<int>, produced: int)
    requires r.count.Some? && produced >= r.count.value
    ensures ToCome(s, r, w, starts, produced) == []
  {
  }

  /** From an increasing list, the early exits lose nothing. */
  lemma {:induction false} ScanFindsWindow(s: Series, r: Rule, w: Window, limit: int, starts: seq<int>, produced: int,
                                           out: seq<Occurrence>)
    requires Increasing(starts) && |out| < limit
    requires r.count.Some? ==> produced < r.count.value
    ensures Scan(s, r, w, limit, starts, produced, out) == out + First(limit - |out|, ToCome(s, r, w, starts, produced))
    decreases |starts|, 1
  {
    if starts == [] { return; }
    var start := starts[0];
    var e := Emit(s, r, w, limit, start, produced, out);
    ToComeStep(s, r, w, starts, produced);
    if start < s.startsAt {
      ScanFindsWindow(s, r, w, limit, starts[1..], produced, out);
    } else if r.until.Some? && start > r.until.value {
      KeptPastUntil(s, r, starts);
    } else if start >= w.to {
      NothingPastWindow(s, r, w, starts, if r.count.Some? then Some(r.count.value - produced) else None);
    } else {
      ScanEmits(s, r, w, limit, starts, produced, out);
    }
  }

  lemma ScanEmits(s: Series, r: Rule, w: Window, limit: int, starts: seq<int>, produced: int, out: seq<Occurrence>)
    requires starts != [] && Increasing(starts) && |out| < limit && (r.count.Some? ==> produced < r.count.value)
    requires s.startsAt <= starts[0] < w.to && (r.until.Some? ==> starts[0] <= r.until.value)
    ensures Scan(s, r, w, limit, starts, produced, out) == out + First(limit - |out|, ToCome(s, r, w, starts, produced))
    decreases |starts|, 0
  {
    var e := Emit(s, r, w, limit, starts[0], produced, out);
    var here, rest := Overlapping(s, w, [starts[0]]), ToCome(s, r, w, starts[1..], produced + 1);
    assert Scan(s, r, w, limit, starts, produced, out) ==
           if e.stop then e.out else Scan(s, r, w, limit, starts[1..], e.produced, e.out);
    ToComeStep(s, r, w, starts, produced);
    EmitAppends(s, r, w, limit, starts[0], produced, out);
    assert Increasing(starts[1..]);
    hide ToCome, Overlapping, Emit, First, Increasing, Scan;
    JoinFirst(limit, out, here, rest);
    if r.count.Some? && produced + 1 >= r.count.value {
      NoneToCome(s, r, w, starts[1..], produced + 1);
    }
    FirstNone(limit - |e.out|, rest);
    if !e.stop {
      ScanFindsWindow(s, r, w, limit, starts[1..], produced + 1, e.out);
    }
  }

  lemma JoinFirst<T>(limit: int, out: seq<T>, here: seq<T>, rest: seq<T>)
    requires |out + here| <= limit
    ensures out + First(limit - |out|, here + rest) == (out + here) + First(limit - |out + here|, rest)
  {
    FirstConcat(limit - |out|, here, rest);
  }

  lemma EmitAppends(s: Series, r: Rule, w: Window, limit: int, start: int, produced: int, out: seq<Occurrence>)
    requires s.startsAt <= start < w.to && (r.until.Some? ==> start <= r.until.value)
    ensures var e, here := Emit(s, r, w, limit, start, produced, out), Overlapping(s, w, [start]);
            && |here| <= 1
            && e == Emitted((r.count.Some? && produced + 1 >= r.count.value) || |out + here| >= limit,
                            produced + 1, out + here)
  {
    assert [start][1..] == [];
    assert out + [] == out;
  }

  lemma FirstConcat<T>(n: int, a: seq<T>, b: seq<T>)
    requires |a| <= n
    ensures First(n, a + b) == a + First(n - |a|, b)
  {
  }

  lemma FirstNone<T>(n: int, q: seq<T>)
    ensures n <= 0 || q == [] ==> First(n, q) == []
  {
  }

  lemma CandidatesIncrease(s: Series, r: Rule, step: int)
    requires ValidRule(r) && ModernSeries(s) && step >= 0
    ensures Increasing(CandidateStarts(s, r, step))
    ensures |CandidateStarts(s, r, step)| == |DatesFrom(r, BaseDate(s), step, MAX_STEPS)|
    ensures forall i :: 0 <= i < |CandidateStarts(s, r, step)| ==>
              CandidateStarts(s, r, step)[i] == StartAt(s, DatesFrom(r, BaseDate(s), step, MAX_STEPS)[i])
  {
    hide StartAt, BaseDate, DayNumber, MonthLength, StepDates;
    BaseIsModern(s);
    var base := BaseDate(s);
    var dates := DatesFrom(r, base, step, MAX_STEPS);
    DatesOrdered(r, base, step, MAX_STEPS);
    forall i | 0 <= i < |dates|
      ensures Number(dates[i]) >= FIRST_DAY + 4
    {
      DatesNamed(r, base, step, MAX_STEPS, dates[i]);
      NotBeforeFirstWeek(r, base, dates[i]);
    }
    StartsIncrease(s, dates);
  }

  lemma RuleCountPositive(r: Rule)
    requires ValidRule(r)
    ensures r.count.Some? ==> 1 <= r.count.value <= MAX_COUNT
  {
  }

  lemma ScanFromNothing(s: Series, r: Rule, w: Window, limit: nat, starts: seq<int>)
    requires Increasing(starts) && limit > 0 && (r.count.Some? ==> 0 < r.count.value)
    ensures Scan(s, r, w, limit, starts, 0, []) == First(limit, Overlapping(s, w, Counted(r.count, Kept(s, r, starts))))
  {
    hide Scan, Kept, Counted, First, Increasing, Overlapping;
    ScanFindsWindow(s, r, w, limit, starts, 0, []);
  }

  /** Expanding over any window gives the overlapping members of one fixed list, the first `limit` of them. */
  lemma ExpansionIsWindowOfSeries(s: Series, r: Rule, w: Window, limit: nat)
    requires ValidRule(r) && ModernSeries(s) && limit > 0
    ensures Scan(s, r, w, limit, CandidateStarts(s, r, 0), 0, []) ==
            First(limit, Overlapping(s, w, SeriesStarts(s, r)))
  {
    hide CandidateStarts, Overlapping, ModernSeries, ValidRule, Scan, Kept, Counted, First, Increasing;
    CandidatesIncrease(s, r, 0);
    RuleCountPositive(r);
    ScanFromNothing(s, r, w, limit, CandidateStarts(s, r, 0));
  }

  /** The list before COUNT holds exactly the starts of the dates RFC 5545 names, from the series' start to UNTIL. */
  lemma KeptIsNamed(s: Series, r: Rule, x: int)
    requires ValidRule(r) && ModernSeries(s)
    ensures ValidCivil(BaseDate(s))
    ensures x in Kept(s, r, CandidateStarts(s, r, 0)) <==>
            && x >= s.startsAt && (r.until.Some? ==> x <= r.until.value)
            && exists c :: Named(r, BaseDate(s), c) && Period(r.freq, BaseDate(s), c) < MAX_STEPS * r.interval &&
                           StartAt(s, c) == x
  {
    hide StartAt, BaseDate, Period, FitsPeriod, MonthLength, StepDates, Kept, CandidateStarts;
    BaseIsModern(s);
    var base := BaseDate(s);
    var starts, dates := CandidateStarts(s, r, 0), DatesFrom(r, base, 0, MAX_STEPS);
    CandidatesIncrease(s, r, 0);
    KeptKeeps(s, r, starts, x);
    if x in starts {
      var i :| 0 <= i < |starts| && starts[i] == x;
      DatesNamed(r, base, 0, MAX_STEPS, dates[i]);
    }
    forall c | Named(r, base, c) && Period(r.freq, base, c) < MAX_STEPS * r.interval
      ensures StartAt(s, c) in starts
    {
      DatesNamed(r, base, 0, MAX_STEPS, c);
      var i :| 0 <= i < |dates| && dates[i] == c;
      assert starts[i] == StartAt(s, c);
    }
  }

  lemma CountedIncreases(count: Option<int>, q: seq<int>, from: int)
    requires Increasing(q) && forall i :: 0 <= i < |q| ==> q[i] >= from
    ensures Increasing(Counted(count, q)) && forall i :: 0 <= i < |Counted(count, q)| ==> Counted(count, q)[i] >= from
  {
  }

  lemma SeriesIncreases(s: Series, r: Rule)
    requires ValidRule(r) && ModernSeries(s)
    ensures Increasing(SeriesStarts(s, r))
    ensures forall i :: 0 <= i < |SeriesStarts(s, r)| ==> SeriesStarts(s, r)[i] >= s.startsAt
  {
    hide Kept, CandidateStarts, ModernSeries, ValidRule, Increasing, Counted;
    CandidatesIncrease(s, r, 0);
    KeptIncreases(s, r, CandidateStarts(s, r, 0));
    KeptNotBefore(s, r, CandidateStarts(s, r, 0));
    CountedIncreases(r.count, Kept(s, r, CandidateStarts(s, r, 0)), s.startsAt);
  }

  lemma KeptNotBefore(s: Series, r: Rule, starts: seq<int>)
    ensures forall i :: 0 <= i < |Kept(s, r, starts)| ==> Kept(s, r, starts)[i] >= s.startsAt
  {
    hide Kept;
    forall i | 0 <= i < |Kept(s, r, starts)| ensures Kept(s, r, starts)[i] >= s.startsAt {
      KeptKeeps(s, r, starts, Kept(s, r, starts)[i]);
    }
  }

  lemma {:induction false} OverlappingHas(s: Series, w: Window, starts: seq<int>, o: Occurrence)
    ensures o in Overlapping(s, w, starts) <==>
            o.start in starts && o.end == o.start + (s.endsAt - s.startsAt) && o.start < w.to && o.end > w.from
  {
    if starts != [] {
      OverlappingHas(s, w, starts[1..], o);
      assert starts == [starts[0]] + starts[1..];
    }
  }

  lemma {:induction false} OverlappingIncreases(s: Series, w: Window, starts: seq<int>)
    requires Increasing(starts)
    ensures var q := Overlapping(s, w, starts); forall i, j :: 0 <= i < j < |q| ==> q[i].start < q[j].start
  {
    if starts != [] {
      OverlappingIncreases(s, w, starts[1..]);
      var rest := Overlapping(s, w, starts[1..]);
      forall k | 0 <= k < |rest| ensures rest[k].start > starts[0] {
        OverlappingHas(s, w, starts[1..], rest[k]);
      }
    }
  }

  /** While the limit is not reached, an occurrence is shown exactly when it belongs to the series and overlaps
      the window, and the result is in increasing order: paging through time is consistent. */
  lemma ExpansionExact(s: Series, r: Rule, w: Window, limit: nat, o: Occurrence)
    requires ValidRule(r) && ModernSeries(s) && |Overlapping(s, w, SeriesStarts(s, r))| <= limit && limit > 0
    ensures var q := Scan(s, r, w, limit, CandidateStarts(s, r, 0), 0, []);
            && (forall i, j :: 0 <= i < j < |q| ==> q[i].start < q[j].start)
            && (o in q <==> o.start in SeriesStarts(s, r) && o.end == o.start + (s.endsAt - s.startsAt)
                            && o.start < w.to && o.end > w.from)
  {
    hide CandidateStarts, Overlapping, SeriesStarts, Scan, ModernSeries, ValidRule;
    ExpansionIsWindowOfSeries(s, r, w, limit);
    SeriesIncreases(s, r);
    OverlappingIncreases(s, w, SeriesStarts(s, r));
    OverlappingHas(s, w, SeriesStarts(s, r), o);
  }

  // -------------------------------------------------------------------------
  // The step cap
  // -------------------------------------------------------------------------

  lemma {:induction false} DatesSplit(r: Rule, base: Civil, step: int, mid: int, steps: int)
    requires step <= mid <= steps
    ensures DatesFrom(r, base, step, steps) == DatesFrom(r, base, step, mid) + DatesFrom(r, base, mid, steps)
    decreases mid - step
  {
    hide StepDates;
    if step < mid {
      DatesSplit(r, base, step + 1, mid, steps);
    }
  }

  lemma {:induction false} StartsSplit(s: Series, a: seq<Civil>, b: seq<Civil>)
    ensures Starts(s, a + b) == Starts(s, a) + Starts(s, b)
  {
    hide StartAt;
    if a == [] {
      assert a + b == b;
    } else {
      StartsSplit(s, a[1..], b);
      assert (a + b)[1..] == a[1..] + b;
    }
  }

  lemma {:induction false} ScanStops(s: Series, r: Rule, w: Window, limit: int, a: seq<int>, b: seq<int>, produced: int,
                                     out: seq<Occurrence>)
    requires exists x :: x in a && x >= s.startsAt && x >= w.to
    ensures Scan(s, r, w, limit, a + b, produced, out) == Scan(s, r, w, limit, a, produced, out)
    decreases |a|
  {
    var e := Emit(s, r, w, limit, a[0], produced, out);
    assert (a + b)[1..] == a[1..] + b;
    if !e.stop {
      var x :| x in a && x >= s.startsAt && x >= w.to;
      assert x in a[1..];
      ScanStops(s, r, w, limit, a[1..], b, e.produced, e.out);
    }
  }

  /** Once some date within the step cap starts past the window, a higher cap would give the same result. */
  lemma StepCapIsEnough(s: Series, r: Rule, w: Window, limit: int, steps: int)
    requires steps >= MAX_STEPS
    requires exists x :: x in CandidateStarts(s, r, 0) && x >= s.startsAt && x >= w.to
    ensures Scan(s, r, w, limit, Starts(s, DatesFrom(r, BaseDate(s), 0, steps)), 0, []) ==
            Scan(s, r, w, limit, CandidateStarts(s, r, 0), 0, [])
  {
    hide StartAt, BaseDate, StepDates, Scan;
    DatesSplit(r, BaseDate(s), 0, MAX_STEPS, steps);
    var later := DatesFrom(r, BaseDate(s), MAX_STEPS, steps);
    StartsSplit(s, DatesFrom(r, BaseDate(s), 0, MAX_STEPS), later);
    ScanStops(s, r, w, limit, CandidateStarts(s, r, 0), Starts(s, later), 0, []);
  }

  // -------------------------------------------------------------------------
  // The end of a series
  // -------------------------------------------------------------------------

  const LAST_INSTANT := 8_640_000_000_000_000

  function LastEnd(s: Series, all: seq<Occurrence>): int {
    if all == [] then s.endsAt else all[|all| - 1].end
  }

  /** The end that is stored beside a series. */
  function StoredEnd(s: Series): Option<int> {
    if s.rule.None? then Some(s.endsAt)
    else if s.rule.value.count.None? && s.rule.value.until.None? then None
    else
      var starts := CandidateStarts(s, s.rule.value, 0);
      Some(LastEnd(s, Scan(s, s.rule.value, Window(s.startsAt, LAST_INSTANT), MAX_COUNT, starts, 0, [])))
  }

  method SeriesEnd(s: Series) returns (end: Option<int>)
    ensures end == StoredEnd(s)
  {
    hide Scan, CandidateStarts, Overlapping, SeriesStarts, First;
    if s.rule.None? {
      return Some(s.endsAt);
    }
    if s.rule.value.count.None? && s.rule.value.until.None? {
      return None;
    }
    var all := ExpandOccurrences(s, Window(s.startsAt, LAST_INSTANT), MAX_COUNT);
    return Some(if all == [] then s.endsAt else all[|all| - 1].end);
  }

  lemma {:induction false} EverythingOverlaps(s: Series, w: Window, starts: seq<int>)
    requires StartsWithin(starts, w.from, w.to) && s.endsAt > s.startsAt
    ensures |Overlapping(s, w, starts)| == |starts|
    ensures forall i :: 0 <= i < |starts| ==>
              Overlapping(s, w, starts)[i] == Occurrence(starts[i], starts[i] + (s.endsAt - s.startsAt))
  {
    if starts != [] {
      EverythingOverlaps(s, w, starts[1..]);
    }
  }

  ghost predicate EndsBy(s: Series, starts: seq<int>, end: int) {
    forall i :: 0 <= i < |starts| ==> starts[i] + (s.endsAt - s.startsAt) <= end
  }

  ghost predicate StartsWithin(starts: seq<int>, from: int, to: int) {
    forall i :: 0 <= i < |starts| ==> from <= starts[i] < to
  }

  /** The end computed for a series bounds all its occurrences exactly when there are at most a thousand of them:
      always so for COUNT, not for every UNTIL. */
  lemma SeriesEndBounds(s: Series, r: Rule)
    requires ValidRule(r) && ModernSeries(s) && s.endsAt > s.startsAt
    requires StartsWithin(SeriesStarts(s, r), s.startsAt, LAST_INSTANT)
    ensures var w := Window(s.startsAt, LAST_INSTANT);
            var shown := Scan(s, r, w, MAX_COUNT, CandidateStarts(s, r, 0), 0, []);
            EndsBy(s, SeriesStarts(s, r), LastEnd(s, shown)) <==> |SeriesStarts(s, r)| <= MAX_COUNT
    ensures r.count.Some? ==> |SeriesStarts(s, r)| <= MAX_COUNT
  {
    CountBounds(s, r);
    hide CandidateStarts, Overlapping, SeriesStarts, Scan, ModernSeries, ValidRule, Increasing, First, LastEnd, EndsBy,
         StartsWithin;
    var w, all := Window(s.startsAt, LAST_INSTANT), SeriesStarts(s, r);
    ExpansionIsWindowOfSeries(s, r, w, MAX_COUNT);
    SeriesIncreases(s, r);
    EverythingOverlaps(s, w, all);
    LastOfFirst(s, all, Overlapping(s, w, all));
  }

  lemma LastOfFirst(s: Series, all: seq<int>, q: seq<Occurrence>)
    requires Increasing(all) && |q| == |all|
    requires forall i :: 0 <= i < |all| ==> q[i] == Occurrence(all[i], all[i] + (s.endsAt - s.startsAt))
    ensures EndsBy(s, all, LastEnd(s, First(MAX_COUNT, q))) <==> |all| <= MAX_COUNT
  {
    if |all| > MAX_COUNT {
      assert all[MAX_COUNT - 1] < all[|all| - 1];
    } else if all != [] {
      var last := |all| - 1;
      assert forall i :: 0 <= i < |all| && i != last ==> all[i] < all[last];
    }
  }

  /** What is stored: the event's own end without a rule; nothing for an open-ended one; and else the end of the last of
      the first thousand occurrences, or the event's own end if there is none. */
  lemma StoredEndIs(s: Series)
    ensures s.rule.None? ==> StoredEnd(s) == Some(s.endsAt)
    ensures s.rule.Some? ==>
              (StoredEnd(s).None? <==> s.rule.value.count.None? && s.rule.value.until.None?)
    ensures s.rule.Some? && StoredEnd(s).Some? && ValidRule(s.rule.value) && ModernSeries(s) && s.endsAt > s.startsAt &&
            StartsWithin(SeriesStarts(s, s.rule.value), s.startsAt, LAST_INSTANT) ==>
              var all := SeriesStarts(s, s.rule.value);
              var n := if |all| <= 1000 then |all| else 1000;
              StoredEnd(s).value == if n == 0 then s.endsAt else all[n - 1] + (s.endsAt - s.startsAt)
  {
    hide CandidateStarts, Overlapping, SeriesStarts, Scan, ModernSeries, ValidRule, Increasing, StartsWithin;
    if s.rule.Some? && ValidRule(s.rule.value) && ModernSeries(s) && s.endsAt > s.startsAt &&
       StartsWithin(SeriesStarts(s, s.rule.value), s.startsAt, LAST_INSTANT) {
      var r, w := s.rule.value, Window(s.startsAt, LAST_INSTANT);
      ExpansionIsWindowOfSeries(s, r, w, MAX_COUNT);
      EverythingOverlaps(s, w, SeriesStarts(s, r));
    }
  }

  lemma CountBounds(s: Series, r: Rule)
    requires ValidRule(r)
    ensures r.count.Some? ==> |SeriesStarts(s, r)| <= MAX_COUNT
  {
    hide Kept, CandidateStarts;
  }

  // -------------------------------------------------------------------------
  // The first occurrence
  // -------------------------------------------------------------------------

  /** The local time of the start, as an instant of UTC. */
  function BaseTarget(s: Series): int {
    DateUtc(BaseClock(s))
  }

  /** Near at most one change of the offset, the first date comes out as the series' own start exactly unless that local
      time is repeated and the start is the instant the search does not find. */
  lemma StartLeadsBack(s: Series, at: int, before: int, after: int)
    requires ModernSeries(s) && at % 1000 == 0
    requires OffsetChangesOnce(s.zone, BaseTarget(s), at, before, after)
    ensures StartAt(s, BaseDate(s)) == s.startsAt <==> FoundAgain(BaseTarget(s), at, before, after, s.startsAt)
  {
    hide *;
    ModernIsSteady(s);
    BaseTargetReads(s);
    StartAtBase(s);
    FloorReads(s.zone, BaseTarget(s), s.startsAt, at, before, after);
    ShownReadsBack(s.zone);
    SearchLeadsBack(Shown(s.zone), s.zone, BaseTarget(s), s.startsAt - s.startsAt % 1000, at, before, after);
    SameSecond(s.startsAt, at);
    SameSide(BaseTarget(s), at, before, after, s.startsAt, s.startsAt - s.startsAt % 1000);
  }

  lemma SameSide(target: int, at: int, before: int, after: int, t: int, u: int)
    requires t < at <==> u < at
    ensures FoundAgain(target, at, before, after, t) <==> FoundAgain(target, at, before, after, u)
  {
  }

  /** When the rule selects the first date and UNTIL is no earlier, the series' own start is among its occurrences
      exactly when the search leads back to it. */
  lemma StartBelongs(s: Series, r: Rule, at: int, before: int, after: int)
    requires ValidRule(r) && ModernSeries(s) && (r.until.Some? ==> s.startsAt <= r.until.value)
    requires Named(r, BaseDate(s), BaseDate(s)) && at % 1000 == 0
    requires ChangesOnceNear(s.zone, BaseTarget(s), at, before, after)
    ensures s.startsAt in SeriesStarts(s, r) <==> FoundAgain(BaseTarget(s), at, before, after, s.startsAt)
  {
    hide ModernSeries, ValidRule, Named, StartAt, BaseDate, SeriesStarts, FoundAgain, ChangesOnceNear,
         OffsetChangesOnce, BaseTarget;
    NearByADay(s.zone, BaseTarget(s), at, before, after);
    StartLeadsBack(s, at, before, after);
    if StartAt(s, BaseDate(s)) == s.startsAt {
      LedBackBelongs(s, r);
    } else if s.startsAt in SeriesStarts(s, r) {
      OnlyBaseDateStarts(s, r, at, before, after);
    }
  }

  lemma LedBackBelongs(s: Series, r: Rule)
    requires ValidRule(r) && ModernSeries(s) && (r.until.Some? ==> s.startsAt <= r.until.value)
    requires Named(r, BaseDate(s), BaseDate(s)) && StartAt(s, BaseDate(s)) == s.startsAt
    ensures s.startsAt in SeriesStarts(s, r)
  {
    hide CandidateStarts, ModernSeries, Named, StartAt, BaseDate, Kept, Counted, Increasing;
    assert r.count.Some? ==> r.count.value >= 1;
    hide ValidRule;
    var starts := CandidateStarts(s, r, 0);
    StartIsKept(s, r);
    AllCandidatesIncrease(s, r);
    KeptIncreases(s, r, starts);
    KeptNotBefore(s, r, starts);
    FirstIsLeast(Kept(s, r, starts), s.startsAt, r.count);
  }

  /** No other date comes out as the series' start. */
  lemma OnlyBaseDateStarts(s: Series, r: Rule, at: int, before: int, after: int)
    requires ValidRule(r) && ModernSeries(s) && s.startsAt in SeriesStarts(s, r) && at % 1000 == 0
    requires ChangesOnceNear(s.zone, BaseTarget(s), at, before, after)
    ensures StartAt(s, BaseDate(s)) == s.startsAt
  {
    hide CandidateStarts, ModernSeries, Named, StartAt, BaseDate, Kept, ChangesOnceNear, Period;
    StartWasKept(s, r);
    KeptIsNamed(s, r, s.startsAt);
    var c :| Named(r, BaseDate(s), c) && StartAt(s, c) == s.startsAt;
    NamedIsModern(s, r, c);
    if c != BaseDate(s) { OtherDateElsewhere(s, c, at, before, after); }
  }

  lemma StartWasKept(s: Series, r: Rule)
    requires s.startsAt in SeriesStarts(s, r)
    ensures s.startsAt in Kept(s, r, CandidateStarts(s, r, 0))
  {
    hide Kept, CandidateStarts;
  }

  lemma NamedIsModern(s: Series, r: Rule, c: Civil)
    requires ValidRule(r) && ModernSeries(s) && ValidCivil(BaseDate(s)) && Named(r, BaseDate(s), c)
    ensures ValidCivil(c) && Number(c) >= FIRST_DAY + 4
  {
    assert ValidCivil(c);
    hide Named, BaseDate, ModernSeries, ValidRule, Number;
    BaseIsModern(s);
    NotBeforeFirstWeek(r, BaseDate(s), c);
  }

  lemma OtherDateElsewhere(s: Series, c: Civil, at: int, before: int, after: int)
    requires ModernSeries(s) && ValidCivil(c) && Number(c) >= FIRST_DAY + 4 && c != BaseDate(s) && at % 1000 == 0
    requires ChangesOnceNear(s.zone, BaseTarget(s), at, before, after)
    ensures StartAt(s, c) != s.startsAt
  {
    hide *;
    var n := TargetApart(s, c);
    ModernIsSteady(s);
    NearByADay(s.zone, BaseTarget(s), at, before, after);
    BaseTargetReads(s);
    FloorReads(s.zone, BaseTarget(s), s.startsAt, at, before, after);
    ShownReadsBack(s.zone);
    OtherDaysElsewhere(Shown(s.zone), s.zone, BaseTarget(s), n, s.startsAt - s.startsAt % 1000, at, before, after);
  }

  lemma ModernIsSteady(s: Series)
    requires ModernSeries(s)
    ensures Steady(s.zone) && Sane(s.zone)
  {
  }

  lemma BaseTargetReads(s: Series)
    requires ModernSeries(s)
    ensures BaseTarget(s) == s.startsAt + s.zone(s.startsAt) - s.startsAt % 1000
    ensures BaseTarget(s) % 1000 == 0 && BaseTarget(s) >= FIRST_TARGET
  {
    hide DateUtc, BaseClock;
    BaseClockReads(s);
  }

  /** Another date is so many days away from the series' own. */
  lemma TargetApart(s: Series, c: Civil) returns (n: int)
    requires ModernSeries(s) && ValidCivil(c) && Number(c) >= FIRST_DAY + 4 && c != BaseDate(s)
    ensures n != 0 && BaseTarget(s) + n * DAY_MS >= FIRST_TARGET
    ensures StartAt(s, c) == Settle(Shown(s.zone), BaseTarget(s) + n * DAY_MS, BaseTarget(s) + n * DAY_MS, 3) +
                             s.startsAt % 1000
  {
    hide *;
    BaseIsModern(s);
    ModernIsDate(BaseDate(s));
    BaseParts(s, c);
    DaysApart(s, BaseDate(s), c);
    n := DaysBetween(BaseDate(s), c);
  }

  function DaysBetween(a: Civil, b: Civil): int
    requires ValidCivil(a) && ValidCivil(b)
  {
    Number(b) - Number(a)
  }

  function TargetOn(s: Series, c: Civil): int {
    var w := BaseClock(s);
    DateUtc(WallClock(c.year, c.month, c.day, w.hour, w.minute, w.second))
  }

  lemma BaseParts(s: Series, c: Civil)
    ensures BaseTarget(s) == TargetOn(s, BaseDate(s))
    ensures StartAt(s, c) == Settle(Shown(s.zone), TargetOn(s, c), TargetOn(s, c), 3) + s.startsAt % 1000
  {
    hide Settle, Shown, DateUtc, ClockAt;
  }

  lemma DaysApart(s: Series, a: Civil, b: Civil)
    requires ValidCivil(a) && ValidCivil(b) && Number(a) >= FIRST_DAY && Number(b) >= FIRST_DAY + 4
    ensures TargetOn(s, b) == TargetOn(s, a) + DaysBetween(a, b) * DAY_MS
    ensures TargetOn(s, b) >= FIRST_TARGET
    ensures a == b <==> DaysBetween(a, b) == 0
  {
    TimeOfDay(s);
    hide DayNumber, CivilOf, DateUtc, BaseClock, MonthLength;
    TargetOfDate(a, BaseClock(s).hour, BaseClock(s).minute, BaseClock(s).second);
    TargetOfDate(b, BaseClock(s).hour, BaseClock(s).minute, BaseClock(s).second);
    CivilRoundTrip(a);
    CivilRoundTrip(b);
  }

  lemma ModernIsDate(base: Civil)
    requires ModernBase(base)
    ensures ValidCivil(base) && Number(base) >= FIRST_DAY + 11
  {
  }

  lemma AllCandidatesIncrease(s: Series, r: Rule)
    requires ValidRule(r) && ModernSeries(s)
    ensures Increasing(CandidateStarts(s, r, 0))
  {
    hide *;
    CandidatesIncrease(s, r, 0);
  }

  lemma StartIsKept(s: Series, r: Rule)
    requires ValidRule(r) && ModernSeries(s) && (r.until.Some? ==> s.startsAt <= r.until.value)
    requires Named(r, BaseDate(s), BaseDate(s)) && StartAt(s, BaseDate(s)) == s.startsAt
    ensures s.startsAt in Kept(s, r, CandidateStarts(s, r, 0))
  {
    assert Period(r.freq, BaseDate(s), BaseDate(s)) == 0;
    hide CandidateStarts, ModernSeries, Named, StartAt, BaseDate, Kept, Period, MonthLength;
    KeptIsNamed(s, r, s.startsAt);
  }

  lemma FirstIsLeast(q: seq<int>, x: int, count: Option<int>)
    requires Increasing(q) && x in q && (forall i :: 0 <= i < |q| ==> q[i] >= x) && (count.Some? ==> count.value >= 1)
    ensures x in Counted(count, q)
  {
    var i :| 0 <= i < |q| && q[i] == x;
    assert Counted(count, q)[0] == q[0];
  }

  lemma StartAtBase(s: Series)
    ensures StartAt(s, BaseDate(s)) == Settle(Shown(s.zone), BaseTarget(s), BaseTarget(s), 3) + s.startsAt % 1000
  {
    hide *;
    BaseParts(s, BaseDate(s));
  }

  lemma BaseClockReads(s: Series)
    requires Sane(s.zone) && s.startsAt >= (FIRST_DAY + 12) * DAY_MS
    ensures DateUtc(BaseClock(s)) == s.startsAt + s.zone(s.startsAt) - s.startsAt % 1000
    ensures DateUtc(BaseClock(s)) % 1000 == 0 && DateUtc(BaseClock(s)) >= FIRST_TARGET
  {
    hide ClockAt, DateUtc, Sane;
    SaneOffset(s.zone, s.startsAt);
    ClockRoundTrip(s.startsAt + s.zone(s.startsAt));
    SecondsBack(s.startsAt, s.zone(s.startsAt));
  }

  /** The case occurs: an event that starts at the second 01:30 of 1 November 2026 in New York, and repeats daily, does
      not contain its own start; its first date comes out an hour early. */
  lemma SecondHourDropsStart()
    ensures var at, start := 1_793_512_800_000, 1_793_514_600_000;
            var s := Series(start, start + 3_600_000, (t: int) => if t < at then -14_400_000 else -18_000_000,
                            Some(Rule(Daily, 1, None, None, None)));
            && ModernSeries(s)
            && StartAt(s, BaseDate(s)) == start - 3_600_000 && start !in SeriesStarts(s, s.rule.value)
  {
    hide StartAt, BaseDate, SeriesStarts, BaseTarget, Settle, Shown, DayNumber, CivilOf, BaseClock;
    var at, start := 1_793_512_800_000, 1_793_514_600_000;
    var s := Series(start, start + 3_600_000, (t: int) => if t < at then -14_400_000 else -18_000_000,
                    Some(Rule(Daily, 1, None, None, None)));
    BaseTargetReads(s);
    BaseIsModern(s);
    StartBelongs(s, s.rule.value, at, -14_400_000, -18_000_000);
    StartAtBase(s);
    ShownReadsBack(s.zone);
    SettleClosed(Shown(s.zone), s.zone, BaseTarget(s));
  }

  lemma SecondsBack(t: int, k: int)
    requires k % 1000 == 0
    ensures (t + k) % 1000 == t % 1000 && (t + k - t % 1000) % 1000 == 0
  {
  }
}

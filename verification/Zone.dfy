/** Wall-clock time in a time zone. A zone is its offset from UTC, in milliseconds, at every instant. */
module Zone {
  import opened Calendar

  type Offset = int -> int

  /** The wall clock of instant t, passed back through Date.UTC. */
  function ShownAt(z: Offset, t: int): int {
    DateUtc(ClockAt(t + z(t)))
  }

  function Shown(z: Offset): int -> int {
    (t: int) => ShownAt(z, t)
  }

  /** Offsets are whole seconds and shorter than a day. */
  ghost predicate Sane(z: Offset) {
    forall t: int :: z(t) % 1000 == 0 && -DAY_MS < z(t) < DAY_MS
  }

  /** Within any three days the offset moves forward by less than a day; backward it may jump freely. */
  ghost predicate Steady(z: Offset) {
    Sane(z) && forall t: int, u: int :: t <= u <= t + 3 * DAY_MS ==> z(u) - z(t) < DAY_MS
  }

  /** The search of zonedToUtc: shift the guess by the error it shows, stop when there is none. */
  function Settle(shown: int -> int, target: int, guess: int, passes: nat): int
    decreases passes
  {
    if passes == 0 then guess
    else
      var diff := target - shown(guess);
      if diff == 0 then guess else Settle(shown, target, guess + diff, passes - 1)
  }

  function InstantOf(z: Offset, w: WallClock): int {
    Settle(Shown(z), DateUtc(w), DateUtc(w), 3)
  }

  method ZonedToUtc(w: WallClock, z: Offset) returns (r: int)
    ensures r == InstantOf(z, w)
  {
    hide DateUtc, ShownAt;
    var target := DateUtc(w);
    var guess := target;
    var i := 0;
    while i < 3
      invariant 0 <= i <= 3
      invariant Settle(Shown(z), target, guess, 3 - i) == InstantOf(z, w)
    {
      var seenMs := ShownAt(z, guess);
      var diff := target - seenMs;
      if diff == 0 {
        return guess;
      }
      guess := guess + diff;
      i := i + 1;
    }
    return guess;
  }

  /** Far enough into year 100 that no guess is read as a two-digit year. */
  const FIRST_TARGET := (FIRST_DAY + 4) * DAY_MS

  /** On whole seconds from year 100 on, what is shown is the instant plus the offset. */
  ghost predicate ReadsBack(shown: int -> int, z: Offset) {
    forall t: int :: t % 1000 == 0 && t >= FIRST_TARGET - 3 * DAY_MS ==> shown(t) == t + z(t)
  }

  lemma ShownReadsBack(z: Offset)
    requires Sane(z)
    ensures ReadsBack(Shown(z), z)
  {
    hide ShownAt, Sane;
    forall t: int | t % 1000 == 0 && t >= FIRST_TARGET - 3 * DAY_MS
      ensures Shown(z)(t) == t + z(t)
    {
      SaneOffset(z, t);
      SumOfSeconds(t, z(t));
      ShownAtReads(z, t);
    }
  }

  lemma ShownAtReads(z: Offset, t: int)
    requires (t + z(t)) % 1000 == 0 && t + z(t) >= FIRST_DAY * DAY_MS
    ensures ShownAt(z, t) == t + z(t)
  {
    hide DateUtc, ClockAt;
    ClockRoundTrip(t + z(t));
  }

  lemma OnePass(shown: int -> int, z: Offset, target: int, guess: int, passes: nat)
    requires passes > 0 && shown(guess) == guess + z(guess)
    ensures Settle(shown, target, guess, passes) ==
            if target - z(guess) == guess then guess else Settle(shown, target, target - z(guess), passes - 1)
  {
  }

  lemma ThreePasses(shown: int -> int, z: Offset, target: int, g1: int, g2: int)
    requires g1 == target - z(target) && g2 == target - z(g1)
    requires shown(target) == target + z(target) && shown(g1) == g1 + z(g1) && shown(g2) == g2 + z(g2)
    ensures Settle(shown, target, target, 3) == target - z(g2)
  {
    NoPass(shown, target, target - z(g2));
    hide *;
    OnePass(shown, z, target, target, 3);
    OnePass(shown, z, target, g1, 2);
    OnePass(shown, z, target, g2, 1);
  }

  lemma NoPass(shown: int -> int, target: int, guess: int)
    ensures Settle(shown, target, guess, 0) == guess
  {
  }

  lemma TargetReads(shown: int -> int, z: Offset, target: int)
    requires ReadsBack(shown, z) && target % 1000 == 0 && target >= FIRST_TARGET
    ensures shown(target) == target + z(target)
  {
  }

  lemma WholeSecondsApart(a: int, b: int)
    requires a % 1000 == 0 && b % 1000 == 0
    ensures (a - b) % 1000 == 0
  {
  }

  lemma GuessReads(shown: int -> int, z: Offset, target: int, u: int)
    requires Sane(z) && ReadsBack(shown, z) && target % 1000 == 0 && target >= FIRST_TARGET
    ensures shown(target - z(u)) == target - z(u) + z(target - z(u))
  {
    assert -DAY_MS < z(u) < DAY_MS && z(u) % 1000 == 0;
    hide Sane;
    WholeSecondsApart(target, z(u));
  }

  /** Three passes apply the offset of the previous guess three times. */
  lemma SettleClosed(shown: int -> int, z: Offset, target: int)
    requires Sane(z) && ReadsBack(shown, z) && target % 1000 == 0 && target >= FIRST_TARGET
    ensures Settle(shown, target, target, 3) == target - z(target - z(target - z(target)))
  {
    hide *;
    TargetReads(shown, z, target);
    GuessReads(shown, z, target, target);
    GuessReads(shown, z, target, target - z(target));
    ThreePasses(shown, z, target, target - z(target), target - z(target - z(target)));
  }

  ghost predicate OffsetChangesOnce(z: Offset, target: int, at: int, before: int, after: int) {
    forall t: int :: target - DAY_MS <= t <= target + DAY_MS ==> z(t) == if t < at then before else after
  }

  /** Near at most one offset change, the search finds an instant that reads exactly `target` whenever there is
      one. A local time the clocks skip comes out displaced by exactly the width of the gap. */
  lemma LocalTimeResolved(shown: int -> int, z: Offset, target: int, at: int, before: int, after: int)
    requires Sane(z) && ReadsBack(shown, z) && target % 1000 == 0 && target >= FIRST_TARGET
    requires OffsetChangesOnce(z, target, at, before, after)
    ensures var r := Settle(shown, target, target, 3);
            if exists t: int :: t + z(t) == target
            then r + z(r) == target
            else before < after && r + z(r) == target + if target < at then after - before else before - after
  {
    SettleClosed(shown, z, target);
    var r := Settle(shown, target, target, 3);
    assert z(target) == if target < at then before else after;
    assert -DAY_MS < z(target - DAY_MS) < DAY_MS && -DAY_MS < z(target + DAY_MS) < DAY_MS;
    if t: int :| t + z(t) == target {
      assert -DAY_MS < z(t) < DAY_MS;
      assert z(t) == if t < at then before else after;
    } else {
      assert target - before + z(target - before) != target && target - after + z(target - after) != target;
    }
  }

  /** The result for the wall clock of the zone itself. */
  lemma ZonedTimeResolved(z: Offset, w: WallClock, at: int, before: int, after: int)
    requires Sane(z) && DateUtc(w) >= FIRST_TARGET
    requires OffsetChangesOnce(z, DateUtc(w), at, before, after)
    ensures var r := InstantOf(z, w);
            if exists t: int :: t + z(t) == DateUtc(w)
            then r + z(r) == DateUtc(w)
            else before < after && r + z(r) == DateUtc(w) + if DateUtc(w) < at then after - before else before - after
  {
    WholeSeconds(w);
    hide DateUtc, ShownAt;
    ShownReadsBack(z);
    LocalTimeResolved(Shown(z), z, DateUtc(w), at, before, after);
  }

  /** Either only one instant near the change reads `target`, or t is the one of the two on the change's side that
      `target` itself, taken as an instant, is on. */
  predicate FoundAgain(target: int, at: int, before: int, after: int, t: int) {
    !(target - before < at <= target - after) || (t < at <==> target < at)
  }

  /** From what the clock shows at t, the search finds t again exactly then: of the two instants of a repeated local
      time it can only find one. */
  lemma SearchLeadsBack(shown: int -> int, z: Offset, target: int, t: int, at: int, before: int, after: int)
    requires Sane(z) && ReadsBack(shown, z) && target % 1000 == 0 && target >= FIRST_TARGET
    requires OffsetChangesOnce(z, target, at, before, after) && t + z(t) == target
    ensures Settle(shown, target, target, 3) == t <==> FoundAgain(target, at, before, after, t)
  {
    hide Settle, ReadsBack;
    SettleClosed(shown, z, target);
    assert -DAY_MS < z(t) < DAY_MS;
    assert z(t) == if t < at then before else after;
    assert z(target) == if target < at then before else after;
    assert -DAY_MS < z(target - DAY_MS) < DAY_MS && -DAY_MS < z(target + DAY_MS) < DAY_MS;
  }

  /** Near at most one change, the same time on the day before or after never leads to t. */
  lemma OtherDayElsewhere(shown: int -> int, z: Offset, target: int, other: int, t: int, at: int, before: int,
                          after: int)
    requires Steady(z) && ReadsBack(shown, z) && other % 1000 == 0 && other >= FIRST_TARGET
    requires OffsetChangesOnce(z, other, at, before, after) && t + z(t) == target
    requires other == target + DAY_MS || other == target - DAY_MS
    ensures Settle(shown, other, other, 3) != t
  {
    hide Settle, ReadsBack;
    assert -DAY_MS < z(other) < DAY_MS;
    assert other - DAY_MS >= at || other + DAY_MS < at ==> z(other - z(other)) == z(other);
    assert z(other + DAY_MS) - z(other - DAY_MS) < DAY_MS;
    assert z(other - DAY_MS) == if other - DAY_MS < at then before else after;
    assert z(other + DAY_MS) == if other + DAY_MS < at then before else after;
    LocalTimeResolved(shown, z, other, at, before, after);
    assert other - z(other) + z(other - z(other)) == other ==> exists u: int :: u + z(u) == other;
  }

  /** Within two days of `target` there is at most one change. */
  ghost predicate ChangesOnceNear(z: Offset, target: int, at: int, before: int, after: int) {
    forall t: int :: target - 2 * DAY_MS <= t <= target + 2 * DAY_MS ==> z(t) == if t < at then before else after
  }

  lemma NearByADay(z: Offset, target: int, at: int, before: int, after: int)
    requires ChangesOnceNear(z, target, at, before, after)
    ensures OffsetChangesOnce(z, target, at, before, after)
  {
  }

  /** A clock's offset does not change within a second. */
  lemma FloorReads(z: Offset, target: int, start: int, at: int, before: int, after: int)
    requires Sane(z) && OffsetChangesOnce(z, target, at, before, after) && at % 1000 == 0
    requires target == start + z(start) - start % 1000
    ensures start - start % 1000 + z(start - start % 1000) == target
  {
    var t := start - start % 1000;
    assert -DAY_MS < z(start) < DAY_MS && z(start) % 1000 == 0;
    hide Sane;
    SameSecond(start, at);
    assert z(t) == if t < at then before else after;
    TargetInWindow(z, target, start, at, before, after);
  }

  lemma SameSecond(t: int, at: int)
    requires at % 1000 == 0
    ensures t < at <==> t - t % 1000 < at
  {
  }

  lemma TargetInWindow(z: Offset, target: int, start: int, at: int, before: int, after: int)
    requires OffsetChangesOnce(z, target, at, before, after) && at % 1000 == 0
    requires target == start + z(start) - start % 1000 && -DAY_MS < z(start) < DAY_MS && z(start) % 1000 == 0
    ensures z(start) == if start < at then before else after
  {
  }

  /** Nor does the same time on any other day. */
  lemma OtherDaysElsewhere(shown: int -> int, z: Offset, target: int, n: int, t: int, at: int, before: int, after: int)
    requires Steady(z) && ReadsBack(shown, z) && target % 1000 == 0 && t + z(t) == target
    requires ChangesOnceNear(z, target, at, before, after)
    requires n != 0 && target + n * DAY_MS >= FIRST_TARGET
    ensures Settle(shown, target + n * DAY_MS, target + n * DAY_MS, 3) != t
  {
    hide Settle, ReadsBack;
    var other := target + n * DAY_MS;
    if n == 1 || n == -1 {
      assert OffsetChangesOnce(z, other, at, before, after);
      OtherDayElsewhere(shown, z, target, other, t, at, before, after);
    } else {
      SettleClosed(shown, z, other);
      assert -DAY_MS < z(t) < DAY_MS && -DAY_MS < z(other - z(other - z(other))) < DAY_MS;
    }
  }

  lemma WholeSeconds(w: WallClock)
    ensures DateUtc(w) % 1000 == 0
  {
    hide UtcDay;
    var seconds := UtcDay(w.year, w.month - 1, w.day) * 86_400 + w.hour * 3600 + w.minute * 60 + w.second;
    assert DateUtc(w) == 1000 * seconds;
    hide DateUtc;
    QuotientUnique(DateUtc(w), 1000, seconds, 0);
  }

  /** The skipped case occurs: 02:30 on 8 March 2026, when New York's clocks go from 02:00 to 03:00, comes out
      as 03:30. */
  lemma SkippedLocalTime()
    ensures var z := (t: int) => if t < 1_772_953_200_000 then -18_000_000 else -14_400_000;
            var w := WallClock(2026, 3, 8, 2, 30, 0);
            Sane(z) && InstantOf(z, w) + z(InstantOf(z, w)) == DateUtc(w) + 3_600_000
  {
    hide DateUtc, ShownAt, Settle;
    var z := (t: int) => if t < 1_772_953_200_000 then -18_000_000 else -14_400_000;
    SkippedTarget();
    ShownReadsBack(z);
    SettleClosed(Shown(z), z, 1_772_937_000_000);
  }

  lemma SkippedTarget()
    ensures DateUtc(WallClock(2026, 3, 8, 2, 30, 0)) == 1_772_937_000_000
  {
    assert UtcDay(2026, 2, 8) == 20_520 by {
      assert DaysBeforeYear(2026) == 20_454 && DaysBeforeMonth(2026, 3) == 59;
      assert 2 / 12 == 0 && 2 % 12 == 2;
      hide DaysBeforeYear, DaysBeforeMonth;
    }
    hide UtcDay;
  }

  /** The same time of day on the next day is a later instant. */
  lemma NextDayIsLater(shown: int -> int, z: Offset, target: int)
    requires Steady(z) && ReadsBack(shown, z) && target % 1000 == 0 && target >= FIRST_TARGET
    ensures Settle(shown, target, target, 3) < Settle(shown, target + DAY_MS, target + DAY_MS, 3)
  {
    hide Settle;
    var u := target + DAY_MS;
    SettleClosed(shown, z, target);
    SettleClosed(shown, z, u);
    var p := target - z(target - z(target));
    var q := u - z(u - z(u));
    assert -DAY_MS < z(target) < DAY_MS && -DAY_MS < z(target - z(target)) < DAY_MS;
    assert -DAY_MS < z(u) < DAY_MS && -DAY_MS < z(u - z(u)) < DAY_MS;
    assert z(u) - z(target) < DAY_MS;
    assert target - z(target) <= u - z(u) && z(u - z(u)) - z(target - z(target)) < DAY_MS;
    assert p <= q && z(q) - z(p) < DAY_MS;
  }

  lemma {:induction false} LaterDayIsLater(shown: int -> int, z: Offset, target: int, days: nat)
    requires Steady(z) && ReadsBack(shown, z) && target % 1000 == 0 && target >= FIRST_TARGET && days > 0
    ensures Settle(shown, target, target, 3) < Settle(shown, target + days * DAY_MS, target + days * DAY_MS, 3)
    decreases days
  {
    hide Settle;
    var u := target + (days - 1) * DAY_MS;
    NextDayIsLater(shown, z, u);
    if days > 1 {
      LaterDayIsLater(shown, z, target, days - 1);
    }
  }

  ghost predicate ChangesOnce(z: Offset, at: int, before: int, after: int) {
    forall t: int :: z(t) == if t < at then before else after
  }

  /** Every time of day on every date is an earlier instant than the same time on the next date. */
  ghost predicate DaysInOrder(shown: int -> int) {
    forall target: int :: target % 1000 == 0 && target >= FIRST_TARGET ==>
      Settle(shown, target, target, 3) < Settle(shown, target + DAY_MS, target + DAY_MS, 3)
  }

  /** For a zone with a single change, the days stay in order exactly when the change moves the clocks forward by less
      than a day. */
  lemma SingleChangeInOrder(shown: int -> int, z: Offset, at: int, before: int, after: int)
    requires Sane(z) && ReadsBack(shown, z) && ChangesOnce(z, at, before, after)
    requires at >= FIRST_TARGET + DAY_MS + 1000
    ensures DaysInOrder(shown) <==> after - before < DAY_MS
  {
    hide Settle, ReadsBack;
    if after - before < DAY_MS {
      assert Steady(z);
      forall target: int | target % 1000 == 0 && target >= FIRST_TARGET
        ensures Settle(shown, target, target, 3) < Settle(shown, target + DAY_MS, target + DAY_MS, 3)
      {
        NextDayIsLater(shown, z, target);
      }
    } else {
      LongJumpCollides(shown, z, at, before, after);
    }
  }

  /** The last second before the jump is not earlier than the same time of day on the next date. */
  lemma LongJumpCollides(shown: int -> int, z: Offset, at: int, before: int, after: int)
    requires Sane(z) && ReadsBack(shown, z) && ChangesOnce(z, at, before, after)
    requires at >= FIRST_TARGET + DAY_MS + 1000 && after - before >= DAY_MS
    ensures !DaysInOrder(shown)
  {
    hide ReadsBack, Sane, Settle;
    assert z(at - 1) == before && z(at) == after;
    hide ChangesOnce;
    SaneOffset(z, at - 1);
    SaneOffset(z, at);
    var second := NextSecond(at);
    var target := second + before - 1000;
    SumOfSeconds(second, before);
    SumOfSeconds(DAY_MS + 1000, target);
    SettleClosed(shown, z, target);
    SettleClosed(shown, z, target + DAY_MS);
    JumpedOver(z, at, before, after, second);
    assert !(Settle(shown, target, target, 3) < Settle(shown, target + DAY_MS, target + DAY_MS, 3));
  }

  /** The search ends before the jump for the one, and after it for the other. */
  lemma JumpedOver(z: Offset, at: int, before: int, after: int, second: int)
    requires ChangesOnce(z, at, before, after) && at <= second < at + 1000
    requires 1000 - DAY_MS <= before && after < DAY_MS && after - before >= DAY_MS
    ensures var t := second + before - 1000;
            var u := t + DAY_MS;
            t - z(t - z(t - z(t))) >= u - z(u - z(u - z(u)))
  {
    var t := second + before - 1000;
    var u := t + DAY_MS;
    assert z(t - after) == before && z(t - before) == before;
    assert z(u) == after && z(u - after) == before && z(u - before) == after;
  }

  lemma SaneOffset(z: Offset, t: int)
    requires Sane(z)
    ensures z(t) % 1000 == 0 && 1000 - DAY_MS <= z(t) < DAY_MS
  {
    assert z(t) % 1000 == 0 && -DAY_MS < z(t) < DAY_MS;
  }

  function NextSecond(t: int): (second: int)
    ensures t <= second < t + 1000 && second % 1000 == 0
  {
    if t % 1000 == 0 then t else t + 1000 - t % 1000
  }

  lemma SumOfSeconds(a: int, b: int)
    requires a % 1000 == 0 && b % 1000 == 0
    ensures (a + b) % 1000 == 0 && (a + b - 1000) % 1000 == 0
  {
  }

  /** The failing case occurs: when Samoa skipped 30 December 2011, moving its offset by a whole day, 15:00 on the 29th
      and 15:00 on the skipped 30th came out as one instant. */
  lemma DayLongJumpCollides()
    ensures var z := (t: int) => if t < 1_325_239_200_000 then -36_000_000 else 50_400_000;
            var target := 1_325_170_800_000;
            Sane(z) && Settle(Shown(z), target, target, 3) == Settle(Shown(z), target + DAY_MS, target + DAY_MS, 3)
  {
    hide ShownAt, Settle;
    var z := (t: int) => if t < 1_325_239_200_000 then -36_000_000 else 50_400_000;
    ShownReadsBack(z);
    SettleClosed(Shown(z), z, 1_325_170_800_000);
    SettleClosed(Shown(z), z, 1_325_170_800_000 + DAY_MS);
  }
}

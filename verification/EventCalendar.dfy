/** The calendar view of one event: its occurrences in a window, with the changes made to single ones. */
module EventCalendar {
  import opened Wrappers
  import opened Calendar
  import opened Recurrence
  import opened Reminders

  /** An occurrence as shown; original is the start the series gives it. */
  datatype Row = Row(original: int, start: int, end: int, cancelled: bool)

  const MARGIN := 14 * DAY_MS
  const LIMIT := 500

  function RowOf(ex: Exceptions, o: Occurrence): Row {
    if o.start in ex
    then Row(o.start, ex[o.start].startsAt.GetOr(o.start), ex[o.start].endsAt.GetOr(o.end), ex[o.start].cancelled)
    else Row(o.start, o.start, o.end, false)
  }

  function Widened(w: Window): Window {
    Window(w.from - MARGIN, w.to + MARGIN)
  }

  predicate Visible(row: Row, w: Window, includeCancelled: bool) {
    (includeCancelled || !row.cancelled) && row.start < w.to && row.end > w.from
  }

  function Rows(q: seq<Occurrence>, ex: Exceptions, w: Window, includeCancelled: bool): seq<Row> {
    if q == [] then []
    else
      var row := RowOf(ex, q[|q| - 1]);
      Rows(q[..|q| - 1], ex, w, includeCancelled) + if Visible(row, w, includeCancelled) then [row] else []
  }

  /** The query that chooses events: it knows the series' own start and its stored end, not the changes made to single
      occurrences. */
  predicate InQuery(s: Series, seriesEndsAt: Option<int>, w: Window) {
    s.startsAt < w.to && (seriesEndsAt.Some? ==> seriesEndsAt.value > w.from)
  }

  function CalendarRows(s: Series, ex: Exceptions, w: Window, includeCancelled: bool): seq<Row> {
    if InQuery(s, StoredEnd(s), w)
    then Rows(First(LIMIT, Overlapping(s, Widened(w), AllStarts(s))), ex, w, includeCancelled)
    else []
  }

  /** seriesEndsAt is what creating or changing the event stored. The expansion window is widened, so that occurrences
      moved into the window are found too. */
  method Occurrences(s: Series, seriesEndsAt: Option<int>, ex: Exceptions, w: Window, includeCancelled: bool)
      returns (out: seq<Row>)
    requires SoundSeries(s) && seriesEndsAt == StoredEnd(s)
    ensures out == CalendarRows(s, ex, w, includeCancelled)
  {
    hide StoredEnd, SeriesStarts, ModernSeries, ValidRule, Scan, CandidateStarts, Rows, Overlapping, First, AllStarts,
         SoundSeries, Increasing, Kept, StartAt, BaseDate;
    if !(s.startsAt < w.to && (seriesEndsAt.None? || seriesEndsAt.value > w.from)) {
      return [];
    }
    var occs := ExpandOccurrences(s, Window(w.from - MARGIN, w.to + MARGIN), LIMIT);
    ExpandedIsAll(s, Widened(w), occs);
    out := [];
    NoRows(ex, w, includeCancelled);
    assert occs[..0] == [];
    for i := 0 to |occs|
      invariant out == Rows(occs[..i], ex, w, includeCancelled)
    {
      RowsGrow(occs, i, ex, w, includeCancelled);
      var o := occs[i];
      var cancelled := o.start in ex && ex[o.start].cancelled;
      if cancelled && !includeCancelled { continue; }
      var start := if o.start in ex && ex[o.start].startsAt.Some? then ex[o.start].startsAt.value else o.start;
      var end := if o.start in ex && ex[o.start].endsAt.Some? then ex[o.start].endsAt.value else o.end;
      if !(start < w.to && end > w.from) { continue; }
      out := out + [Row(o.start, start, end, cancelled)];
    }
    assert occs[..|occs|] == occs;
  }

  lemma NoRows(ex: Exceptions, w: Window, includeCancelled: bool)
    ensures Rows([], ex, w, includeCancelled) == []
  {
  }

  lemma RowsGrow(q: seq<Occurrence>, i: nat, ex: Exceptions, w: Window, includeCancelled: bool)
    requires i < |q|
    ensures Rows(q[..i + 1], ex, w, includeCancelled) ==
            Rows(q[..i], ex, w, includeCancelled) +
            if Visible(RowOf(ex, q[i]), w, includeCancelled) then [RowOf(ex, q[i])] else []
  {
    assert q[..i + 1][..i] == q[..i];
  }

  lemma ExpandedIsAll(s: Series, w: Window, occs: seq<Occurrence>)
    requires SoundSeries(s)
    requires s.rule.None? ==>
               occs == if s.startsAt < w.to && s.endsAt > w.from then [Occurrence(s.startsAt, s.endsAt)] else []
    requires s.rule.Some? && ValidRule(s.rule.value) && ModernSeries(s) ==>
               occs == First(LIMIT, Overlapping(s, w, SeriesStarts(s, s.rule.value)))
    ensures occs == First(LIMIT, Overlapping(s, w, AllStarts(s)))
  {
    OneOccurrence(s, w);
    hide Overlapping, First, SeriesStarts, ModernSeries, ValidRule;
  }

  lemma OneOccurrence(s: Series, w: Window)
    ensures s.rule.None? ==> First(LIMIT, Overlapping(s, w, AllStarts(s))) ==
                             if s.startsAt < w.to && s.endsAt > w.from then [Occurrence(s.startsAt, s.endsAt)] else []
  {
    hide SeriesStarts;
  }

  lemma {:induction false} RowsHave(q: seq<Occurrence>, ex: Exceptions, w: Window, includeCancelled: bool,
                                    o: Occurrence)
    requires forall p :: p in q && p.start == o.start ==> p == o
    ensures RowOf(ex, o) in Rows(q, ex, w, includeCancelled) <==> o in q && Visible(RowOf(ex, o), w, includeCancelled)
  {
    if q != [] {
      var init, last := q[..|q| - 1], q[|q| - 1];
      assert q == init + [last];
      RowsHave(init, ex, w, includeCancelled, o);
    }
  }

  function Original(s: Series, start: int): Occurrence {
    Occurrence(start, start + (s.endsAt - s.startsAt))
  }

  /** An occurrence of the series is shown exactly when its changed times overlap the window, its original ones the
      widened window, and the query lets the event through. */
  lemma ShownExactly(s: Series, ex: Exceptions, w: Window, includeCancelled: bool, start: int)
    requires SoundSeries(s) && start in AllStarts(s) && |Overlapping(s, Widened(w), AllStarts(s))| <= LIMIT
    ensures var o, row := Original(s, start), RowOf(ex, Original(s, start));
            row in CalendarRows(s, ex, w, includeCancelled) <==>
              && Visible(row, w, includeCancelled)
              && o.start < w.to + MARGIN && o.end > w.from - MARGIN
              && s.startsAt < w.to && (StoredEnd(s).Some? ==> StoredEnd(s).value > w.from)
  {
    hide SoundSeries, AllStarts, Overlapping, StoredEnd;
    var o := Original(s, start);
    var q := Overlapping(s, Widened(w), AllStarts(s));
    forall p | p in q && p.start == o.start ensures p == o {
      OverlappingHas(s, Widened(w), AllStarts(s), p);
    }
    OverlappingHas(s, Widened(w), AllStarts(s), o);
    RowsHave(q, ex, w, includeCancelled, o);
  }

  /** So a change of at most two weeks that stays within the series' own start and its stored end is always found. */
  lemma SmallMoveShown(s: Series, ex: Exceptions, w: Window, includeCancelled: bool, start: int)
    requires SoundSeries(s) && start in AllStarts(s) && |Overlapping(s, Widened(w), AllStarts(s))| <= LIMIT
    requires var o, row := Original(s, start), RowOf(ex, Original(s, start));
             && o.start - MARGIN <= row.start && row.end <= o.end + MARGIN
             && s.startsAt <= row.start && (StoredEnd(s).Some? ==> row.end <= StoredEnd(s).value)
    ensures var row := RowOf(ex, Original(s, start));
            row in CalendarRows(s, ex, w, includeCancelled) <==> Visible(row, w, includeCancelled)
  {
    ShownExactly(s, ex, w, includeCancelled, start);
  }

  /** An occurrence with its times unchanged is shown exactly when it overlaps the window and the stored end lies after
      the window's start, which is always so for a series of at most a thousand occurrences. */
  lemma UnmovedShown(s: Series, ex: Exceptions, w: Window, includeCancelled: bool, start: int)
    requires SoundSeries(s) && start in AllStarts(s) && |Overlapping(s, Widened(w), AllStarts(s))| <= LIMIT
    requires start in ex ==> ex[start].startsAt.None? && ex[start].endsAt.None?
    ensures var row := RowOf(ex, Original(s, start));
            row in CalendarRows(s, ex, w, includeCancelled) <==>
              Visible(row, w, includeCancelled) && (StoredEnd(s).Some? ==> StoredEnd(s).value > w.from)
    ensures StartsWithin(AllStarts(s), s.startsAt, LAST_INSTANT) && |AllStarts(s)| <= MAX_COUNT ==>
              (StoredEnd(s).Some? ==> Original(s, start).end <= StoredEnd(s).value)
  {
    hide StoredEnd, Overlapping;
    ShownExactly(s, ex, w, includeCancelled, start);
    NotBeforeStart(s, start);
    if StartsWithin(AllStarts(s), s.startsAt, LAST_INSTANT) && |AllStarts(s)| <= MAX_COUNT {
      EndIsStored(s, start);
    }
  }

  lemma NotBeforeStart(s: Series, start: int)
    requires SoundSeries(s) && start in AllStarts(s)
    ensures start >= s.startsAt
  {
    hide SeriesStarts, ModernSeries, ValidRule;
    if s.rule.Some? {
      SeriesIncreases(s, s.rule.value);
    }
  }

  lemma EndIsStored(s: Series, start: int)
    requires SoundSeries(s) && start in AllStarts(s)
    requires StartsWithin(AllStarts(s), s.startsAt, LAST_INSTANT) && |AllStarts(s)| <= MAX_COUNT
    ensures StoredEnd(s).Some? ==> Original(s, start).end <= StoredEnd(s).value
  {
    hide SeriesStarts, ModernSeries, ValidRule, Scan, CandidateStarts, LastEnd, StartsWithin;
    if s.rule.Some? {
      SeriesEndBounds(s, s.rule.value);
    }
  }

  /** The query is felt: in UTC, of an hour's meeting each Monday from 9 March 2026, three times, the first is brought
      forward to Friday 6 March; the week before the 9th does not show it. */
  lemma MovedBeforeStartIsMissed()
    ensures var start, day := 1_773_050_400_000, DAY_MS;
            var s := Series(start, start + 3_600_000, (t: int) => 0, Some(Rule(Weekly, 1, Some(3), None, None)));
            var ex := map[start := Exception(false, Some(start - 3 * day), Some(start - 3 * day + 3_600_000))];
            var w := Window(start - 10 * 3_600_000 - 7 * day, start - 10 * 3_600_000);
            && SoundSeries(s) && start in AllStarts(s)
            && Visible(RowOf(ex, Original(s, start)), w, false)
            && CalendarRows(s, ex, w, false) == []
  {
    var start := 1_773_050_400_000;
    var rule := Rule(Weekly, 1, Some(3), None, None);
    var s := Series(start, start + 3_600_000, (t: int) => 0, Some(rule));
    hide SeriesStarts, StoredEnd, AllStarts, SoundSeries, Overlapping, Rows, First;
    FirstIsStart(s, rule);
  }

  lemma FirstIsStart(s: Series, r: Rule)
    requires s.rule == Some(r) && r.freq == Weekly && ValidRule(r) && r.byDay.None? && r.until.None?
    requires s.endsAt > s.startsAt >= (FIRST_DAY + 12) * DAY_MS && forall t: int :: s.zone(t) == 0
    ensures SoundSeries(s) && s.startsAt in AllStarts(s)
  {
    hide StartAt, SeriesStarts, Number, ClockAt, MonthLength;
    StartBelongs(s, r, 0, 0, 0);
  }

  // -------------------------------------------------------------------------
  // What the rows say
  // -------------------------------------------------------------------------

  lemma {:induction false} RowsFrom(q: seq<Occurrence>, ex: Exceptions, w: Window, includeCancelled: bool, row: Row)
    ensures row in Rows(q, ex, w, includeCancelled) ==>
              exists o :: o in q && row == RowOf(ex, o) && Visible(row, w, includeCancelled)
  {
    if q != [] && row in Rows(q, ex, w, includeCancelled) {
      var init, last := q[..|q| - 1], q[|q| - 1];
      RowsFrom(init, ex, w, includeCancelled, row);
      assert q == init + [last];
      if row in Rows(init, ex, w, includeCancelled) {
        var o :| o in init && row == RowOf(ex, o) && Visible(row, w, includeCancelled);
        assert o in q;
      } else {
        assert last in q && row == RowOf(ex, last);
      }
    }
  }

  /** A row belongs to the occurrence of the series that starts at its original time, with the times and the state it
      was given by a change, and otherwise with the series' own. */
  predicate Tells(s: Series, ex: Exceptions, row: Row) {
    var duration := s.endsAt - s.startsAt;
    if row.original in ex then
      && row.cancelled == ex[row.original].cancelled
      && (match ex[row.original].startsAt
          case Some(start) => row.start == start
          case None => row.start == row.original)
      && (match ex[row.original].endsAt
          case Some(end) => row.end == end
          case None => row.end == row.original + duration)
    else row.start == row.original && row.end == row.original + duration && !row.cancelled
  }

  /** Every row shown tells of an occurrence of the series, in its changed times; those times overlap the window; and a
      cancelled one is there only if cancelled ones were asked for. */
  lemma RowsTell(s: Series, ex: Exceptions, w: Window, includeCancelled: bool, row: Row)
    requires row in CalendarRows(s, ex, w, includeCancelled)
    ensures row.original in AllStarts(s) && Tells(s, ex, row)
    ensures row.start < w.to && row.end > w.from && (row.cancelled ==> includeCancelled)
  {
    hide AllStarts, Overlapping, InQuery;
    var q := Overlapping(s, Widened(w), AllStarts(s));
    RowsFrom(First(LIMIT, q), ex, w, includeCancelled, row);
    var o :| o in First(LIMIT, q) && row == RowOf(ex, o) && Visible(row, w, includeCancelled);
    OverlappingHas(s, Widened(w), AllStarts(s), o);
  }

  /** And every occurrence is told as it should be: a row for it is shown, under the conditions of ShownExactly, in its
      changed times, a cancelled one exactly on request. */
  lemma ChangedShown(s: Series, ex: Exceptions, w: Window, includeCancelled: bool, start: int, row: Row)
    requires SoundSeries(s) && start in AllStarts(s) && |Overlapping(s, Widened(w), AllStarts(s))| <= LIMIT
    requires row.original == start && Tells(s, ex, row)
    requires InQuery(s, StoredEnd(s), w)
    requires start < w.to + MARGIN && start + (s.endsAt - s.startsAt) > w.from - MARGIN
    ensures row in CalendarRows(s, ex, w, includeCancelled) <==>
              row.start < w.to && row.end > w.from && (row.cancelled ==> includeCancelled)
  {
    hide SoundSeries, AllStarts, Overlapping, StoredEnd, CalendarRows;
    assert row == RowOf(ex, Original(s, start));
    ShownExactly(s, ex, w, includeCancelled, start);
  }
}

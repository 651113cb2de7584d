/** Event reminders: the next lead time of a series, and the roll-forward of one reminder through concurrent,
    failing and repeated firings. */
module Reminders {
  import opened Wrappers
  import opened Recurrence
  import opened Calendar
  import opened RollForward

  // -------------------------------------------------------------------------
  // The next lead time
  // -------------------------------------------------------------------------

  /** An occurrence that was cancelled, or moved to another start or end. */
  datatype Exception = Exception(cancelled: bool, startsAt: Option<int>, endsAt: Option<int>)

  type Exceptions = map<int, Exception>

  const HORIZON := 400 * DAY_MS
  const SCAN_LIMIT := 50

  predicate Cancelled(ex: Exceptions, start: int) {
    start in ex && ex[start].cancelled
  }

  function ActualStart(ex: Exceptions, start: int): int {
    if start in ex then ex[start].startsAt.GetOr(start) else start
  }

  function FirstAfter(q: seq<Occurrence>, ex: Exceptions, lead: int, after: int): Option<int> {
    if q == [] then None
    else if !Cancelled(ex, q[0].start) && ActualStart(ex, q[0].start) - lead > after
      then Some(ActualStart(ex, q[0].start) - lead)
    else FirstAfter(q[1..], ex, lead, after)
  }

  /** Every start of the series; an event without a rule has its own. */
  function AllStarts(s: Series): seq<int> {
    if s.rule.None? then [s.startsAt] else SeriesStarts(s, s.rule.value)
  }

  function LeadWindow(lead: int, after: int): Window {
    Window(after + lead, after + lead + HORIZON)
  }

  /** The occurrences overlapping the window that the search looks at. */
  function Ahead(s: Series, lead: int, after: int): seq<Occurrence> {
    Overlapping(s, LeadWindow(lead, after), AllStarts(s))
  }

  function NextTime(s: Series, ex: Exceptions, lead: int, after: int): Option<int> {
    FirstAfter(First(SCAN_LIMIT, Ahead(s, lead, after)), ex, lead, after)
  }

  ghost predicate SoundSeries(s: Series) {
    s.endsAt > s.startsAt && ModernSeries(s) && (s.rule.Some? ==> ValidRule(s.rule.value))
  }

  method NextReminderTime(s: Series, ex: Exceptions, minutes: int, after: int) returns (next: Option<int>)
    requires SoundSeries(s)
    ensures next == NextTime(s, ex, minutes * 60_000, after)
  {
    hide SeriesStarts, ModernSeries, ValidRule, Scan, CandidateStarts, FirstAfter;
    var lead := minutes * 60_000;
    var occurrences := ExpandOccurrences(s, Window(after + lead, after + lead + HORIZON), SCAN_LIMIT);
    SingleOccurrence(s, LeadWindow(lead, after));
    next := SearchFrom(occurrences, ex, lead, after);
  }

  method SearchFrom(occurrences: seq<Occurrence>, ex: Exceptions, lead: int, after: int) returns (next: Option<int>)
    ensures next == FirstAfter(occurrences, ex, lead, after)
  {
    var i := 0;
    while i < |occurrences|
      invariant 0 <= i <= |occurrences|
      invariant FirstAfter(occurrences, ex, lead, after) == FirstAfter(occurrences[i..], ex, lead, after)
    {
      var start := occurrences[i].start;
      if !(start in ex && ex[start].cancelled) {
        var at := (if start in ex && ex[start].startsAt.Some? then ex[start].startsAt.value else start) - lead;
        if at > after {
          return Some(at);
        }
      }
      i := i + 1;
    }
    return None;
  }

  lemma SingleOccurrence(s: Series, w: Window)
    ensures s.rule.None? ==> First(SCAN_LIMIT, Overlapping(s, w, AllStarts(s))) ==
                             if s.startsAt < w.to && s.endsAt > w.from then [Occurrence(s.startsAt, s.endsAt)] else []
  {
    hide SeriesStarts;
  }

  /** A time at which the reminder ought to fire: the lead time of an occurrence that was not cancelled. */
  ghost predicate LeadTime(s: Series, ex: Exceptions, lead: int, at: int) {
    at + lead in AllStarts(s) && !Cancelled(ex, at + lead)
  }

  ghost predicate NoneMoved(ex: Exceptions) {
    forall start :: start in ex && !ex[start].cancelled ==> ex[start].startsAt.None?
  }

  ghost predicate Sorted(q: seq<Occurrence>) {
    forall i, j :: 0 <= i < j < |q| ==> q[i].start < q[j].start
  }

  /** What the search returns is the first suitable entry of the list; without moved occurrences, the least. */
  lemma {:induction false} FirstAfterIsFirst(q: seq<Occurrence>, ex: Exceptions, lead: int, after: int)
    requires NoneMoved(ex) && Sorted(q)
    ensures match FirstAfter(q, ex, lead, after)
            case Some(at) =>
              && at > after && (exists i :: 0 <= i < |q| && q[i].start == at + lead) && !Cancelled(ex, at + lead)
              && forall i :: 0 <= i < |q| && !Cancelled(ex, q[i].start) && q[i].start - lead > after ==>
                   at + lead <= q[i].start
            case None => forall i :: 0 <= i < |q| ==> Cancelled(ex, q[i].start) || q[i].start - lead <= after
  {
    if q != [] {
      FirstAfterIsFirst(q[1..], ex, lead, after);
      var rest := FirstAfter(q[1..], ex, lead, after);
      if rest.Some? {
        var i :| 0 <= i < |q[1..]| && q[1..][i].start == rest.value + lead;
        assert q[i + 1].start == rest.value + lead;
      }
      forall i | 0 < i < |q| ensures q[i] == q[1..][i - 1] {
      }
    }
  }

  ghost predicate Listed(q: seq<Occurrence>, start: int) {
    exists i :: 0 <= i < |q| && q[i].start == start
  }

  /** q lists, in order, starts that include every one whose lead time comes within the horizon, and none later. */
  ghost predicate Covers(q: seq<Occurrence>, starts: seq<int>, lead: int, after: int) {
    && Sorted(q)
    && (forall i :: 0 <= i < |q| ==> q[i].start in starts && q[i].start - lead < after + HORIZON)
    && (forall x :: x in starts && after < x - lead < after + HORIZON ==> Listed(q, x))
  }

  lemma AheadCovers(s: Series, lead: int, after: int)
    requires SoundSeries(s)
    ensures Covers(Ahead(s, lead, after), AllStarts(s), lead, after)
  {
    var starts, w, q := AllStarts(s), LeadWindow(lead, after), Ahead(s, lead, after);
    if s.rule.Some? {
      hide SeriesStarts, ModernSeries, ValidRule, Overlapping;
      SeriesIncreases(s, s.rule.value);
    }
    hide SeriesStarts, ModernSeries, ValidRule, Overlapping;
    OverlappingIncreases(s, w, starts);
    forall i | 0 <= i < |q| ensures q[i].start in starts && q[i].start < w.to {
      OverlappingHas(s, w, starts, q[i]);
    }
    forall x | x in starts && after < x - lead < after + HORIZON ensures Listed(q, x) {
      var o := Occurrence(x, x + (s.endsAt - s.startsAt));
      OverlappingHas(s, w, starts, o);
      var i :| 0 <= i < |q| && q[i] == o;
    }
  }

  /** The search over the scanned part of the list passes over nothing but cancelled occurrences. */
  lemma ScanSkipsNone(q: seq<Occurrence>, ex: Exceptions, lead: int, after: int, start: int)
    requires NoneMoved(ex) && Sorted(q) && FirstAfter(First(SCAN_LIMIT, q), ex, lead, after).Some? && Listed(q, start)
    requires after < start - lead < FirstAfter(First(SCAN_LIMIT, q), ex, lead, after).value
    ensures Cancelled(ex, start)
  {
    var scanned := First(SCAN_LIMIT, q);
    FirstAfterIsFirst(scanned, ex, lead, after);
    var i :| 0 <= i < |q| && q[i].start == start;
    var k :| 0 <= k < |scanned| && scanned[k].start == FirstAfter(scanned, ex, lead, after).value + lead;
    assert scanned[k] == q[k];
    assert i < k;
    assert scanned[i] == q[i];
  }

  lemma FoundIsListed(q: seq<Occurrence>, starts: seq<int>, ex: Exceptions, lead: int, after: int)
    requires NoneMoved(ex) && Covers(q, starts, lead, after) && FirstAfter(First(SCAN_LIMIT, q), ex, lead, after).Some?
    ensures var at := FirstAfter(First(SCAN_LIMIT, q), ex, lead, after).value;
            after < at < after + HORIZON && at + lead in starts && !Cancelled(ex, at + lead)
  {
    var scanned := First(SCAN_LIMIT, q);
    FirstAfterIsFirst(scanned, ex, lead, after);
    var at := FirstAfter(scanned, ex, lead, after).value;
    var k :| 0 <= k < |scanned| && scanned[k].start == at + lead;
    assert scanned[k] == q[k];
  }

  ghost predicate NoLeadTime(s: Series, ex: Exceptions, lead: int, from: int, to: int) {
    forall u :: from < u < to ==> !LeadTime(s, ex, lead, u)
  }

  /** Whatever is found is the next lead time: after the given instant, with no other in between. */
  lemma NextIsNext(s: Series, ex: Exceptions, lead: int, after: int)
    requires SoundSeries(s) && NoneMoved(ex) && NextTime(s, ex, lead, after).Some?
    ensures var next := NextTime(s, ex, lead, after).value;
            && after < next && LeadTime(s, ex, lead, next)
            && NoLeadTime(s, ex, lead, after, next)
  {
    hide SoundSeries, AllStarts, Ahead, Covers, Cancelled, First, FirstAfter, NoneMoved, NoLeadTime;
    var q := Ahead(s, lead, after);
    AheadCovers(s, lead, after);
    FoundIsListed(q, AllStarts(s), ex, lead, after);
    NoneBefore(s, ex, lead, after, q);
  }

  lemma NoneBefore(s: Series, ex: Exceptions, lead: int, after: int, q: seq<Occurrence>)
    requires NoneMoved(ex) && Covers(q, AllStarts(s), lead, after)
    requires FirstAfter(First(SCAN_LIMIT, q), ex, lead, after).Some?
    requires FirstAfter(First(SCAN_LIMIT, q), ex, lead, after).value < after + HORIZON
    ensures NoLeadTime(s, ex, lead, after, FirstAfter(First(SCAN_LIMIT, q), ex, lead, after).value)
  {
    hide AllStarts, FirstAfter, First, Cancelled, Listed, NoneMoved, Sorted;
    forall u | after < u < FirstAfter(First(SCAN_LIMIT, q), ex, lead, after).value ensures !LeadTime(s, ex, lead, u) {
      if u + lead in AllStarts(s) {
        ScanSkipsNone(q, ex, lead, after, u + lead);
      }
    }
  }

  /** When no more occurrences than the scan limit overlap the window, nothing is found exactly when no lead time
      comes within the horizon. */
  lemma NoneIsNone(s: Series, ex: Exceptions, lead: int, after: int)
    requires SoundSeries(s) && NoneMoved(ex) && |Ahead(s, lead, after)| <= SCAN_LIMIT
    ensures NextTime(s, ex, lead, after).None? <==> NoLeadTime(s, ex, lead, after, after + HORIZON)
  {
    hide SoundSeries, AllStarts, Ahead, FirstAfter, Cancelled, NoneMoved;
    var q := Ahead(s, lead, after);
    AheadCovers(s, lead, after);
    FirstAfterIsFirst(q, ex, lead, after);
    hide Covers, Sorted;
    if NextTime(s, ex, lead, after).Some? {
      FoundIsListed(q, AllStarts(s), ex, lead, after);
      assert LeadTime(s, ex, lead, NextTime(s, ex, lead, after).value);
    } else {
      hide NoLeadTime;
      NoneWithin(s, ex, lead, after, q);
    }
  }

  lemma NoneWithin(s: Series, ex: Exceptions, lead: int, after: int, q: seq<Occurrence>)
    requires Covers(q, AllStarts(s), lead, after)
    requires forall i :: 0 <= i < |q| ==> Cancelled(ex, q[i].start) || q[i].start - lead <= after
    ensures NoLeadTime(s, ex, lead, after, after + HORIZON)
  {
    hide AllStarts, Cancelled, Sorted;
    forall u | after < u < after + HORIZON ensures !LeadTime(s, ex, lead, u) {
      if u + lead in AllStarts(s) {
        assert Listed(q, u + lead);
      }
    }
  }

  lemma FoundOnList(scanned: seq<Occurrence>, ex: Exceptions, lead: int, after: int)
    requires NoneMoved(ex) && Sorted(scanned)
    ensures FirstAfter(scanned, ex, lead, after).Some? <==>
            exists i :: 0 <= i < |scanned| && !Cancelled(ex, scanned[i].start) && scanned[i].start - lead > after
  {
    FirstAfterIsFirst(scanned, ex, lead, after);
    if FirstAfter(scanned, ex, lead, after).Some? {
      var k :| 0 <= k < |scanned| && scanned[k].start == FirstAfter(scanned, ex, lead, after).value + lead;
      assert !Cancelled(ex, scanned[k].start) && scanned[k].start - lead > after;
    }
  }

  /** In general something is found exactly when one of the first fifty overlapping occurrences is still to come
      and was not cancelled. */
  lemma FoundExactly(s: Series, ex: Exceptions, lead: int, after: int)
    requires SoundSeries(s) && NoneMoved(ex)
    ensures var scanned := First(SCAN_LIMIT, Ahead(s, lead, after));
            NextTime(s, ex, lead, after).Some? <==>
            exists i :: 0 <= i < |scanned| && !Cancelled(ex, scanned[i].start) && scanned[i].start - lead > after
  {
    hide SoundSeries, AllStarts, FirstAfter, Cancelled, Ahead;
    AheadCovers(s, lead, after);
    FoundOnList(First(SCAN_LIMIT, Ahead(s, lead, after)), ex, lead, after);
  }

  // -------------------------------------------------------------------------
  // A reminder of a series, over every run of firings
  // -------------------------------------------------------------------------

  function Following(s: Series, ex: Exceptions, lead: int): int -> Option<int> {
    (after: int) => NextTime(s, ex, lead, after)
  }

  lemma FollowingIsLater(s: Series, ex: Exceptions, lead: int)
    requires SoundSeries(s) && NoneMoved(ex)
    ensures Later(Following(s, ex, lead))
  {
    hide SoundSeries, NextTime, NoneMoved, NoLeadTime;
    forall at: int | Following(s, ex, lead)(at).Some? ensures Following(s, ex, lead)(at).value > at {
      NextIsNext(s, ex, lead, at);
    }
  }

  /** Each notice is for a lead time, and every lead time up to it has its notice. */
  lemma {:induction false} NoticesCoverLeadTimes(s: Series, ex: Exceptions, lead: int, created: int,
                                                 notices: seq<Notice>, k: nat)
    requires SoundSeries(s) && NoneMoved(ex) && NextTime(s, ex, lead, created).Some? && k < |notices|
    requires FollowsChain(Following(s, ex, lead), NextTime(s, ex, lead, created).value, notices)
    ensures created < notices[k].at <= notices[k].now + 1000 && LeadTime(s, ex, lead, notices[k].at)
    ensures forall u :: LeadTime(s, ex, lead, u) && created < u <= notices[k].at ==> ToldOf(notices, u)
  {
    hide SoundSeries, NextTime, NoneMoved, LeadTime, ToldOf;
    assert Entry(Following(s, ex, lead), NextTime(s, ex, lead, created).value, notices, k);
    ToldAt(notices, k);
    if k == 0 {
      NextIsNext(s, ex, lead, created);
    } else {
      NoticesCoverLeadTimes(s, ex, lead, created, notices, k - 1);
      NextIsNext(s, ex, lead, notices[k - 1].at);
    }
  }

  ghost predicate ToldOf(notices: seq<Notice>, at: int) {
    exists i :: 0 <= i < |notices| && notices[i].at == at
  }

  lemma ToldAt(notices: seq<Notice>, k: nat)
    requires k < |notices|
    ensures ToldOf(notices, notices[k].at)
  {
  }

  /** The notices are for lead times of occurrences not cancelled, strictly in order, one for each, none made more
      than a second early, and no lead time is skipped on the way to the last. */
  ghost predicate Visits(s: Series, ex: Exceptions, lead: int, created: int, n: seq<Notice>) {
    && (forall i, j :: 0 <= i < j < |n| ==> n[i].at < n[j].at)
    && (forall i :: 0 <= i < |n| ==> created < n[i].at <= n[i].now + 1000 && LeadTime(s, ex, lead, n[i].at))
    && (n != [] ==> forall u :: LeadTime(s, ex, lead, u) && created < u <= n[|n| - 1].at ==> ToldOf(n, u))
  }

  lemma ChainVisits(s: Series, ex: Exceptions, lead: int, created: int, n: seq<Notice>)
    requires SoundSeries(s) && NoneMoved(ex) && NextTime(s, ex, lead, created).Some?
    requires FollowsChain(Following(s, ex, lead), NextTime(s, ex, lead, created).value, n)
    requires forall i, j :: 0 <= i < j < |n| ==> n[i].at < n[j].at
    ensures Visits(s, ex, lead, created, n)
  {
    hide SoundSeries, NextTime, NoneMoved, LeadTime, ToldOf, FollowsChain, Following;
    forall k | 0 <= k < |n| ensures created < n[k].at <= n[k].now + 1000 && LeadTime(s, ex, lead, n[k].at) {
      NoticesCoverLeadTimes(s, ex, lead, created, n, k);
    }
    if n != [] {
      NoticesCoverLeadTimes(s, ex, lead, created, n, |n| - 1);
    }
  }

  /** Of the occurrences the search looks at, none is uncancelled and still to come. */
  ghost predicate NothingAhead(s: Series, ex: Exceptions, lead: int, after: int) {
    var scanned := First(SCAN_LIMIT, Ahead(s, lead, after));
    forall i :: 0 <= i < |scanned| ==> Cancelled(ex, scanned[i].start) || scanned[i].start - lead <= after
  }

  lemma FinishedExactly(s: Series, ex: Exceptions, lead: int, after: int)
    requires SoundSeries(s) && NoneMoved(ex)
    ensures NextTime(s, ex, lead, after).None? <==> NothingAhead(s, ex, lead, after)
    ensures |Ahead(s, lead, after)| <= SCAN_LIMIT ==>
              (NothingAhead(s, ex, lead, after) <==> NoLeadTime(s, ex, lead, after, after + HORIZON))
  {
    hide SoundSeries, NoneMoved, Ahead, Cancelled, NoLeadTime, NextTime;
    FoundExactly(s, ex, lead, after);
    if |Ahead(s, lead, after)| <= SCAN_LIMIT {
      NoneIsNone(s, ex, lead, after);
    }
  }

  /** Over every run of firings, errors, crashes and rebuilds the notices visit the lead times in order; and the
      reminder is finished only when none of the occurrences scanned after the last notice is uncancelled and still to
      come: for a search that sees all occurrences there, only when no lead time comes within the horizon. */
  lemma RemindersVisitLeadTimes(s: Series, ex: Exceptions, lead: int, created: int, steps: seq<Step>)
    requires SoundSeries(s) && NoneMoved(ex) && NextTime(s, ex, lead, created).Some?
    ensures var end := Run(Following(s, ex, lead), Created(NextTime(s, ex, lead, created).value), steps);
            var n := end.notices;
            && Visits(s, ex, lead, created, n)
            && (end.status.Sent? ==> n != [] && NothingAhead(s, ex, lead, n[|n| - 1].at))
            && (end.status.Sent? && |Ahead(s, lead, n[|n| - 1].at)| <= SCAN_LIMIT ==>
                  NoLeadTime(s, ex, lead, n[|n| - 1].at, n[|n| - 1].at + HORIZON))
  {
    var next, first := Following(s, ex, lead), NextTime(s, ex, lead, created).value;
    hide Run, SoundSeries, NextTime, NoneMoved, LeadTime, Ahead, Visits, Later, FollowsChain, Created, NoLeadTime,
         NothingAhead;
    FollowingIsLater(s, ex, lead);
    NoticesFollowChain(next, first, steps);
    var end := Run(next, Created(first), steps);
    ChainVisits(s, ex, lead, created, end.notices);
    if end.status.Sent? {
      FinishedExactly(s, ex, lead, end.notices[|end.notices| - 1].at);
    }
  }

  /** So an uncancelled occurrence still to come, among those scanned after the last notice, keeps the reminder
      going. */
  lemma NotFinishedEarly(s: Series, ex: Exceptions, lead: int, created: int, steps: seq<Step>, i: nat)
    requires SoundSeries(s) && NoneMoved(ex) && NextTime(s, ex, lead, created).Some?
    requires var n := Run(Following(s, ex, lead), Created(NextTime(s, ex, lead, created).value), steps).notices;
             n != [] &&
             var last := n[|n| - 1].at;
             var scanned := First(SCAN_LIMIT, Ahead(s, lead, last));
             i < |scanned| && !Cancelled(ex, scanned[i].start) && scanned[i].start - lead > last
    ensures !Run(Following(s, ex, lead), Created(NextTime(s, ex, lead, created).value), steps).status.Sent?
  {
    hide SoundSeries, NextTime, NoneMoved, Run, Created, Following, Ahead, Visits, NoLeadTime, First, Cancelled;
    RemindersVisitLeadTimes(s, ex, lead, created, steps);
  }

  // -------------------------------------------------------------------------
  // Moved occurrences
  // -------------------------------------------------------------------------

  /** An occurrence the search can take: not cancelled, and its start, or the one it was moved to, still further off
      than the lead. */
  predicate Suitable(ex: Exceptions, start: int, lead: int, after: int, at: int) {
    && !(start in ex && ex[start].cancelled)
    && at == (if start in ex && ex[start].startsAt.Some? then ex[start].startsAt.value else start) - lead
    && at > after
  }

  /** The i-th occurrence is the first suitable one. */
  ghost predicate FirstAt(q: seq<Occurrence>, ex: Exceptions, lead: int, after: int, at: int, i: nat) {
    && i < |q| && Suitable(ex, q[i].start, lead, after, at)
    && forall j, other :: 0 <= j < i ==> !Suitable(ex, q[j].start, lead, after, other)
  }

  lemma {:induction false} FirstSuitable(q: seq<Occurrence>, ex: Exceptions, lead: int, after: int, at: int)
    ensures FirstAfter(q, ex, lead, after) == Some(at) <==> exists i: nat :: FirstAt(q, ex, lead, after, at, i)
  {
    if q != [] {
      FirstSuitable(q[1..], ex, lead, after, at);
      var own := ActualStart(ex, q[0].start) - lead;
      if Suitable(ex, q[0].start, lead, after, own) {
        assert own == at ==> FirstAt(q, ex, lead, after, at, 0);
      } else {
        hide Suitable;
        FirstInRest(q, ex, lead, after, at);
      }
    }
  }

  lemma FirstInRest(q: seq<Occurrence>, ex: Exceptions, lead: int, after: int, at: int)
    requires q != [] && forall other :: !Suitable(ex, q[0].start, lead, after, other)
    ensures (exists i: nat :: FirstAt(q, ex, lead, after, at, i)) <==>
            (exists i: nat :: FirstAt(q[1..], ex, lead, after, at, i))
  {
    hide Suitable;
    if i: nat :| FirstAt(q, ex, lead, after, at, i) {
      assert i > 0 && q[1..][i - 1] == q[i];
      assert FirstAt(q[1..], ex, lead, after, at, i - 1);
    }
    if i: nat :| FirstAt(q[1..], ex, lead, after, at, i) {
      forall j, other | 0 <= j < i + 1 ensures !Suitable(ex, q[j].start, lead, after, other) {
        if j > 0 { assert q[j] == q[1..][j - 1]; }
      }
      assert FirstAt(q, ex, lead, after, at, i + 1);
    }
  }

  /** With moved occurrences too, the time found is the start of the first suitable one of the occurrences scanned, as
      moved, less the lead; nothing is found exactly when none is suitable. */
  lemma FoundAsMoved(s: Series, ex: Exceptions, lead: int, after: int, at: int)
    ensures NextTime(s, ex, lead, after) == Some(at) <==>
            var q := First(SCAN_LIMIT, Ahead(s, lead, after));
            exists i: nat :: FirstAt(q, ex, lead, after, at, i)
  {
    hide Ahead, First;
    FirstSuitable(First(SCAN_LIMIT, Ahead(s, lead, after)), ex, lead, after, at);
  }
}

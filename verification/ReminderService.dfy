/** The reminder index and the firing of one reminder, as they run. */
module ReminderService {
  import opened Wrappers
  import opened Recurrence
  import opened RollForward
  import Reminders

  type Key = string

  /** The shared sorted set of due times. */
  class ReminderIndex {
    var scores: map<Key, int>

    constructor ()
      ensures scores == map[]
    {
      scores := map[];
    }

    /** zrem: reports whether the member was there. */
    method Remove(key: Key) returns (removed: bool)
      modifies this
      ensures removed <==> key in old(scores)
      ensures scores == old(scores) - {key}
    {
      removed := key in scores;
      scores := scores - {key};
    }

    /** The due members, earliest first, no more than limit of them; those left out are not earlier. */
    ghost predicate EarliestDue(s: map<Key, int>, now: int, limit: nat, members: seq<Key>) {
      && |members| <= limit
      && (forall i :: 0 <= i < |members| ==> members[i] in s && s[members[i]] <= now)
      && (forall i, j :: 0 <= i < j < |members| ==> members[i] != members[j] && s[members[i]] <= s[members[j]])
      && (forall key :: key in s && s[key] <= now && key !in members ==>
            |members| == limit && forall i :: 0 <= i < |members| ==> s[members[i]] <= s[key])
    }

    /** zrangebyscore */
    method DueMembers(now: int, limit: nat) returns (members: seq<Key>)
      ensures EarliestDue(scores, now, limit, members)
    {
      members := [];
      var rest := set key | key in scores && scores[key] <= now;
      while rest != {} && |members| < limit
        invariant |members| <= limit && LowestFirst(scores, now, members, rest)
        decreases |rest|
      {
        LowestExists(scores, rest);
        var key :| key in rest && forall other :: other in rest ==> scores[key] <= scores[other];
        LowestFurther(scores, now, members, rest, key);
        members := members + [key];
        rest := rest - {key};
      }
    }

    method ClaimDue(now: int, limit: nat) returns (claimed: seq<Key>)
      modifies this
      ensures EarliestDue(old(scores), now, limit, claimed)
      ensures scores == old(scores) - set key | key in claimed
    {
      var members := DueMembers(now, limit);
      claimed := [];
      for i := 0 to |members|
        invariant claimed == members[..i]
        invariant scores == old(scores) - set key | key in claimed
      {
        assert members[i] !in claimed;
        var removed := Remove(members[i]);
        if removed {
          claimed := claimed + [members[i]];
        }
      }
    }
  }

  /** The due members so far, in order, no later than any that is left. */
  ghost predicate LowestFirst(s: map<Key, int>, now: int, members: seq<Key>, rest: set<Key>) {
    && (forall key :: key in rest ==> key in s && s[key] <= now)
    && (forall key :: key in members ==> key in s && s[key] <= now && key !in rest)
    && (forall key :: key in s && s[key] <= now ==> key in rest || key in members)
    && (forall i, j :: 0 <= i < j < |members| ==> members[i] != members[j] && s[members[i]] <= s[members[j]])
    && (forall i, key :: 0 <= i < |members| && key in rest ==> s[members[i]] <= s[key])
  }

  lemma LowestFurther(s: map<Key, int>, now: int, members: seq<Key>, rest: set<Key>, key: Key)
    requires LowestFirst(s, now, members, rest) && key in rest
    requires forall other :: other in rest ==> s[key] <= s[other]
    ensures LowestFirst(s, now, members + [key], rest - {key})
  {
    assert forall i :: 0 <= i < |members| ==> members[i] in members;
    assert forall k :: k in members + [key] <==> k in members || k == key;
  }

  lemma {:induction false} LowestExists(s: map<Key, int>, keys: set<Key>)
    requires keys != {} && keys <= s.Keys
    ensures exists key :: key in keys && forall other :: other in keys ==> s[key] <= s[other]
    decreases |keys|
  {
    var key :| key in keys;
    if keys == {key} {
      assert forall other :: other in keys ==> s[key] <= s[other];
    } else {
      LowestExists(s, keys - {key});
      var low :| low in keys - {key} && forall other :: other in keys - {key} ==> s[low] <= s[other];
      var least := if s[low] <= s[key] then low else key;
      assert least in keys && forall other :: other in keys ==> s[least] <= s[other];
    }
  }

  /** One reminder of a series: its row, its index entry and the notifications made for it. */
  class Reminder {
    const series: Series
    const exceptions: Reminders.Exceptions
    const minutes: int
    var status: Status
    var remindAt: int
    var indexed: Option<int>
    var notices: seq<Notice>

    constructor (series: Series, exceptions: Reminders.Exceptions, minutes: int, first: int)
      ensures With(map[]) == Created(first)
      ensures this.series == series && this.exceptions == exceptions && this.minutes == minutes
    {
      this.series, this.exceptions, this.minutes := series, exceptions, minutes;
      status, remindAt, indexed, notices := Scheduled, first, Some(first), [];
    }

    function With(workers: map<nat, Worker>): State
      reads this
    {
      State(status, remindAt, indexed, workers, notices)
    }

    function Following(): int -> Option<int> {
      Reminders.Following(series, exceptions, minutes * 60_000)
    }

    /** An uninterrupted firing by worker w takes the steps of the protocol in this order. */
    method Fire(now: int, ghost w: nat) returns (fired: bool)
      requires Reminders.SoundSeries(series)
      modifies this
      ensures With(map[]) ==
              Run(Following(), old(With(map[w := Worker(now, Claimed)])), [Read(w), Notify(w), Roll(w), Requeue(w)])
      ensures fired <==> old(status) == Scheduled && old(remindAt) <= now + 1000
    {
      hide Reminders.SoundSeries, Reminders.NextTime;
      ghost var before := With(map[w := Worker(now, Claimed)]);
      RunFour(Following(), before, w);
      if status != Scheduled { return false; }
      if remindAt > now + 1000 {
        indexed := Some(remindAt);
        return false;
      }
      if !exists i :: 0 <= i < |notices| && notices[i].at == remindAt {
        notices := notices + [Notice(remindAt, now)];
      }
      var next := Reminders.NextReminderTime(series, exceptions, minutes, remindAt);
      if next.Some? {
        remindAt := next.value;
      } else {
        status := Sent;
      }
      if next.Some? {
        indexed := next;
      }
      return true;
    }
  }

  lemma RunFour(next: int -> Option<int>, s: State, w: nat)
    requires s.workers.Keys == {w} && s.workers[w].stage == Claimed
    ensures var now := s.workers[w].now;
            var told := if Told(s, s.remindAt) then s.notices else s.notices + [Notice(s.remindAt, now)];
            Run(next, s, [Read(w), Notify(w), Roll(w), Requeue(w)]) ==
              if s.status != Scheduled then s.(workers := map[])
              else if s.remindAt > now + 1000 then s.(workers := map[], indexed := Some(s.remindAt))
              else match next(s.remindAt)
                   case Some(later) => State(Scheduled, later, Some(later), map[], told)
                   case None => State(Sent, s.remindAt, s.indexed, map[], told)
  {
    var steps := [Read(w), Notify(w), Roll(w), Requeue(w)];
    var s1 := Next(next, s, Read(w));
    var s2 := Next(next, s1, Notify(w));
    var s3 := Next(next, s2, Roll(w));
    var s4 := Next(next, s3, Requeue(w));
    assert Run(next, s, steps) == s4 by {
      hide Next;
      assert steps[1..] == [Notify(w), Roll(w), Requeue(w)] && steps[1..][1..] == [Roll(w), Requeue(w)];
      assert steps[1..][1..][1..] == [Requeue(w)] && steps[1..][1..][1..][1..] == [];
      assert Run(next, s3, [Requeue(w)]) == s4;
      assert Run(next, s2, [Roll(w), Requeue(w)]) == s4;
    }
    assert s.workers - {w} == map[];
  }
}

/** The roll-forward of one event reminder: claimed from the index, fired, and set to the next lead time, by any
    number of workers at once, with errors, crashes and rebuilds of the index in between. */
module RollForward {
  import opened Wrappers

  /** How far a firing has come: the entry is claimed; the row is read and due; the user is notified; the row is
      rolled forward, with the index entry still to be written. */
  datatype Stage = Claimed | Due(at: int) | Notified(at: int) | Rolled(next: int)

  datatype Worker = Worker(now: int, stage: Stage)

  datatype Status = Scheduled | Sent | Dismissed

  /** A notification is identified by the reminder and the time it was for. */
  datatype Notice = Notice(at: int, now: int)

  /** The reminder's row, its score in the index, the firings under way, and the notifications made. */
  datatype State = State(status: Status, remindAt: int, indexed: Option<int>, workers: map<nat, Worker>,
                         notices: seq<Notice>)

  datatype Step =
    /** the periodic rebuild, working from rows read at any earlier time */
    | Reindex(at: int)
    | Claim(w: nat, now: int)
    | Read(w: nat)
    | Notify(w: nat)
    | Roll(w: nat)
    | Requeue(w: nat)
    /** an error at any stage: the entry goes back for the next minute */
    | Fail(w: nat)
    /** the process dies at any stage */
    | Crash(w: nat)
    | Dismiss

  function Goto(s: State, w: nat, stage: Stage): State
    requires w in s.workers
  {
    s.(workers := s.workers[w := s.workers[w].(stage := stage)])
  }

  function Drop(s: State, w: nat): State {
    s.(workers := s.workers - {w})
  }

  predicate Told(s: State, at: int) {
    exists i :: 0 <= i < |s.notices| && s.notices[i].at == at
  }

  function DoRead(s: State, w: nat): State
    requires w in s.workers
  {
    if s.status != Scheduled then Drop(s, w)
    else if s.remindAt > s.workers[w].now + 1000 then Drop(s, w).(indexed := Some(s.remindAt))
    else Goto(s, w, Due(s.remindAt))
  }

  /** The unique index on the dedupe key makes a second notification for one time a no-op. */
  function DoNotify(s: State, w: nat, at: int): State
    requires w in s.workers
  {
    var told := if Told(s, at) then s.notices else s.notices + [Notice(at, s.workers[w].now)];
    Goto(s, w, Notified(at)).(notices := told)
  }

  function DoRoll(next: int -> Option<int>, s: State, w: nat, at: int): State
    requires w in s.workers
  {
    match next(at)
    case Some(later) => Goto(s, w, Rolled(later)).(remindAt := later)
    case None => Drop(s, w).(status := Sent)
  }

  function Next(next: int -> Option<int>, s: State, step: Step): State {
    match step
    case Reindex(at) => s.(indexed := Some(at))
    case Claim(w, now) =>
      if s.indexed.Some? && s.indexed.value <= now && w !in s.workers
      then s.(indexed := None, workers := s.workers[w := Worker(now, Claimed)]) else s
    case Read(w) => if w in s.workers && s.workers[w].stage.Claimed? then DoRead(s, w) else s
    case Notify(w) => if w in s.workers && s.workers[w].stage.Due? then DoNotify(s, w, s.workers[w].stage.at) else s
    case Roll(w) =>
      if w in s.workers && s.workers[w].stage.Notified? then DoRoll(next, s, w, s.workers[w].stage.at) else s
    case Requeue(w) =>
      if w in s.workers && s.workers[w].stage.Rolled? then Drop(s, w).(indexed := Some(s.workers[w].stage.next)) else s
    case Fail(w) => if w in s.workers then Drop(s, w).(indexed := Some(s.workers[w].now + 60_000)) else s
    case Crash(w) => Drop(s, w)
    case Dismiss => s.(status := Dismissed, indexed := None)
  }

  function Run(next: int -> Option<int>, s: State, steps: seq<Step>): State
    decreases |steps|
  {
    if steps == [] then s else Run(next, Next(next, s, steps[0]), steps[1..])
  }

  /** Position p of the chain that starts at first: right after the p notices made so far. */
  predicate OnChain(next: int -> Option<int>, first: int, notices: seq<Notice>, p: nat, at: int)
    requires p <= |notices|
  {
    if p == 0 then at == first else next(notices[p - 1].at) == Some(at)
  }

  ghost predicate Reached(next: int -> Option<int>, first: int, notices: seq<Notice>, at: int) {
    exists p: nat :: p <= |notices| && OnChain(next, first, notices, p, at)
  }

  predicate Entry(next: int -> Option<int>, first: int, notices: seq<Notice>, p: nat)
    requires p < |notices|
  {
    OnChain(next, first, notices, p, notices[p].at) && notices[p].at <= notices[p].now + 1000
  }

  /** The notices are the chain, entry by entry, each made no more than a second early. */
  ghost predicate FollowsChain(next: int -> Option<int>, first: int, notices: seq<Notice>) {
    forall p: nat :: p < |notices| ==> Entry(next, first, notices, p)
  }

  ghost predicate WorkerOk(next: int -> Option<int>, first: int, s: State, w: Worker) {
    match w.stage
    case Claimed => true
    case Due(at) => Reached(next, first, s.notices, at) && at <= w.now + 1000
    case Notified(at) => Told(s, at)
    case Rolled(_) => true
  }

  ghost predicate Inv(next: int -> Option<int>, first: int, s: State) {
    && FollowsChain(next, first, s.notices)
    && Reached(next, first, s.notices, s.remindAt)
    && (s.status.Sent? ==> s.notices != [] && next(s.notices[|s.notices| - 1].at) == None)
    && forall w :: w in s.workers ==> WorkerOk(next, first, s, s.workers[w])
  }

  ghost predicate Later(next: int -> Option<int>) {
    forall at: int :: next(at).Some? ==> next(at).value > at
  }

  lemma {:induction false} ChainIncreases(next: int -> Option<int>, first: int, notices: seq<Notice>, i: nat, j: nat)
    requires Later(next) && FollowsChain(next, first, notices) && i < j < |notices|
    ensures notices[i].at < notices[j].at
    decreases j
  {
    assert Entry(next, first, notices, j);
    if i < j - 1 {
      ChainIncreases(next, first, notices, i, j - 1);
    }
  }

  /** What is due is told already or is the very next entry of the chain. */
  lemma DueIsNext(next: int -> Option<int>, first: int, s: State, at: int)
    requires FollowsChain(next, first, s.notices) && Reached(next, first, s.notices, at)
    ensures Told(s, at) || OnChain(next, first, s.notices, |s.notices|, at)
  {
    var p: nat :| p <= |s.notices| && OnChain(next, first, s.notices, p, at);
    assert p < |s.notices| ==> Entry(next, first, s.notices, p) && s.notices[p].at == at;
  }

  lemma ReachedStays(next: int -> Option<int>, first: int, notices: seq<Notice>, more: seq<Notice>, at: int)
    requires notices <= more && Reached(next, first, notices, at)
    ensures Reached(next, first, more, at)
  {
    var p: nat :| p <= |notices| && OnChain(next, first, notices, p, at);
    assert OnChain(next, first, more, p, at);
  }

  lemma WorkerStaysOk(next: int -> Option<int>, first: int, s: State, t: State, w: Worker)
    requires WorkerOk(next, first, s, w) && s.notices <= t.notices
    ensures WorkerOk(next, first, t, w)
  {
    match w.stage
    case Due(at) => ReachedStays(next, first, s.notices, t.notices, at);
    case Notified(at) =>
      var i :| 0 <= i < |s.notices| && s.notices[i].at == at;
      assert t.notices[i].at == at;
    case _ =>
  }

  lemma ChainExtends(next: int -> Option<int>, first: int, notices: seq<Notice>, n: Notice)
    requires FollowsChain(next, first, notices) && OnChain(next, first, notices, |notices|, n.at)
    requires n.at <= n.now + 1000
    ensures FollowsChain(next, first, notices + [n])
  {
    var more := notices + [n];
    forall p: nat | p < |more| ensures Entry(next, first, more, p) {
      assert p < |notices| ==> Entry(next, first, notices, p);
    }
  }

  /** Steps that make no notice and start no worker past the first stage keep the workers' part. */
  lemma OthersStayOk(next: int -> Option<int>, first: int, s: State, t: State, w: nat)
    requires (forall v :: v in s.workers ==> WorkerOk(next, first, s, s.workers[v])) && s.notices <= t.notices
    requires forall v :: v in t.workers && v != w ==> v in s.workers && t.workers[v] == s.workers[v]
    requires w in t.workers ==> WorkerOk(next, first, t, t.workers[w])
    ensures forall v :: v in t.workers ==> WorkerOk(next, first, t, t.workers[v])
  {
    hide WorkerOk;
    forall v | v in t.workers ensures WorkerOk(next, first, t, t.workers[v]) {
      if v != w {
        WorkerStaysOk(next, first, s, t, s.workers[v]);
      }
    }
  }

  lemma NotifyKeeps(next: int -> Option<int>, first: int, s: State, w: nat)
    requires Inv(next, first, s) && w in s.workers && s.workers[w].stage.Due?
    ensures Inv(next, first, DoNotify(s, w, s.workers[w].stage.at))
  {
    var at, now := s.workers[w].stage.at, s.workers[w].now;
    var t := DoNotify(s, w, at);
    assert WorkerOk(next, first, s, s.workers[w]);
    DueIsNext(next, first, s, at);
    hide FollowsChain, Reached;
    if !Told(s, at) {
      ChainExtends(next, first, s.notices, Notice(at, now));
      assert t.notices[|s.notices|].at == at;
    }
    assert Told(t, at);
    hide Told, OnChain;
    ReachedStays(next, first, s.notices, t.notices, s.remindAt);
    OthersStayOk(next, first, s, t, w);
  }

  lemma RollKeeps(next: int -> Option<int>, first: int, s: State, w: nat)
    requires Inv(next, first, s) && w in s.workers && s.workers[w].stage.Notified?
    ensures Inv(next, first, DoRoll(next, s, w, s.workers[w].stage.at))
  {
    var at := s.workers[w].stage.at;
    var t := DoRoll(next, s, w, at);
    assert WorkerOk(next, first, s, s.workers[w]);
    OthersStayOk(next, first, s, t, w);
    hide WorkerOk;
    var p: nat :| p < |s.notices| && s.notices[p].at == at;
    if next(at).Some? {
      assert OnChain(next, first, s.notices, p + 1, next(at).value);
    } else {
      assert p + 1 < |s.notices| ==> Entry(next, first, s.notices, p + 1);
    }
  }

  lemma NextKeeps(next: int -> Option<int>, first: int, s: State, step: Step)
    requires Inv(next, first, s)
    ensures Inv(next, first, Next(next, s, step))
  {
    var t := Next(next, s, step);
    if step.Notify? && step.w in s.workers && s.workers[step.w].stage.Due? {
      hide Inv;
      NotifyKeeps(next, first, s, step.w);
    } else if step.Roll? && step.w in s.workers && s.workers[step.w].stage.Notified? {
      hide Inv;
      RollKeeps(next, first, s, step.w);
    } else {
      hide FollowsChain, Reached, DoNotify, DoRoll, Told;
      OthersStayOk(next, first, s, t, if step.Reindex? || step.Dismiss? then 0 else step.w);
    }
  }

  lemma {:induction false} RunKeeps(next: int -> Option<int>, first: int, s: State, steps: seq<Step>)
    requires Inv(next, first, s)
    ensures Inv(next, first, Run(next, s, steps))
    decreases |steps|
  {
    hide Inv, Next;
    if steps != [] {
      NextKeeps(next, first, s, steps[0]);
      RunKeeps(next, first, Next(next, s, steps[0]), steps[1..]);
    }
  }

  function Created(first: int): State {
    State(Scheduled, first, Some(first), map[], [])
  }

  /** Over every run the notices are the chain first, next(first), … without gaps or repetitions, none made more than
      a second early; and a reminder that counts as sent has come to the end of the chain. */
  lemma NoticesFollowChain(next: int -> Option<int>, first: int, steps: seq<Step>)
    requires Later(next)
    ensures var s := Run(next, Created(first), steps);
            && FollowsChain(next, first, s.notices)
            && (forall i, j :: 0 <= i < j < |s.notices| ==> s.notices[i].at < s.notices[j].at)
            && (s.status.Sent? ==> s.notices != [] && next(s.notices[|s.notices| - 1].at) == None)
  {
    assert OnChain(next, first, [], 0, first);
    RunKeeps(next, first, Created(first), steps);
    var s := Run(next, Created(first), steps);
    hide Run;
    forall i, j | 0 <= i < j < |s.notices| ensures s.notices[i].at < s.notices[j].at {
      ChainIncreases(next, first, s.notices, i, j);
    }
  }

  // -------------------------------------------------------------------------
  // What a firing comes to
  // -------------------------------------------------------------------------

  /** An error at any stage puts the entry back for a minute later, and leaves row and notices as they are. */
  lemma ErrorComesBack(next: int -> Option<int>, s: State, w: nat)
    requires w in s.workers
    ensures var n := Next(next, s, Fail(w));
            && n.indexed == Some(s.workers[w].now + 60_000) && w !in n.workers
            && n.status == s.status && n.remindAt == s.remindAt && n.notices == s.notices
            && (forall v :: v != w ==>
                  (v in n.workers <==> v in s.workers) && (v in s.workers ==> n.workers[v] == s.workers[v]))
  {
  }

  /** The index gives an entry out once, and only when it is due. */
  lemma ClaimTakes(next: int -> Option<int>, s: State, w: nat, now: int)
    requires w !in s.workers
    ensures var n := Next(next, s, Claim(w, now));
            if s.indexed.Some? && s.indexed.value <= now
            then w in n.workers && n.workers[w] == Worker(now, Claimed) && n.indexed == None &&
                 n.remindAt == s.remindAt && n.status == s.status && n.notices == s.notices
            else n == s
  {
  }

  /** What a claimed reminder comes to when it is read: nothing unless it is still scheduled; if it was moved later
      since it was indexed, it goes back for its new time; otherwise it is due. */
  lemma ReadDecides(next: int -> Option<int>, s: State, w: nat)
    requires w in s.workers && s.workers[w].stage == Claimed
    ensures var n := Next(next, s, Read(w));
            && n.status == s.status && n.remindAt == s.remindAt && n.notices == s.notices
            && (s.status != Scheduled ==> w !in n.workers && n.indexed == s.indexed)
            && (s.status == Scheduled && s.remindAt > s.workers[w].now + 1000 ==>
                  w !in n.workers && n.indexed == Some(s.remindAt))
            && (s.status == Scheduled && s.remindAt <= s.workers[w].now + 1000 ==>
                  w in n.workers && n.workers[w] == Worker(s.workers[w].now, Due(s.remindAt)) && n.indexed == s.indexed)
  {
  }

  /** A due reminder that nothing interrupts makes its notice, once, and then waits in the index for the next time, or
      is finished if there is none. */
  lemma DueFires(next: int -> Option<int>, s: State, w: nat, at: int)
    requires w in s.workers && s.workers[w].stage == Due(at)
    ensures var n := Next(next, Next(next, Next(next, s, Notify(w)), Roll(w)), Requeue(w));
            && Told(n, at) && w !in n.workers
            && (Told(s, at) ==> n.notices == s.notices)
            && (!Told(s, at) ==> n.notices == s.notices + [Notice(at, s.workers[w].now)])
            && (next(at).Some? ==>
                  n.remindAt == next(at).value && n.indexed == Some(next(at).value) && n.status == s.status)
            && (next(at).None? ==> n.status == Sent && n.indexed == s.indexed)
  {
    var told := Next(next, s, Notify(w));
    assert Told(told, at) by {
      if !Told(s, at) { assert told.notices[|s.notices|].at == at; }
    }
    assert told.workers[w].stage == Notified(at);
    var rolled := Next(next, told, Roll(w));
    assert rolled.notices == told.notices;
    assert next(at).Some? ==> rolled.workers[w].stage == Rolled(next(at).value);
  }

  /** So a firing that failed is made up for: claimed again a minute later, by any worker that nothing interrupts, the
      reminder makes its notice and goes on. */
  lemma FailedFiresLater(next: int -> Option<int>, s: State, w: nat, v: nat, now: int)
    requires w in s.workers && s.status == Scheduled && s.workers[w].now + 60_000 <= now && s.remindAt <= now + 1000
    requires v == w || v !in s.workers
    ensures var back := Next(next, s, Fail(w));
            var due := Next(next, Next(next, back, Claim(v, now)), Read(v));
            var n := Next(next, Next(next, Next(next, due, Notify(v)), Roll(v)), Requeue(v));
            Told(n, s.remindAt) && if next(s.remindAt).Some? then n.indexed == next(s.remindAt) else n.status == Sent
  {
    var back := Next(next, s, Fail(w));
    ErrorComesBack(next, s, w);
    ClaimTakes(next, back, v, now);
    var claimed := Next(next, back, Claim(v, now));
    ReadDecides(next, claimed, v);
    DueFires(next, Next(next, claimed, Read(v)), v, s.remindAt);
  }

  /** Dismissing takes the reminder out of the index; a rebuild puts a row back for the time it was read with. */
  lemma DismissAndReindex(next: int -> Option<int>, s: State, at: int)
    ensures Next(next, s, Dismiss) == s.(status := Dismissed, indexed := None)
    ensures Next(next, s, Reindex(at)) == s.(indexed := Some(at))
  {
  }
}

/** Tenant lifecycle jobs: a list of steps run in order, saved as they go, and taken up again after errors and
    crashes. The world the handlers work on is left abstract. */
module Jobs {
  import opened Wrappers

  /** handle(i, w) is the world after step i; cut(i, w, p) says that step i, failing or killed, may leave p. */
  datatype Plan<!W> = Plan(length: nat, handle: (nat, W) -> W, cut: (nat, W, W) -> bool)

  datatype StepStatus = Pending | Running | Done | Failed

  datatype JobStatus = Queued | Active | Ended | Succeeded

  /** The saved row. */
  datatype Job = Job(status: JobStatus, steps: seq<StepStatus>)

  /** Between steps; inside a handler; with the handler finished and its step not yet saved. */
  datatype Stage = Looking | Handling | Handled

  /** What the running process holds: its own copy of the steps and its place in the loop. */
  datatype Runner = Runner(steps: seq<StepStatus>, at: nat, stage: Stage)

  datatype State<W> = State(job: Job, world: W, runner: Option<Runner>)

  datatype Step<W> =
    | Begin
    | Advance
    | Complete
    | SaveDone
    /** an error is thrown, in a handler or while saving; landed says whether that save took effect after all, saved
        whether the closing save goes through */
    | Fail(isFinalAttempt: bool, landed: bool, saved: bool, left: W)
    | Crash(left: W)

  /** The copy of the steps when an error ends the run. */
  function FailedSteps(r: Runner): seq<StepStatus> {
    if r.at >= |r.steps| || r.steps[r.at] == Done then r.steps
    else if r.stage == Looking then r.steps[r.at := Running]
    else r.steps[r.at := Failed]
  }

  /** The row after the save that the runner is about to make. */
  function Attempted(r: Runner, job: Job): Job {
    match r.stage
    case Looking =>
      if r.at >= |r.steps| then Job(Succeeded, r.steps)
      else if r.steps[r.at] == Done then job
      else job.(steps := r.steps[r.at := Running])
    case Handling => job
    case Handled => if r.at < |r.steps| then job.(steps := r.steps[r.at := Done]) else job
  }

  /** A handler that is cut short leaves the world in between; elsewhere an interruption leaves it as it is. */
  predicate Interrupts<W(==)>(p: Plan<W>, s: State<W>, r: Runner, left: W) {
    if r.stage == Handling then p.cut(r.at, s.world, left) else left == s.world
  }

  function Next<W(==)>(p: Plan<W>, s: State<W>, step: Step<W>): State<W> {
    match s.runner
    case None =>
      if step.Begin? && s.job.status != Succeeded
      then s.(job := s.job.(status := Active), runner := Some(Runner(s.job.steps, 0, Looking)))
      else s
    case Some(r) =>
      match step
      case Begin => s
      case Advance =>
        if r.stage != Looking then s
        else if r.at >= |r.steps| then s.(job := Attempted(r, s.job), runner := None)
        else if r.steps[r.at] == Done then s.(runner := Some(r.(at := r.at + 1)))
        else s.(job := Attempted(r, s.job), runner := Some(Runner(r.steps[r.at := Running], r.at, Handling)))
      case Complete =>
        if r.stage == Handling then s.(world := p.handle(r.at, s.world), runner := Some(r.(stage := Handled))) else s
      case SaveDone =>
        if r.stage == Handled && r.at < |r.steps|
        then s.(job := Attempted(r, s.job), runner := Some(Runner(r.steps[r.at := Done], r.at + 1, Looking)))
        else s
      case Fail(isFinalAttempt, landed, saved, left) =>
        if !Interrupts(p, s, r, left) then s
        else
          var job := if landed then Attempted(r, s.job) else s.job;
          State(if saved then Job(if isFinalAttempt then Ended else Queued, FailedSteps(r)) else job, left, None)
      case Crash(left) => if Interrupts(p, s, r, left) then State(s.job, left, None) else s
  }

  function Run<W(==)>(p: Plan<W>, s: State<W>, steps: seq<Step<W>>): State<W>
    decreases |steps|
  {
    if steps == [] then s else Run(p, Next(p, s, steps[0]), steps[1..])
  }

  function Created<W>(p: Plan<W>, world: W): State<W> {
    State(Job(Queued, seq(p.length, i => Pending)), world, None)
  }

  // -------------------------------------------------------------------------
  // Crash and resume
  // -------------------------------------------------------------------------

  /** The world after the first n steps of one uninterrupted run. */
  function InOrder<W>(p: Plan<W>, world: W, n: nat): W {
    if n == 0 then world else p.handle(n - 1, InOrder(p, world, n - 1))
  }

  /** Running a step again, after it was cut short or finished, comes to the same as running it once. */
  ghost predicate Rerunnable<W(!new)>(p: Plan<W>) {
    && (forall i: nat, w: W, left: W :: p.cut(i, w, left) ==> p.handle(i, left) == p.handle(i, w))
    && (forall i: nat, w: W :: p.handle(i, p.handle(i, w)) == p.handle(i, w))
  }

  predicate DoneIsPrefix(steps: seq<StepStatus>) {
    forall i, j :: 0 <= i < j < |steps| && steps[j] == Done ==> steps[i] == Done
  }

  function FirstOpen(steps: seq<StepStatus>): (n: nat)
    ensures n <= |steps| && (n < |steps| ==> steps[n] != Done) && forall i :: 0 <= i < n ==> steps[i] == Done
  {
    if steps == [] || steps[0] != Done then 0 else 1 + FirstOpen(steps[1..])
  }

  /** The world is as after the done steps, give or take a cut run of the next one. */
  predicate Resumable<W(==)>(p: Plan<W>, world: W, w: W, done: nat) {
    if done >= p.length then w == InOrder(p, world, p.length)
    else p.handle(done, w) == InOrder(p, world, done + 1)
  }

  predicate RunnerOk<W(==)>(p: Plan<W>, world: W, s: State<W>, r: Runner) {
    && |r.steps| == p.length && DoneIsPrefix(r.steps)
    && FirstOpen(r.steps) == FirstOpen(s.job.steps) && r.at <= FirstOpen(r.steps)
    && (r.stage != Looking ==> r.at == FirstOpen(r.steps) < p.length)
    && (r.stage == Handled ==> s.world == InOrder(p, world, r.at + 1))
  }

  predicate Inv<W(==)>(p: Plan<W>, world: W, s: State<W>) {
    && |s.job.steps| == p.length && DoneIsPrefix(s.job.steps)
    && Resumable(p, world, s.world, FirstOpen(s.job.steps))
    && (s.runner.Some? ==> RunnerOk(p, world, s, s.runner.value))
    && (s.job.status == Succeeded ==> FirstOpen(s.job.steps) == p.length && s.runner.None?)
  }

  lemma FirstOpenIs(steps: seq<StepStatus>, n: nat)
    requires n <= |steps| && (n < |steps| ==> steps[n] != Done) && forall i :: 0 <= i < n ==> steps[i] == Done
    ensures FirstOpen(steps) == n
  {
  }

  lemma SetOpen(steps: seq<StepStatus>, status: StepStatus)
    requires DoneIsPrefix(steps) && FirstOpen(steps) < |steps|
    ensures var q := steps[FirstOpen(steps) := status];
            DoneIsPrefix(q) && FirstOpen(q) == FirstOpen(steps) + if status == Done then 1 else 0
  {
    var n := FirstOpen(steps);
    FirstOpenIs(steps[n := status], if status == Done then n + 1 else n);
  }

  lemma ResumableNext<W(!new)>(p: Plan<W>, world: W, done: nat)
    requires Rerunnable(p) && done < p.length
    ensures Resumable(p, world, InOrder(p, world, done + 1), done)
    ensures Resumable(p, world, InOrder(p, world, done + 1), done + 1)
  {
    var before := InOrder(p, world, done);
    assert p.handle(done, p.handle(done, before)) == p.handle(done, before);
  }

  lemma LeftIsResumable<W(!new)>(p: Plan<W>, world: W, s: State<W>, left: W)
    requires Rerunnable(p) && Inv(p, world, s) && s.runner.Some? && Interrupts(p, s, s.runner.value, left)
    ensures Resumable(p, world, left, FirstOpen(s.job.steps))
    ensures s.runner.value.stage == Handled ==> Resumable(p, world, left, FirstOpen(s.job.steps) + 1)
  {
    if s.runner.value.stage == Handled {
      ResumableNext(p, world, s.runner.value.at);
    }
  }

  /** A copy of the steps whose first open one is n. */
  predicate OpenAt(steps: seq<StepStatus>, length: nat, n: nat) {
    |steps| == length && DoneIsPrefix(steps) && FirstOpen(steps) == n
  }

  lemma CopiesOpen<W>(p: Plan<W>, world: W, s: State<W>)
    requires Inv(p, world, s) && s.runner.Some?
    ensures var r, n := s.runner.value, FirstOpen(s.job.steps);
            && OpenAt(FailedSteps(r), p.length, n)
            && OpenAt(Attempted(r, s.job).steps, p.length, n + if r.stage == Handled then 1 else 0)
            && (r.at < p.length && r.steps[r.at] != Done ==> r.at == n && OpenAt(r.steps[r.at := Running], p.length, n))
            && (Attempted(r, s.job).status == Succeeded ==> n == p.length && r.stage == Looking)
  {
    var r := s.runner.value;
    if FirstOpen(r.steps) < |r.steps| {
      SetOpen(r.steps, Running);
      SetOpen(r.steps, Failed);
      SetOpen(r.steps, Done);
    }
    hide DoneIsPrefix, FirstOpen, Resumable;
  }

  lemma EndKeeps<W(!new)>(p: Plan<W>, world: W, s: State<W>, job: Job, left: W)
    requires Rerunnable(p) && Inv(p, world, s) && s.runner.Some? && Interrupts(p, s, s.runner.value, left)
    requires job == s.job || job == Attempted(s.runner.value, s.job)
             || (job.steps == FailedSteps(s.runner.value) && job.status != Succeeded)
    ensures Inv(p, world, State(job, left, None))
  {
    CopiesOpen(p, world, s);
    LeftIsResumable(p, world, s, left);
    hide DoneIsPrefix, FirstOpen, Resumable, FailedSteps, Attempted, Rerunnable, Interrupts;
  }

  lemma AdvanceKeeps<W(!new)>(p: Plan<W>, world: W, s: State<W>)
    requires Rerunnable(p) && Inv(p, world, s) && s.runner.Some?
    ensures Inv(p, world, Next(p, s, Advance))
  {
    var r := s.runner.value;
    CopiesOpen(p, world, s);
    if r.stage == Looking && r.at >= |r.steps| {
      EndKeeps(p, world, s, Attempted(r, s.job), s.world);
    }
    hide DoneIsPrefix, Resumable, FailedSteps;
  }

  lemma CompleteKeeps<W(!new)>(p: Plan<W>, world: W, s: State<W>)
    requires Rerunnable(p) && Inv(p, world, s) && s.runner.Some?
    ensures Inv(p, world, Next(p, s, Complete)) && Inv(p, world, Next(p, s, SaveDone))
  {
    var r := s.runner.value;
    if r.stage != Looking {
      ResumableNext(p, world, r.at);
      CopiesOpen(p, world, s);
      SetOpen(r.steps, Done);
    }
    hide DoneIsPrefix, FailedSteps, Rerunnable;
  }

  lemma NextKeeps<W(!new)>(p: Plan<W>, world: W, s: State<W>, step: Step<W>)
    requires Rerunnable(p) && Inv(p, world, s)
    ensures Inv(p, world, Next(p, s, step))
  {
    if s.runner.Some? {
      var r := s.runner.value;
      match step
      case Begin =>
      case Advance => AdvanceKeeps(p, world, s);
      case Complete => CompleteKeeps(p, world, s);
      case SaveDone => CompleteKeeps(p, world, s);
      case Fail(isFinalAttempt, landed, saved, left) =>
        hide Inv;
        if Interrupts(p, s, r, left) { EndKeeps(p, world, s, Next(p, s, step).job, left); }
      case Crash(left) =>
        hide Inv;
        if Interrupts(p, s, r, left) { EndKeeps(p, world, s, s.job, left); }
    }
  }

  lemma {:induction false} RunKeeps<W(!new)>(p: Plan<W>, world: W, s: State<W>, steps: seq<Step<W>>)
    requires Rerunnable(p) && Inv(p, world, s)
    ensures Inv(p, world, Run(p, s, steps))
    decreases |steps|
  {
    hide Inv, Next, Rerunnable;
    if steps != [] {
      NextKeeps(p, world, s, steps[0]);
      RunKeeps(p, world, Next(p, s, steps[0]), steps[1..]);
    }
  }

  lemma CreatedOk<W(!new)>(p: Plan<W>, world: W)
    ensures Inv(p, world, Created(p, world))
  {
    FirstOpenIs(Created(p, world).job.steps, 0);
  }

  /** At every point of every run the saved done steps are a prefix; and a job that has succeeded leaves the world
      as one uninterrupted run in order would, whatever errors, crashes and retries came before. */
  lemma SucceededMeansRunInOrder<W(!new)>(p: Plan<W>, world: W, steps: seq<Step<W>>)
    requires Rerunnable(p)
    ensures var s := Run(p, Created(p, world), steps);
            && |s.job.steps| == p.length && DoneIsPrefix(s.job.steps)
            && (s.job.status == Succeeded ==> s.world == InOrder(p, world, p.length))
  {
    CreatedOk(p, world);
    RunKeeps(p, world, Created(p, world), steps);
    hide Run;
  }

  /** Once it has succeeded, nothing that happens to the job changes the world or the row. */
  lemma {:induction false} SucceededStays<W(!new)>(p: Plan<W>, s: State<W>, steps: seq<Step<W>>)
    requires s.job.status == Succeeded && s.runner.None?
    ensures Run(p, s, steps) == s
    decreases |steps|
  {
    if steps != [] {
      SucceededStays(p, s, steps[1..]);
    }
  }

  /** Done steps are not run again: whatever happens in between, a later run starts no earlier than the first step
      saved as open. */
  lemma DoneGrows<W(!new)>(p: Plan<W>, world: W, s: State<W>, step: Step<W>)
    requires Rerunnable(p) && Inv(p, world, s)
    ensures FirstOpen(Next(p, s, step).job.steps) >= FirstOpen(s.job.steps)
  {
    hide DoneIsPrefix, FailedSteps, Attempted, Resumable, Interrupts, Rerunnable;
    if s.runner.Some? {
      var r := s.runner.value;
      CopiesOpen(p, world, s);
      if r.stage == Handled { SetOpen(r.steps, Done); }
    }
  }

  /** Between a save that landed though it was thought lost and the closing save of the same error, the row is ahead of
      the runner's copy. The closing save takes a done step back exactly when that save was of a handled step, and then
      that one step. */
  lemma ClosingSaveReopens<W(!new)>(p: Plan<W>, world: W, s: State<W>)
    requires Rerunnable(p) && Inv(p, world, s) && s.runner.Some?
    ensures var r := s.runner.value;
            var landed, closed := FirstOpen(Attempted(r, s.job).steps), FirstOpen(FailedSteps(r));
            && closed == FirstOpen(s.job.steps)
            && landed == if r.stage == Handled then closed + 1 else closed
  {
    CopiesOpen(p, world, s);
    hide DoneIsPrefix, FailedSteps, Attempted, Resumable;
  }

  // -------------------------------------------------------------------------
  // Progress
  // -------------------------------------------------------------------------

  /** A new job waits with all its steps to come; a run starts, on any job that has not succeeded, from the saved
      steps. */
  lemma BeginsFromSaved<W>(p: Plan<W>, world: W, s: State<W>)
    requires s.runner.None?
    ensures Created(p, world).job.status == Queued && Created(p, world).world == world
    ensures forall i :: 0 <= i < p.length ==> Created(p, world).job.steps[i] == Pending
    ensures var n := Next(p, s, Begin);
            if s.job.status == Succeeded then n == s
            else n == State(Job(Active, s.job.steps), s.world, Some(Runner(s.job.steps, 0, Looking)))
  {
  }

  /** One turn of the loop on an open step: it is saved as running, handled, and saved as done. */
  lemma OneTurn<W>(p: Plan<W>, s: State<W>, steps: seq<StepStatus>, at: nat)
    requires s.runner == Some(Runner(steps, at, Looking)) && at < |steps| && steps[at] != Done
    ensures var begun := Next(p, s, Advance);
            var handled := Next(p, begun, Complete);
            var saved := Next(p, handled, SaveDone);
            && begun.job == s.job.(steps := steps[at := Running]) && begun.world == s.world
            && begun.runner == Some(Runner(steps[at := Running], at, Handling))
            && handled.job == begun.job && handled.world == p.handle(at, s.world)
            && saved.job == s.job.(steps := steps[at := Done]) && saved.world == handled.world
            && saved.runner == Some(Runner(steps[at := Done], at + 1, Looking))
  {
    assert steps[at := Running][at := Done] == steps[at := Done];
  }

  /** Steps that were done are passed over, and after the last step the job has succeeded. */
  lemma PassedOver<W>(p: Plan<W>, s: State<W>, steps: seq<StepStatus>, at: nat)
    requires s.runner == Some(Runner(steps, at, Looking)) && (at < |steps| ==> steps[at] == Done)
    ensures Next(p, s, Advance) == if at < |steps| then s.(runner := Some(Runner(steps, at + 1, Looking)))
                                   else State(Job(Succeeded, steps), s.world, None)
  {
  }

  /** The steps of a run that nothing interrupts, from a place in the list on. */
  function Rest<W>(steps: seq<StepStatus>, at: nat): seq<Step<W>>
    decreases |steps| - at
  {
    if at >= |steps| then [Advance]
    else (if steps[at] == Done then [Advance] else [Advance, Complete, SaveDone]) + Rest(steps, at + 1)
  }

  lemma {:induction false} RunInTwo<W>(p: Plan<W>, s: State<W>, a: seq<Step<W>>, b: seq<Step<W>>)
    ensures Run(p, s, a + b) == Run(p, Run(p, s, a), b)
    decreases |a|
  {
    hide Next;
    if a == [] {
      assert a + b == b;
    } else {
      assert (a + b)[1..] == a[1..] + b;
      RunInTwo(p, Next(p, s, a[0]), a[1..], b);
    }
  }

  lemma {:induction false} RestSameAhead<W>(steps: seq<StepStatus>, other: seq<StepStatus>, at: nat)
    requires |steps| == |other| && forall i :: at <= i < |steps| ==> steps[i] == other[i]
    ensures Rest<W>(steps, at) == Rest<W>(other, at)
    decreases |steps| - at
  {
    if at < |steps| { RestSameAhead<W>(steps, other, at + 1); }
  }

  lemma {:induction false} RestFinishes<W>(p: Plan<W>, s: State<W>, steps: seq<StepStatus>, at: nat)
    requires s.runner == Some(Runner(steps, at, Looking)) && at <= |steps|
    requires forall i :: 0 <= i < at ==> steps[i] == Done
    ensures var n := Run(p, s, Rest(steps, at));
            && n.runner.None? && n.job.status == Succeeded && |n.job.steps| == |steps|
            && forall i :: 0 <= i < |steps| ==> n.job.steps[i] == Done
    decreases |steps| - at
  {
    if at == |steps| {
      PassedOver(p, s, steps, at);
      RunOneStep(p, s, Advance);
    } else if steps[at] == Done {
      PassedOver(p, s, steps, at);
      RunOneStep(p, s, Advance);
      hide Next, Run;
      RunInTwo(p, s, [Advance], Rest(steps, at + 1));
      RestFinishes(p, Next(p, s, Advance), steps, at + 1);
    } else {
      OneTurn(p, s, steps, at);
      hide Next, Run;
      var saved := Next(p, Next(p, Next(p, s, Advance), Complete), SaveDone);
      RunThreeSteps(p, s, Advance, Complete, SaveDone);
      RunInTwo(p, s, [Advance, Complete, SaveDone], Rest(steps, at + 1));
      RestSameAhead<W>(steps, steps[at := Done], at + 1);
      RestFinishes(p, saved, steps[at := Done], at + 1);
    }
  }

  lemma RunOneStep<W>(p: Plan<W>, s: State<W>, a: Step<W>)
    ensures Run(p, s, [a]) == Next(p, s, a)
  {
    hide Next;
    assert [a][1..] == [];
  }

  lemma RunThreeSteps<W>(p: Plan<W>, s: State<W>, a: Step<W>, b: Step<W>, c: Step<W>)
    ensures Run(p, s, [a, b, c]) == Next(p, Next(p, Next(p, s, a), b), c)
  {
    hide Next;
    assert [a, b, c][1..] == [b, c] && [b, c][1..] == [c] && [c][1..] == [];
    assert Run(p, Next(p, s, a), [b, c]) == Run(p, Next(p, Next(p, s, a), b), [c]);
  }

  /** A job that has not succeeded, whatever errors and crashes it has behind it, succeeds in one run that nothing
      interrupts, with every step done. */
  lemma TakenUpAgainSucceeds<W>(p: Plan<W>, s: State<W>)
    requires s.runner.None? && s.job.status != Succeeded
    ensures var n := Run(p, s, [Begin] + Rest(s.job.steps, 0));
            && n.runner.None? && n.job.status == Succeeded && |n.job.steps| == |s.job.steps|
            && forall i :: 0 <= i < |s.job.steps| ==> n.job.steps[i] == Done
  {
    BeginsFromSaved(p, s.world, s);
    RunOneStep(p, s, Begin);
    hide Next, Run;
    RunInTwo(p, s, [Begin], Rest(s.job.steps, 0));
    RestFinishes(p, Next(p, s, Begin), s.job.steps, 0);
  }

  /** What an error leaves: if its closing save goes through, the job is failed on the final attempt and queued again on
      any other, and the step at hand is failed once it was begun, running if it was about to be; if not, the row is as
      the last save that landed left it. A crash leaves the row as it is. */
  lemma ErrorLeaves<W>(p: Plan<W>, s: State<W>, isFinalAttempt: bool, landed: bool, left: W)
    requires s.runner.Some? && Interrupts(p, s, s.runner.value, left)
    ensures var r := s.runner.value;
            var saved := Next(p, s, Fail(isFinalAttempt, landed, true, left));
            var lost := Next(p, s, Fail(isFinalAttempt, landed, false, left));
            && saved.runner.None? && saved.world == left && lost.runner.None? && lost.world == left
            && saved.job.status == (if isFinalAttempt then Ended else Queued)
            && |saved.job.steps| == |r.steps|
            && (forall i :: 0 <= i < |r.steps| && i != r.at ==> saved.job.steps[i] == r.steps[i])
            && (r.at < |r.steps| && r.steps[r.at] != Done ==>
                  saved.job.steps[r.at] == if r.stage == Looking then Running else Failed)
            && (r.at < |r.steps| && r.steps[r.at] == Done ==> saved.job.steps == r.steps)
            && (!landed || r.stage == Handling ==> lost.job == s.job)
            && (landed && r.stage == Handled && r.at < |r.steps| ==>
                  lost.job == s.job.(steps := r.steps[r.at := Done]))
            && (landed && r.stage == Looking && r.at < |r.steps| && r.steps[r.at] != Done ==>
                  lost.job == s.job.(steps := r.steps[r.at := Running]))
            && (landed && r.stage == Looking && r.at >= |r.steps| ==> lost.job == Job(Succeeded, r.steps))
            && Next(p, s, Crash(left)) == State(s.job, left, None)
  {
  }
}

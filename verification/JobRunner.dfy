/** One attempt at a lifecycle job, as the worker runs it. */
module JobRunner {
  import opened Wrappers
  import opened Jobs

  lemma {:induction false} RunOneMore<W>(p: Plan<W>, s: State<W>, trace: seq<Step<W>>, step: Step<W>)
    ensures Run(p, s, trace + [step]) == Next(p, Run(p, s, trace), step)
    decreases |trace|
  {
    hide Next;
    if trace == [] {
      assert [] + [step] == [step];
      assert Run(p, s, [step]) == Run(p, Next(p, s, step), []);
    } else {
      assert (trace + [step])[1..] == trace[1..] + [step];
      RunOneMore(p, Next(p, s, trace[0]), trace[1..], step);
    }
  }

  lemma RunNothing<W>(p: Plan<W>, s: State<W>)
    ensures Run(p, s, []) == s
  {
  }

  class Worker<W(!new, ==)> {
    const plan: Plan<W>
    var job: Job
    var world: W

    constructor (plan: Plan<W>, world: W)
      ensures this.plan == plan && State(job, this.world, None) == Created(plan, world)
    {
      this.plan, this.world, job := plan, world, Created(plan, world).job;
    }

    /** Runs the open steps in order and saves after each. fails(i, w) says whether handler i throws this time, and
        what it leaves behind. The attempt takes the steps of the protocol. */
    method RunJob(isFinalAttempt: bool, fails: (nat, W) -> Option<W>) returns (threw: bool, ghost trace: seq<Step<W>>)
      requires forall i: nat, w: W :: fails(i, w).Some? ==> plan.cut(i, w, fails(i, w).value)
      modifies this
      ensures State(job, world, None) == Run(plan, old(State(job, world, None)), trace)
      ensures threw <==> job.status != Succeeded
      ensures threw ==> job.status == if isFinalAttempt then Ended else Queued
    {
      hide Run;
      ghost var start := State(job, world, None);
      trace := [];
      RunNothing(plan, start);
      if job.status == Succeeded { return false, []; }
      RunOneMore(plan, start, trace, Begin);
      trace := trace + [Begin];
      job := job.(status := Active);
      var steps := job.steps;
      for i := 0 to |steps|
        invariant job.status == Active && i <= |steps| == |old(job).steps|
        invariant Run(plan, start, trace) == State(job, world, Some(Runner(steps, i, Looking)))
      {
        RunOneMore(plan, start, trace, Advance);
        trace := trace + [Advance];
        if steps[i] == Done { continue; }
        steps := steps[i := Running];
        job := job.(steps := steps);
        var failure := fails(i, world);
        if failure.Some? {
          RunOneMore(plan, start, trace, Fail(isFinalAttempt, false, true, failure.value));
          trace := trace + [Fail(isFinalAttempt, false, true, failure.value)];
          world := failure.value;
          steps := steps[i := Failed];
          job := Job(if isFinalAttempt then Ended else Queued, steps);
          return true, trace;
        }
        RunOneMore(plan, start, trace, Complete);
        trace := trace + [Complete];
        world := plan.handle(i, world);
        RunOneMore(plan, start, trace, SaveDone);
        trace := trace + [SaveDone];
        steps := steps[i := Done];
        job := job.(steps := steps);
      }
      RunOneMore(plan, start, trace, Advance);
      trace := trace + [Advance];
      job := Job(Succeeded, steps);
      return false, trace;
    }
  }
}

/** The tenant connection manager as it runs, each method without interruption. */
module ConnectionManager {
  import opened Wrappers
  import opened Pools

  function Resumes(t: Tenant, n: nat): seq<Step> {
    seq(n, i => DoResume(t))
  }

  lemma {:induction false} RunAppend(s: State, a: seq<Step>, b: seq<Step>)
    ensures Run(s, a + b) == Run(Run(s, a), b)
    decreases |a|
  {
    hide Next;
    if a == [] {
      assert a + b == b;
    } else {
      assert (a + b)[1..] == a[1..] + b;
      RunAppend(Next(s, a[0]), a[1..], b);
    }
  }

  lemma RunOneMore(s: State, t: Tenant, n: nat)
    ensures Run(s, Resumes(t, n + 1)) == Next(Run(s, Resumes(t, n)), DoResume(t))
  {
    hide Next;
    assert Resumes(t, n + 1) == Resumes(t, n) + [DoResume(t)];
    RunAppend(s, Resumes(t, n), [DoResume(t)]);
    var m := Run(s, Resumes(t, n));
    assert Run(m, [DoResume(t)]) == Run(Next(m, DoResume(t)), []);
  }

  /** The entries a sweep leaves: those used since the cutoff, and those with connections in use. */
  function Swept(pools: seq<Entry>, cutoff: int, idle: set<nat>): seq<Entry> {
    if pools == [] then []
    else if pools[0].lastUsedAt < cutoff && pools[0].pool in idle then Swept(pools[1..], cutoff, idle)
    else [pools[0]] + Swept(pools[1..], cutoff, idle)
  }

  lemma {:induction false} SweptKeeps(pools: seq<Entry>, cutoff: int, idle: set<nat>, e: Entry)
    ensures e in Swept(pools, cutoff, idle) <==> e in pools && !(e.lastUsedAt < cutoff && e.pool in idle)
  {
    if pools != [] {
      SweptKeeps(pools[1..], cutoff, idle, e);
      assert pools == [pools[0]] + pools[1..];
    }
  }

  class TenantConnectionManager {
    const cap: nat
    var pools: seq<Entry>
    var pending: map<Tenant, Phase>
    var owners: seq<Tenant>
    var closing: set<nat>
    var clock: int

    constructor (cap: nat)
      ensures State() == Start(cap)
    {
      this.cap, pools, pending, owners, closing, clock := cap, [], map[], [], {}, 0;
    }

    function State(): Pools.State
      reads this
    {
      Pools.State.State(cap, pools, pending, owners, closing, clock)
    }

    /** Up to the first await: the pool when there is one, else an opening to wait for. */
    method Get(t: Tenant) returns (pool: Option<nat>)
      modifies this
      ensures State() == Next(old(State()), DoGet(t))
      ensures pool == if IndexOf(old(pools), t) < |old(pools)| then Handed(old(State()), t) else None
    {
      var i := IndexOf(pools, t);
      if i < |pools| {
        var existing := pools[i].(lastUsedAt := clock);
        pools := pools[..i] + pools[i + 1..];
        pools := pools + [existing];
        return Some(existing.pool);
      }
      if t !in pending {
        pending := pending[t := Loading];
      }
      return None;
    }

    method Evict(t: Tenant)
      modifies this
      ensures State() == Next(old(State()), DoEvict(t))
    {
      var i := IndexOf(pools, t);
      if i == |pools| { return; }
      closing := closing + {pools[i].pool};
      pools := pools[..i] + pools[i + 1..];
    }

    /** Makes room, closing the least recently used first, and no more than needed; then opens the pool. */
    method Open(t: Tenant) returns (pool: nat)
      requires Opening(State(), t) && cap >= 1
      modifies this
      ensures var k := if |old(pools)| >= cap then |old(pools)| - cap + 1 else 0;
              && State() == Run(old(State()), Resumes(t, k + 1))
              && pools == old(pools)[k..] + [Entry(t, pool, clock)]
      ensures pool == |old(owners)| && owners == old(owners) + [t] && clock == old(clock)
    {
      hide IndexOf;
      ghost var k := 0;
      assert old(pools)[0..] == old(pools);
      while |pools| >= cap
        invariant k <= |old(pools)| && pools == old(pools)[k..]
        invariant k > 0 ==> |old(pools)| - (k - 1) >= cap
        invariant State() == Run(old(State()), Resumes(t, k)) && Opening(State(), t)
        invariant owners == old(owners) && clock == old(clock)
        decreases |pools|
      {
        RunOneMore(old(State()), t, k);
        hide Run;
        closing := closing + {pools[0].pool};
        pending := pending[t := MakingRoom];
        pools := pools[1..];
        k := k + 1;
      }
      RunOneMore(old(State()), t, k);
      pool := |owners|;
      owners := owners + [t];
      pools := pools + [Entry(t, pool, clock)];
      pending := pending[t := Settling(Some(pool))];
    }

    /** idle: the pools with nothing waiting and no connection in use. */
    method SweepIdle(cutoff: int, idle: set<nat>)
      modifies this`pools, this`closing
      ensures pools == Swept(old(pools), cutoff, idle)
      ensures forall p :: p in closing <==> (p in old(closing) ||
                exists i :: 0 <= i < |old(pools)| && old(pools)[i].pool == p &&
                            old(pools)[i].lastUsedAt < cutoff && p in idle)
    {
      var i := 0;
      ghost var seen := 0;
      assert pools[..0] == [];
      while i < |pools|
        invariant 0 <= i <= |pools| && seen <= |old(pools)| && pools[i..] == old(pools)[seen..]
        invariant pools[..i] + Swept(pools[i..], cutoff, idle) == Swept(old(pools), cutoff, idle)
        invariant forall p :: p in closing <==> (p in old(closing) ||
                    exists j :: 0 <= j < seen && old(pools)[j].pool == p &&
                                old(pools)[j].lastUsedAt < cutoff && p in idle)
        decreases |pools| - i
      {
        var e := pools[i];
        assert e == old(pools)[seen] && pools[i..] == [e] + pools[i + 1..];
        assert old(pools)[seen..][1..] == old(pools)[seen + 1..];
        if e.lastUsedAt < cutoff && e.pool in idle {
          ghost var before := pools;
          closing := closing + {e.pool};
          pools := pools[..i] + pools[i + 1..];
          assert pools[..i] == before[..i] && pools[i..] == before[i + 1..];
        } else {
          assert pools[..i + 1] == pools[..i] + [e];
          i := i + 1;
        }
        seen := seen + 1;
      }
      assert pools[..i] == pools;
    }
  }
}

/** The pools of tenant database connections: opened on first use, capped, and closed when least recently used.
    A step is what runs between two awaits. */
module Pools {
  import opened Wrappers

  type Tenant = nat

  /** pool is the pool's place in the order of all pools ever opened. */
  datatype Entry = Entry(tenant: Tenant, pool: nat, lastUsedAt: int)

  /** An opening under way: the credentials are being loaded; room is being made; or it is over, with the pool it
      opened, and about to leave the pending map. */
  datatype Phase = Loading | MakingRoom | Settling(pool: Option<nat>)

  /** pools is the map in its iteration order. owners names the tenant of every pool ever opened; closing holds the
      pools whose closing has begun. */
  datatype State = State(cap: nat, pools: seq<Entry>, pending: map<Tenant, Phase>, owners: seq<Tenant>,
                         closing: set<nat>, clock: int)

  function IndexOf(pools: seq<Entry>, t: Tenant): (i: nat)
    ensures i <= |pools| && (i < |pools| ==> pools[i].tenant == t)
    ensures forall j :: 0 <= j < i ==> pools[j].tenant != t
  {
    if pools == [] then 0 else if pools[0].tenant == t then 0 else 1 + IndexOf(pools[1..], t)
  }

  function Dropped(pools: seq<Entry>, i: nat): seq<Entry>
    requires i < |pools|
  {
    pools[..i] + pools[i + 1..]
  }

  /** pools.delete, and the synchronous part of closing the pool. */
  function EvictAt(s: State, i: nat): State
    requires i < |s.pools|
  {
    s.(pools := Dropped(s.pools, i), closing := s.closing + {s.pools[i].pool})
  }

  function Evict(s: State, t: Tenant): State {
    var i := IndexOf(s.pools, t);
    if i < |s.pools| then EvictAt(s, i) else s
  }

  function Touch(s: State, i: nat): State
    requires i < |s.pools|
  {
    s.(pools := Dropped(s.pools, i) + [s.pools[i].(lastUsedAt := s.clock)])
  }

  function Get(s: State, t: Tenant): State {
    var i := IndexOf(s.pools, t);
    if i < |s.pools| then Touch(s, i)
    else if t in s.pending then s
    else s.(pending := s.pending[t := Loading])
  }

  function Insert(s: State, t: Tenant): State {
    var pool := |s.owners|;
    s.(pools := s.pools + [Entry(t, pool, s.clock)], pending := s.pending[t := Settling(Some(pool))],
       owners := s.owners + [t])
  }

  /** The opening goes on after the credentials came or a close finished: check the cap again. */
  function Resume(s: State, t: Tenant): State {
    if |s.pools| >= s.cap && s.pools != [] then EvictAt(s, 0).(pending := s.pending[t := MakingRoom])
    else Insert(s, t)
  }

  datatype Step =
    | DoGet(t: Tenant)
    | DoResume(t: Tenant)
    | DoFail(t: Tenant)
    | DoSettle(t: Tenant)
    | DoEvict(t: Tenant)
    | DoSweep(t: Tenant, cutoff: int, idle: bool)
    | DoWait(ms: nat)

  predicate Opening(s: State, t: Tenant) {
    t in s.pending && !s.pending[t].Settling?
  }

  function Next(s: State, step: Step): State {
    match step
    case DoGet(t) => Get(s, t)
    case DoResume(t) => if Opening(s, t) then Resume(s, t) else s
    case DoFail(t) =>
      if t in s.pending && s.pending[t].Loading? then s.(pending := s.pending[t := Settling(None)]) else s
    case DoSettle(t) => if t in s.pending && s.pending[t].Settling? then s.(pending := s.pending - {t}) else s
    case DoEvict(t) => Evict(s, t)
    case DoSweep(t, cutoff, idle) =>
      var i := IndexOf(s.pools, t);
      if i < |s.pools| && s.pools[i].lastUsedAt < cutoff && idle then EvictAt(s, i) else s
    case DoWait(ms) => s.(clock := s.clock + ms)
  }

  function Run(s: State, steps: seq<Step>): State
    decreases |steps|
  {
    if steps == [] then s else Run(Next(s, steps[0]), steps[1..])
  }

  function Start(cap: nat): State {
    State(cap, [], map[], [], {}, 0)
  }

  // -------------------------------------------------------------------------
  // What holds in every reachable state
  // -------------------------------------------------------------------------

  /** In the order of their last use; one pool for each tenant. */
  ghost predicate InOrder(pools: seq<Entry>) {
    forall i, j :: 0 <= i < j < |pools| ==> Apart(pools[i], pools[j])
  }

  predicate Apart(a: Entry, b: Entry) {
    a.lastUsedAt <= b.lastUsedAt && a.tenant != b.tenant && a.pool != b.pool
  }

  predicate EntryOk(s: State, e: Entry) {
    e.lastUsedAt <= s.clock && e.pool < |s.owners| && s.owners[e.pool] == e.tenant && e.pool !in s.closing
  }

  predicate Held(pools: seq<Entry>, pool: nat) {
    exists i :: 0 <= i < |pools| && pools[i].pool == pool
  }

  predicate PendingOk(s: State, t: Tenant)
    requires t in s.pending
  {
    match s.pending[t]
    case Settling(pool) => pool.Some? ==> pool.value < |s.owners| && s.owners[pool.value] == t
    case _ => IndexOf(s.pools, t) == |s.pools|
  }

  ghost predicate Inv(s: State) {
    && (s.cap >= 1 ==> |s.pools| <= s.cap)
    && InOrder(s.pools)
    && (forall i :: 0 <= i < |s.pools| ==> EntryOk(s, s.pools[i]))
    && (forall p :: p in s.closing ==> p < |s.owners|)
    && (forall p: nat :: p < |s.owners| ==> Held(s.pools, p) || p in s.closing)
    && (forall t: Tenant :: t in s.pending ==> PendingOk(s, t))
  }

  lemma DroppedAt(pools: seq<Entry>, i: nat)
    requires i < |pools|
    ensures |Dropped(pools, i)| == |pools| - 1
    ensures forall j :: 0 <= j < |pools| - 1 ==> Dropped(pools, i)[j] == pools[if j < i then j else j + 1]
  {
  }

  lemma DroppedHolds(pools: seq<Entry>, i: nat, p: nat)
    requires i < |pools| && Held(pools, p) && p != pools[i].pool
    ensures Held(Dropped(pools, i), p)
  {
    var j :| 0 <= j < |pools| && pools[j].pool == p;
    DroppedAt(pools, i);
    assert Dropped(pools, i)[if j < i then j else j - 1].pool == p;
  }

  lemma DroppedMisses(pools: seq<Entry>, i: nat, t: Tenant)
    requires i < |pools| && IndexOf(pools, t) == |pools|
    ensures IndexOf(Dropped(pools, i), t) == |Dropped(pools, i)|
  {
    DroppedAt(pools, i);
    hide Dropped;
  }

  lemma DroppedHas(pools: seq<Entry>, i: nat)
    requires i < |pools| && InOrder(pools)
    ensures InOrder(Dropped(pools, i))
    ensures forall j :: 0 <= j < |pools| - 1 ==> Dropped(pools, i)[j].pool != pools[i].pool
    ensures forall p: nat :: Held(pools, p) ==> Held(Dropped(pools, i), p) || p == pools[i].pool
    ensures forall t: Tenant :: IndexOf(pools, t) == |pools| ==> IndexOf(Dropped(pools, i), t) == |Dropped(pools, i)|
  {
    DroppedAt(pools, i);
    hide Dropped, Held, IndexOf;
    forall j | 0 <= j < |pools| - 1 ensures Dropped(pools, i)[j].pool != pools[i].pool {
      assert if j < i then Apart(pools[j], pools[i]) else Apart(pools[i], pools[j + 1]);
    }
    forall p: nat | Held(pools, p) ensures Held(Dropped(pools, i), p) || p == pools[i].pool {
      if p != pools[i].pool { DroppedHolds(pools, i, p); }
    }
    forall t: Tenant | IndexOf(pools, t) == |pools| ensures IndexOf(Dropped(pools, i), t) == |Dropped(pools, i)| {
      DroppedMisses(pools, i, t);
    }
  }

  lemma EvictKeeps(s: State, i: nat)
    requires Inv(s) && i < |s.pools|
    ensures Inv(EvictAt(s, i))
  {
    var n := EvictAt(s, i);
    DroppedAt(s.pools, i);
    DroppedHas(s.pools, i);
    hide Dropped, IndexOf, InOrder, Held;
  }

  lemma TouchKeeps(s: State, i: nat)
    requires Inv(s) && i < |s.pools|
    ensures Inv(Touch(s, i))
  {
    var n := Touch(s, i);
    var e := s.pools[i].(lastUsedAt := s.clock);
    var rest := Dropped(s.pools, i);
    DroppedHas(s.pools, i);
    assert EntryOk(s, s.pools[i]);
    forall j | 0 <= j < |rest| ensures Apart(rest[j], e) {
      assert rest[j] == s.pools[if j < i then j else j + 1];
      assert EntryOk(s, rest[j]);
    }
    forall p: nat | Held(s.pools, p) ensures Held(n.pools, p) {
      if p == e.pool {
        assert n.pools[|rest|].pool == p;
      } else {
        var j :| 0 <= j < |rest| && rest[j].pool == p;
        assert n.pools[j].pool == p;
      }
    }
    hide Dropped;
    forall t: Tenant | t in n.pending ensures PendingOk(n, t) {
      assert PendingOk(s, t);
      if IndexOf(s.pools, t) == |s.pools| {
        assert s.pools[i].tenant != t;
        AppendMisses(rest, e, t);
      }
    }
  }

  lemma {:induction false} AppendMisses(pools: seq<Entry>, e: Entry, t: Tenant)
    ensures IndexOf(pools, t) == |pools| && e.tenant != t ==> IndexOf(pools + [e], t) == |pools| + 1
  {
    var i := IndexOf(pools + [e], t);
    if i < |pools| {
      assert (pools + [e])[i] == pools[i];
    }
  }

  lemma InsertKeeps(s: State, t: Tenant)
    requires Inv(s) && Opening(s, t) && (s.cap >= 1 ==> |s.pools| < s.cap)
    ensures Inv(Insert(s, t))
  {
    var n := Insert(s, t);
    var e := Entry(t, |s.owners|, s.clock);
    assert PendingOk(s, t);
    forall j | 0 <= j < |s.pools| ensures Apart(s.pools[j], e) {
      assert EntryOk(s, s.pools[j]);
    }
    forall p: nat | p < |n.owners| && p !in n.closing ensures Held(n.pools, p) {
      if p < |s.owners| {
        var j :| 0 <= j < |s.pools| && s.pools[j].pool == p;
        assert n.pools[j].pool == p;
      } else {
        assert n.pools[|s.pools|].pool == p;
      }
    }
    forall u: Tenant | u in n.pending ensures PendingOk(n, u) {
      if u != t {
        assert PendingOk(s, u);
        AppendMisses(s.pools, e, u);
      }
    }
  }

  lemma NextKeeps(s: State, step: Step)
    requires Inv(s)
    ensures Inv(Next(s, step))
  {
    match step
    case DoGet(t) =>
      if IndexOf(s.pools, t) < |s.pools| { TouchKeeps(s, IndexOf(s.pools, t)); }
    case DoResume(t) =>
      if Opening(s, t) {
        if |s.pools| >= s.cap && s.pools != [] {
          EvictKeeps(s, 0);
          PendingMoves(s, t);
        } else {
          InsertKeeps(s, t);
        }
      }
    case DoEvict(t) =>
      if IndexOf(s.pools, t) < |s.pools| { EvictKeeps(s, IndexOf(s.pools, t)); }
    case DoSweep(t, _, _) =>
      if IndexOf(s.pools, t) < |s.pools| { EvictKeeps(s, IndexOf(s.pools, t)); }
    case DoFail(_) =>
    case DoSettle(_) =>
    case DoWait(_) =>
      forall i | 0 <= i < |s.pools| ensures EntryOk(Next(s, step), s.pools[i]) {
        assert EntryOk(s, s.pools[i]);
      }
  }

  lemma PendingMoves(s: State, t: Tenant)
    requires Inv(s) && Opening(s, t) && s.pools != [] && Inv(EvictAt(s, 0))
    ensures Inv(EvictAt(s, 0).(pending := s.pending[t := MakingRoom]))
  {
    var n := EvictAt(s, 0);
    assert PendingOk(n, t);
    hide EvictAt, IndexOf, EntryOk, InOrder, Held;
  }

  lemma {:induction false} RunKeeps(s: State, steps: seq<Step>)
    requires Inv(s)
    ensures Inv(Run(s, steps))
    decreases |steps|
  {
    hide Inv, Next;
    if steps != [] {
      NextKeeps(s, steps[0]);
      RunKeeps(Next(s, steps[0]), steps[1..]);
    }
  }

  // -------------------------------------------------------------------------
  // Main results
  // -------------------------------------------------------------------------

  lemma {:induction false} CapStays(s: State, steps: seq<Step>)
    ensures Run(s, steps).cap == s.cap
    decreases |steps|
  {
    if steps != [] {
      CapStays(Next(s, steps[0]), steps[1..]);
    }
  }

  lemma OneEntryEach(pools: seq<Entry>, i: nat, j: nat)
    requires InOrder(pools) && i < |pools| && j < |pools| && pools[i].tenant == pools[j].tenant
    ensures i == j
  {
  }

  /** No tenant has two pools of which neither has begun to close. */
  lemma OnePoolEach(s: State, p: nat, q: nat)
    requires Inv(s) && p < q < |s.owners| && s.owners[p] == s.owners[q]
    ensures p in s.closing || q in s.closing
  {
    hide InOrder;
    if p !in s.closing && q !in s.closing {
      var i :| 0 <= i < |s.pools| && s.pools[i].pool == p;
      var j :| 0 <= j < |s.pools| && s.pools[j].pool == q;
      assert EntryOk(s, s.pools[i]) && EntryOk(s, s.pools[j]);
      OneEntryEach(s.pools, i, j);
    }
  }

  /** Whatever the interleaving: the cap holds; the map is in the order of last use; every entry is the pool opened
      for its tenant; every pool ever opened is in the map or its closing has begun, never both; and of one tenant's
      pools all but one are closing. */
  lemma PoolsAreAccountedFor(cap: nat, steps: seq<Step>)
    requires cap >= 1
    ensures var s := Run(Start(cap), steps);
            && |s.pools| <= cap
            && InOrder(s.pools)
            && (forall i :: 0 <= i < |s.pools| ==> EntryOk(s, s.pools[i]))
            && (forall p: nat :: p < |s.owners| ==> (p in s.closing <==> !Held(s.pools, p)))
            && (forall p: nat, q: nat :: p < q < |s.owners| && s.owners[p] == s.owners[q] ==>
                p in s.closing || q in s.closing)
  {
    RunKeeps(Start(cap), steps);
    CapStays(Start(cap), steps);
    var s := Run(Start(cap), steps);
    hide Run, InOrder, IndexOf;
    forall p: nat | p < |s.owners| && Held(s.pools, p) ensures p !in s.closing {
      var i :| 0 <= i < |s.pools| && s.pools[i].pool == p;
      assert EntryOk(s, s.pools[i]);
    }
    forall p: nat, q: nat | p < q < |s.owners| && s.owners[p] == s.owners[q] ensures p in s.closing || q in s.closing {
      OnePoolEach(s, p, q);
    }
  }

  /** What a call for tenant t is handed: at once, or when the opening it waits for is over. */
  function Handed(s: State, t: Tenant): Option<nat> {
    var i := IndexOf(s.pools, t);
    if i < |s.pools| then Some(s.pools[i].pool)
    else if t in s.pending && s.pending[t].Settling? then s.pending[t].pool
    else None
  }

  /** A call is only ever handed a pool that was opened for its own tenant; on a hit, one that is not closing. */
  lemma HandedOwnPool(cap: nat, steps: seq<Step>, t: Tenant)
    ensures var s := Run(Start(cap), steps);
            && (Handed(s, t).Some? ==> Handed(s, t).value < |s.owners| && s.owners[Handed(s, t).value] == t)
            && (IndexOf(s.pools, t) < |s.pools| ==> Handed(s, t).value !in s.closing)
  {
    RunKeeps(Start(cap), steps);
    var s := Run(Start(cap), steps);
    hide Run;
    if IndexOf(s.pools, t) < |s.pools| {
      assert EntryOk(s, s.pools[IndexOf(s.pools, t)]);
    } else if t in s.pending {
      assert PendingOk(s, t);
    }
  }

  /** At once, or at the moment its opening ends, the pool a call is handed is closing exactly when the map no longer
      has one for its tenant. */
  lemma HandedClosingExactly(cap: nat, steps: seq<Step>, t: Tenant)
    requires Handed(Run(Start(cap), steps), t).Some?
    ensures var s := Run(Start(cap), steps);
            Handed(s, t).value in s.closing <==> IndexOf(s.pools, t) == |s.pools|
  {
    RunKeeps(Start(cap), steps);
    HandedOwnPool(cap, steps, t);
    var s := Run(Start(cap), steps);
    hide Run, InOrder;
    var p := Handed(s, t).value;
    if Held(s.pools, p) {
      var i :| 0 <= i < |s.pools| && s.pools[i].pool == p;
      assert EntryOk(s, s.pools[i]);
    }
  }

  lemma {:induction false} OwnersGrow(s: State, steps: seq<Step>)
    ensures s.owners <= Run(s, steps).owners
    decreases |steps|
  {
    if steps != [] {
      OwnersGrow(Next(s, steps[0]), steps[1..]);
    }
  }

  lemma {:induction false} RunInTwo(s: State, steps: seq<Step>, more: seq<Step>)
    ensures Run(s, steps + more) == Run(Run(s, steps), more)
    decreases |steps|
  {
    hide Next;
    if steps == [] {
      assert steps + more == more;
    } else {
      assert (steps + more)[1..] == steps[1..] + more;
      RunInTwo(Next(s, steps[0]), steps[1..], more);
    }
  }

  /** A call that waits is handed the pool of the opening it waited for, at any time after that opening ended, its
      place in the pending map long gone: it is a pool of the call's own tenant, and closing exactly when the map does
      not hold that pool any more, whichever pool the tenant has by then. */
  lemma WaiterHandedClosingExactly(cap: nat, steps: seq<Step>, t: Tenant, more: seq<Step>)
    requires var s := Run(Start(cap), steps); t in s.pending && s.pending[t].Settling? && s.pending[t].pool.Some?
    ensures var p := Run(Start(cap), steps).pending[t].pool.value;
            var n := Run(Run(Start(cap), steps), more);
            p < |n.owners| && n.owners[p] == t && (p in n.closing <==> !Held(n.pools, p))
  {
    var s := Run(Start(cap), steps);
    var n := Run(s, more);
    RunInTwo(Start(cap), steps, more);
    RunKeeps(Start(cap), steps);
    RunKeeps(Start(cap), steps + more);
    OwnersGrow(s, more);
    assert PendingOk(s, t);
    hide Run, InOrder, IndexOf;
    var p := s.pending[t].pool.value;
    if Held(n.pools, p) {
      var i :| 0 <= i < |n.pools| && n.pools[i].pool == p;
      assert EntryOk(n, n.pools[i]);
    }
  }

  /** The closing case occurs. */
  lemma WaiterMayBeHandedClosingPool()
    ensures var s := Run(Start(1), [DoGet(7), DoResume(7), DoEvict(7)]);
            Handed(s, 7).Some? && Handed(s, 7).value in s.closing
  {
    var s1 := Next(Start(1), DoGet(7));
    assert s1.pending == map[7 := Loading] && s1.pools == [];
    var s2 := Next(s1, DoResume(7));
    assert s2.pools == [Entry(7, 0, 0)] && s2.pending == map[7 := Settling(Some(0))];
    var s3 := Next(s2, DoEvict(7));
    assert s3.pools == [];
    var steps := [DoGet(7), DoResume(7), DoEvict(7)];
    assert steps[1..] == [DoResume(7), DoEvict(7)] && steps[1..][1..] == [DoEvict(7)] && steps[1..][1..][1..] == [];
    assert Run(s2, [DoEvict(7)]) == s3;
    assert Run(s1, [DoResume(7), DoEvict(7)]) == s3;
  }

  // -------------------------------------------------------------------------
  // What each step does to the map
  // -------------------------------------------------------------------------

  /** A hit makes the tenant's pool the last one, used now; the others keep their order and their times. */
  lemma HitMovesToEnd(s: State, t: Tenant)
    requires IndexOf(s.pools, t) < |s.pools|
    ensures var n, i := Next(s, DoGet(t)), IndexOf(s.pools, t);
            && |n.pools| == |s.pools| && n.pools[|s.pools| - 1] == Entry(t, s.pools[i].pool, s.clock)
            && (forall j :: 0 <= j < |s.pools| - 1 ==> n.pools[j] == s.pools[if j < i then j else j + 1])
            && n.pending == s.pending && n.owners == s.owners && n.closing == s.closing && n.clock == s.clock
  {
    DroppedAt(s.pools, IndexOf(s.pools, t));
  }

  /** Making room closes exactly one pool, the least recently used. */
  lemma LeastRecentCloses(s: State, t: Tenant)
    requires Inv(s) && Opening(s, t) && |s.pools| >= s.cap && s.pools != []
    ensures var n := Next(s, DoResume(t));
            && n.pools == s.pools[1..] && n.closing == s.closing + {s.pools[0].pool}
            && (forall j :: 0 <= j < |s.pools| ==> s.pools[0].lastUsedAt <= s.pools[j].lastUsedAt)
            && n.owners == s.owners && Opening(n, t)
  {
    hide IndexOf, EntryOk, PendingOk, Held;
    forall j | 0 <= j < |s.pools| ensures s.pools[0].lastUsedAt <= s.pools[j].lastUsedAt {
      if j > 0 { assert Apart(s.pools[0], s.pools[j]); }
    }
  }

  /** Openings going on: room made, pools opened, attempts ended, time passing. */
  predicate Opens(step: Step) {
    step.DoResume? || step.DoFail? || step.DoSettle? || step.DoWait?
  }

  ghost predicate SuffixThenNewer(pools: seq<Entry>, later: seq<Entry>) {
    exists k: nat :: k <= |pools| && SuffixAt(pools, later, k)
  }

  predicate SuffixAt(pools: seq<Entry>, later: seq<Entry>, k: nat)
    requires k <= |pools|
  {
    |later| >= |pools| - k && later[..|pools| - k] == pools[k..]
  }

  /** So whatever is opened, pools are closed in the order of their last use: what is left of the map is its end, and
      behind it what was opened since. The pool that was just hit goes after every other. */
  lemma {:induction false} ClosedInOrder(s: State, steps: seq<Step>)
    requires forall i :: 0 <= i < |steps| ==> Opens(steps[i])
    ensures SuffixThenNewer(s.pools, Run(s, steps).pools)
    decreases |steps|
  {
    var later := Run(s, steps).pools;
    if steps == [] {
      assert s.pools[0..] == s.pools;
      assert SuffixAt(s.pools, later, 0);
    } else {
      var n := Next(s, steps[0]);
      assert n.pools == s.pools || (s.pools != [] && n.pools == s.pools[1..]) || |n.pools| == |s.pools| + 1 by {
        if s.pools != [] { assert Dropped(s.pools, 0) == s.pools[1..]; }
      }
      assert |n.pools| == |s.pools| + 1 ==> n.pools[..|s.pools|] == s.pools;
      hide Next, SuffixThenNewer;
      ClosedInOrder(n, steps[1..]);
      SuffixCompose(s.pools, n.pools, later);
    }
  }

  lemma SuffixCompose(pools: seq<Entry>, mid: seq<Entry>, later: seq<Entry>)
    requires mid == pools || (pools != [] && mid == pools[1..]) || (|mid| == |pools| + 1 && mid[..|pools|] == pools)
    requires SuffixThenNewer(mid, later)
    ensures SuffixThenNewer(pools, later)
  {
    var k: nat :| k <= |mid| && SuffixAt(mid, later, k);
    if |mid| < |pools| {
      assert pools[k + 1..] == mid[k..];
      assert SuffixAt(pools, later, k + 1);
    } else if |mid| > |pools| && k <= |pools| {
      assert pools[k..] == mid[k..][..|pools| - k];
      assert later[..|pools| - k] == later[..|mid| - k][..|pools| - k];
      assert SuffixAt(pools, later, k);
    } else if |mid| > |pools| {
      assert SuffixAt(pools, later, |pools|);
    }
  }

  /** With room, a pool is opened for the tenant: a new one, the last of the map, used now. */
  lemma OpenedIsLast(s: State, t: Tenant)
    requires Opening(s, t) && |s.pools| < s.cap
    ensures var n := Next(s, DoResume(t));
            && n.pools == s.pools + [Entry(t, |s.owners|, s.clock)] && n.owners == s.owners + [t]
            && n.closing == s.closing && t in n.pending && n.pending[t] == Settling(Some(|s.owners|))
  {
  }

  /** An eviction, or a sweep that finds the pool old and idle, closes the tenant's pool and no other. */
  lemma EvictedCloses(s: State, t: Tenant, cutoff: int, idle: bool)
    requires Inv(s) && IndexOf(s.pools, t) < |s.pools|
    ensures var i := IndexOf(s.pools, t);
            var n := Next(s, DoEvict(t));
            && n.closing == s.closing + {s.pools[i].pool} && IndexOf(n.pools, t) == |n.pools|
            && (forall p: nat :: Held(s.pools, p) && p != s.pools[i].pool ==> Held(n.pools, p))
            && Next(s, DoSweep(t, cutoff, idle)) == if s.pools[i].lastUsedAt < cutoff && idle then n else s
  {
    var i := IndexOf(s.pools, t);
    DroppedHas(s.pools, i);
    hide Dropped, Held, EntryOk, PendingOk;
    EvictedMisses(s, t);
  }

  lemma EvictedMisses(s: State, t: Tenant)
    requires Inv(s) && IndexOf(s.pools, t) < |s.pools|
    ensures var left := Dropped(s.pools, IndexOf(s.pools, t)); IndexOf(left, t) == |left|
  {
    hide Held, EntryOk, PendingOk;
    var i := IndexOf(s.pools, t);
    DroppedAt(s.pools, i);
    hide Dropped;
    forall j | 0 <= j < |s.pools| - 1 ensures Dropped(s.pools, i)[j].tenant != t {
      assert if j < i then Apart(s.pools[j], s.pools[i]) else Apart(s.pools[i], s.pools[j + 1]);
    }
  }

  /** An opening that cannot load its credentials ends without a pool; an opening that is over leaves the pending map,
      so that the next call starts another; neither touches a pool. Only waiting advances the clock. */
  lemma OpeningEnds(s: State, t: Tenant, ms: nat)
    requires t in s.pending
    ensures s.pending[t] == Loading ==> Next(s, DoFail(t)) == s.(pending := s.pending[t := Settling(None)])
    ensures s.pending[t] != Loading ==> Next(s, DoFail(t)) == s
    ensures s.pending[t].Settling? ==>
              var n := Next(s, DoSettle(t));
              && t !in n.pending && n == s.(pending := n.pending)
              && forall u: Tenant :: u != t ==> (u in n.pending <==> u in s.pending)
    ensures !s.pending[t].Settling? ==> Next(s, DoSettle(t)) == s
    ensures Next(s, DoWait(ms)) == s.(clock := s.clock + ms)
  {
  }

  /** A miss starts an opening unless one is under way, and hands out nothing yet. */
  lemma MissOpens(s: State, t: Tenant)
    requires IndexOf(s.pools, t) == |s.pools|
    ensures var n := Next(s, DoGet(t));
            if t in s.pending then n == s
            else n == s.(pending := n.pending) && t in n.pending && n.pending[t] == Loading
    ensures Opening(s, t) && |s.pools| >= s.cap && s.pools != [] ==> Next(s, DoResume(t)).pending[t] == MakingRoom
  {
  }
}

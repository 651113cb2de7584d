/** The client's queue of offline-safe operations and the loop that replays it. */
module OfflineQueue {
  type OpId = nat

  /** Every kind but task updates is sent with its operation id as the idempotency key. */
  datatype OpKind = TaskCreate | TaskUpdate(task: nat) | TaskComment | ReminderCreate | DaybookCreate

  datatype OpStatus = Waiting | Errored

  /** A patch maps field names to values; `payload` stands for the rest of the request body. */
  datatype Op = Op(id: OpId, kind: OpKind, payload: nat, patch: map<nat, nat>, createdAt: int, status: OpStatus)

  datatype Queue = Queue(ops: map<OpId, Op>, conflicts: map<OpId, Op>)

  /** What one attempt to send an operation came back with; Lost stands for every network error. */
  datatype Outcome = Done | Lost | VersionConflict | Refused

  // -------------------------------------------------------------------------
  // Enqueueing
  // -------------------------------------------------------------------------

  predicate WaitingUpdate(q: Queue, id: OpId, task: nat) {
    id in q.ops && q.ops[id].kind == TaskUpdate(task) && q.ops[id].status == Waiting
  }

  /** A new operation, or a task update folded into one that still waits: later fields win. */
  function Enqueued(q: Queue, op: Op, into: OpId, coalesce: bool): Queue {
    if coalesce && into in q.ops
    then q.(ops := q.ops[into := q.ops[into].(patch := q.ops[into].patch + op.patch)])
    else q.(ops := q.ops[op.id := op])
  }

  /** At most one waiting update for each task. */
  ghost predicate OneUpdatePerTask(q: Queue) {
    forall i, j, t :: WaitingUpdate(q, i, t) && WaitingUpdate(q, j, t) ==> i == j
  }

  // -------------------------------------------------------------------------
  // Replaying
  // -------------------------------------------------------------------------

  /** `op` is the copy read when the replay began. */
  function AfterAttempt(q: Queue, op: Op, outcome: Outcome): Queue {
    match outcome
    case Done => q.(ops := q.ops - {op.id})
    case Lost => q
    case VersionConflict =>
      if op.kind.TaskUpdate? then Queue(q.ops - {op.id}, q.conflicts[op.id := op])
      else q.(ops := q.ops[op.id := op.(status := Errored)])
    case Refused => q.(ops := q.ops[op.id := op.(status := Errored)])
  }

  /** How many operations are settled before the connection is lost. */
  function Settled(outcomes: seq<Outcome>): (n: nat)
    ensures n <= |outcomes|
    ensures forall i :: 0 <= i < n ==> outcomes[i] != Lost
    ensures n < |outcomes| ==> outcomes[n] == Lost
  {
    if outcomes == [] || outcomes[0] == Lost then 0 else 1 + Settled(outcomes[1..])
  }

  function AfterAttempts(q: Queue, ops: seq<Op>, outcomes: seq<Outcome>): Queue
    requires |ops| == |outcomes|
  {
    if ops == [] then q
    else AfterAttempt(AfterAttempts(q, ops[..|ops| - 1], outcomes[..|ops| - 1]), ops[|ops| - 1], outcomes[|ops| - 1])
  }

  /** One replay of the given operations, in order, stopping at the first network error. */
  function Replayed(q: Queue, ops: seq<Op>, outcomes: seq<Outcome>): Queue
    requires |ops| == |outcomes|
  {
    AfterAttempts(q, ops[..Settled(outcomes)], outcomes[..Settled(outcomes)])
  }

  function Outcomes(ops: seq<Op>, attempt: Op -> Outcome): (outcomes: seq<Outcome>)
    ensures |outcomes| == |ops| && forall i :: 0 <= i < |ops| ==> outcomes[i] == attempt(ops[i])
  {
    seq(|ops|, i requires 0 <= i < |ops| => attempt(ops[i]))
  }

  function Marked(q: Queue, id: OpId): Queue {
    if id in q.ops then q.(ops := q.ops[id := q.ops[id].(status := Waiting)]) else q
  }

  ghost predicate DistinctIds(ops: seq<Op>) {
    forall i, j :: 0 <= i < j < |ops| ==> ops[i].id != ops[j].id
  }

  predicate Untouched(q: Queue, r: Queue, id: OpId) {
    && (id in r.ops <==> id in q.ops) && (id in q.ops ==> r.ops[id] == q.ops[id])
    && (id in r.conflicts <==> id in q.conflicts) && (id in q.conflicts ==> r.conflicts[id] == q.conflicts[id])
  }

  /** Where an attempted operation is afterwards. */
  predicate Placed(q: Queue, r: Queue, op: Op, outcome: Outcome) {
    match outcome
    case Done => op.id !in r.ops && (op.id in r.conflicts <==> op.id in q.conflicts)
    case Lost => (op.id in r.ops <==> op.id in q.ops) && (op.id in q.ops ==> r.ops[op.id] == q.ops[op.id])
    case VersionConflict =>
      if op.kind.TaskUpdate? then op.id !in r.ops && op.id in r.conflicts && r.conflicts[op.id] == op
      else op.id in r.ops && r.ops[op.id] == op.(status := Errored)
    case Refused => op.id in r.ops && r.ops[op.id] == op.(status := Errored)
  }

  lemma AttemptIsLocal(q: Queue, op: Op, outcome: Outcome)
    ensures Placed(q, AfterAttempt(q, op, outcome), op, outcome)
    ensures forall id :: id != op.id ==> Untouched(q, AfterAttempt(q, op, outcome), id)
  {
  }

  /** Attempts change nothing but their own operations. */
  lemma {:induction false} AttemptsAreLocal(q: Queue, ops: seq<Op>, outcomes: seq<Outcome>, id: OpId)
    requires |ops| == |outcomes| && forall i :: 0 <= i < |ops| ==> ops[i].id != id
    ensures Untouched(q, AfterAttempts(q, ops, outcomes), id)
  {
    if ops != [] {
      var n := |ops| - 1;
      AttemptsAreLocal(q, ops[..n], outcomes[..n], id);
      hide AfterAttempt;
      AttemptIsLocal(AfterAttempts(q, ops[..n], outcomes[..n]), ops[n], outcomes[n]);
    }
  }

  /** Each attempted operation ends up where its own outcome puts it. */
  lemma {:induction false} AttemptsPlace(q: Queue, ops: seq<Op>, outcomes: seq<Outcome>, i: nat)
    requires |ops| == |outcomes| && DistinctIds(ops) && i < |ops|
    ensures Placed(q, AfterAttempts(q, ops, outcomes), ops[i], outcomes[i])
  {
    var n := |ops| - 1;
    var before := AfterAttempts(q, ops[..n], outcomes[..n]);
    var after := AfterAttempts(q, ops, outcomes);
    assert after == AfterAttempt(before, ops[n], outcomes[n]);
    hide AfterAttempt, AfterAttempts;
    AttemptIsLocal(before, ops[n], outcomes[n]);
    if i == n {
      AttemptsAreLocal(q, ops[..n], outcomes[..n], ops[n].id);
      PlacedFrom(q, before, after, ops[n], outcomes[n]);
    } else {
      AttemptsPlace(q, ops[..n], outcomes[..n], i);
      StaysPlaced(q, before, after, ops[i], outcomes[i]);
    }
  }

  lemma PlacedFrom(q: Queue, before: Queue, after: Queue, op: Op, outcome: Outcome)
    requires Untouched(q, before, op.id) && Placed(before, after, op, outcome)
    ensures Placed(q, after, op, outcome)
  {
  }

  lemma StaysPlaced(q: Queue, before: Queue, after: Queue, op: Op, outcome: Outcome)
    requires Placed(q, before, op, outcome) && Untouched(before, after, op.id)
    ensures Placed(q, after, op, outcome)
  {
  }

  /** After a replay every operation tried before the connection broke is settled by its own outcome, and every
      other operation, the one in flight included, is exactly as it was: none is skipped and none is lost. */
  lemma ReplayAccountsForEveryOp(q: Queue, ops: seq<Op>, outcomes: seq<Outcome>, id: OpId)
    requires |ops| == |outcomes| && DistinctIds(ops)
    ensures var r, n := Replayed(q, ops, outcomes), Settled(outcomes);
            && (forall i :: 0 <= i < n && ops[i].id == id ==> Placed(q, r, ops[i], outcomes[i]))
            && ((forall i :: 0 <= i < n ==> ops[i].id != id) ==> Untouched(q, r, id))
  {
    var n := Settled(outcomes);
    hide AfterAttempts, Placed, Untouched;
    forall i | 0 <= i < n && ops[i].id == id ensures Placed(q, Replayed(q, ops, outcomes), ops[i], outcomes[i]) {
      AttemptsPlace(q, ops[..n], outcomes[..n], i);
    }
    if forall i :: 0 <= i < n ==> ops[i].id != id {
      AttemptsAreLocal(q, ops[..n], outcomes[..n], id);
    }
  }

  /** An edit of a task may be merged into an operation while a replay is under way, after j attempts, that has yet to
      come to operation i or has it in flight. The replay goes on with the copies it read at its start, so the merged
      patch is still queued at its end exactly when the connection broke before operation i was settled, or when the
      edit changed nothing and the operation was refused. Otherwise what was read at the start is what is settled: the
      edit is never sent. */
  lemma MergedEditSurvives(q: Queue, ops: seq<Op>, outcomes: seq<Outcome>, j: nat, i: nat, edit: Op)
    requires |ops| == |outcomes| && DistinctIds(ops) && j <= Settled(outcomes) && j <= i < |ops|
    requires ops[i].id in q.ops && q.ops[ops[i].id] == ops[i] && ops[i].kind.TaskUpdate?
    ensures var id, n, merged := ops[i].id, Settled(outcomes), ops[i].patch + edit.patch;
            var m := Enqueued(AfterAttempts(q, ops[..j], outcomes[..j]), edit, id, true);
            var r := AfterAttempts(m, ops[j..n], outcomes[j..n]);
            && id in m.ops && m.ops[id] == ops[i].(patch := merged)
            && ((id in r.ops && r.ops[id].patch == merged) <==>
                i >= n || (outcomes[i] == Refused && merged == ops[i].patch))
            && (i < n ==> Placed(m, r, ops[i], outcomes[i]))
  {
    var id, n := ops[i].id, Settled(outcomes);
    var before := AfterAttempts(q, ops[..j], outcomes[..j]);
    var m := Enqueued(before, edit, id, true);
    hide AfterAttempts;
    AttemptsAreLocal(q, ops[..j], outcomes[..j], id);
    assert id in m.ops && m.ops[id] == ops[i].(patch := ops[i].patch + edit.patch);
    if i < n {
      assert ops[j..n][i - j] == ops[i] && outcomes[j..n][i - j] == outcomes[i];
      AttemptsPlace(m, ops[j..n], outcomes[j..n], i - j);
    } else {
      AttemptsAreLocal(m, ops[j..n], outcomes[j..n], id);
    }
  }

  /** The rest of a replay after j attempts completes it. */
  lemma {:induction false} ReplayInTwoParts(q: Queue, ops: seq<Op>, outcomes: seq<Outcome>, j: nat, n: nat)
    requires |ops| == |outcomes| && j <= n <= |ops|
    ensures AfterAttempts(AfterAttempts(q, ops[..j], outcomes[..j]), ops[j..n], outcomes[j..n]) ==
            AfterAttempts(q, ops[..n], outcomes[..n])
    decreases n
  {
    if j < n {
      ReplayInTwoParts(q, ops, outcomes, j, n - 1);
      assert ops[j..n][..n - 1 - j] == ops[j..n - 1] && outcomes[j..n][..n - 1 - j] == outcomes[j..n - 1];
      assert ops[..n][..n - 1] == ops[..n - 1] && outcomes[..n][..n - 1] == outcomes[..n - 1];
    }
  }

  // -------------------------------------------------------------------------
  // The module-level state
  // -------------------------------------------------------------------------

  datatype Connectivity = Online | Offline | Syncing | SyncError

  class QueueStore {
    var ops: map<OpId, Op>
    var conflicts: map<OpId, Op>
    var connectivity: Connectivity

    function State(): Queue
      reads this
    {
      Queue(ops, conflicts)
    }

    constructor ()
      ensures State() == Queue(map[], map[]) && connectivity == Online
    {
      ops, conflicts, connectivity := map[], map[], Online;
    }

    method Enqueue(op: Op) returns (id: OpId)
      requires op.status == Waiting
      modifies this`ops
      ensures OneUpdatePerTask(old(State())) ==> OneUpdatePerTask(State())
      ensures (op.kind.TaskUpdate? && exists i :: WaitingUpdate(old(State()), i, op.kind.task)) ==>
                WaitingUpdate(old(State()), id, op.kind.task) && State() == Enqueued(old(State()), op, id, true)
      ensures !(op.kind.TaskUpdate? && exists i :: WaitingUpdate(old(State()), i, op.kind.task)) ==>
                id == op.id && State() == Enqueued(old(State()), op, id, false)
    {
      if op.kind.TaskUpdate? && exists i :: i in ops && WaitingUpdate(State(), i, op.kind.task) {
        id :| id in ops && WaitingUpdate(State(), id, op.kind.task);
        ops := ops[id := ops[id].(patch := ops[id].patch + op.patch)];
        assert forall i, t :: WaitingUpdate(State(), i, t) <==> WaitingUpdate(old(State()), i, t);
      } else {
        id := op.id;
        ops := ops[op.id := op];
        assert forall i, t :: i != op.id ==> (WaitingUpdate(State(), i, t) <==> WaitingUpdate(old(State()), i, t));
      }
    }

    /** The waiting operations, oldest first. */
    method Pending() returns (out: seq<Op>)
      requires forall id :: id in ops ==> ops[id].id == id
      ensures DistinctIds(out)
      ensures forall i, j :: 0 <= i < j < |out| ==> out[i].createdAt <= out[j].createdAt
      ensures forall op :: op in out <==> op.id in ops && ops[op.id] == op && op.status == Waiting
    {
      out := [];
      var rest := set id | id in ops && ops[id].status == Waiting;
      while rest != {}
        invariant OldestFirst(ops, out, rest)
        decreases |rest|
      {
        OldestExists(ops, rest);
        var id :| id in rest && forall other :: other in rest ==> ops[id].createdAt <= ops[other].createdAt;
        OldestFurther(ops, out, rest, id);
        out := out + [ops[id]];
        rest := rest - {id};
      }
    }

    /** The replay loop; `outcomes[i]` is what sending the i-th operation comes back with. */
    method DoReplay(pending: seq<Op>, outcomes: seq<Outcome>)
      requires |pending| == |outcomes|
      modifies this
      ensures State() == Replayed(old(State()), pending, outcomes)
      ensures connectivity ==
              if (pending == [] && old(connectivity) == Offline) || Settled(outcomes) < |outcomes| then Offline
                              else if exists id :: id in ops && ops[id].status == Errored then SyncError else Online
    {
      if pending == [] {
        if connectivity != Offline {
          connectivity := if exists id :: id in ops && ops[id].status == Errored then SyncError else Online;
        }
        return;
      }
      connectivity := Syncing;
      var i := 0;
      while i < |pending|
        invariant 0 <= i <= |pending|
        invariant i <= Settled(outcomes)
        invariant State() == AfterAttempts(old(State()), pending[..i], outcomes[..i])
      {
        assert pending[..i + 1][..i] == pending[..i] && outcomes[..i + 1][..i] == outcomes[..i];
        var op := pending[i];
        match outcomes[i] {
          case Done => ops := ops - {op.id};
          case Lost =>
            connectivity := Offline;
            return;
          case VersionConflict =>
            if op.kind.TaskUpdate? {
              conflicts := conflicts[op.id := op];
              ops := ops - {op.id};
            } else {
              ops := ops[op.id := op.(status := Errored)];
            }
          case Refused => ops := ops[op.id := op.(status := Errored)];
        }
        i := i + 1;
      }
      connectivity := if exists id :: id in ops && ops[id].status == Errored then SyncError else Online;
    }

    /** Marking as waiting again is the one way two waiting updates of a task can arise: exactly when another one waits
        already. */
    method MarkWaiting(id: OpId)
      requires forall i :: i in ops ==> ops[i].id == i
      modifies this`ops
      ensures OneUpdatePerTask(old(State())) ==>
                (OneUpdatePerTask(State()) <==>
                 !(id in old(ops) && old(ops)[id].kind.TaskUpdate? &&
                   exists j :: j != id && WaitingUpdate(old(State()), j, old(ops)[id].kind.task)))
      ensures State() == Marked(old(State()), id)
    {
      if id in ops {
        ops := ops[id := ops[id].(status := Waiting)];
        assert forall j, t :: j != id ==> (WaitingUpdate(State(), j, t) <==> WaitingUpdate(old(State()), j, t));
        if ops[id].kind.TaskUpdate? {
          assert WaitingUpdate(State(), id, ops[id].kind.task);
        }
      }
    }

    /** Marks the operation and replays everything that waits then; `attempt` is what sending an operation comes back
        with. */
    method RetryOp(id: OpId, attempt: Op -> Outcome) returns (pending: seq<Op>)
      requires forall i :: i in ops ==> ops[i].id == i
      modifies this
      ensures var marked := Marked(old(State()), id);
              && (forall op :: op in pending <==>
                    op.id in marked.ops && marked.ops[op.id] == op && op.status == Waiting)
              && (forall i, j :: 0 <= i < j < |pending| ==> pending[i].createdAt <= pending[j].createdAt)
              && State() == Replayed(marked, pending, Outcomes(pending, attempt))
    {
      MarkWaiting(id);
      pending := Pending();
      DoReplay(pending, Outcomes(pending, attempt));
    }

    method DiscardOp(id: OpId)
      modifies this
      ensures ops == old(ops) - {id} && conflicts == old(conflicts)
      ensures connectivity ==
              if old(connectivity) == SyncError && (forall i :: i in ops ==> ops[i].status != Errored) then Online
              else old(connectivity)
    {
      ops := ops - {id};
      if !(exists i :: i in ops && ops[i].status == Errored) && connectivity == SyncError {
        connectivity := Online;
      }
    }
  }

  lemma {:induction false} OldestExists(ops: map<OpId, Op>, rest: set<OpId>)
    requires rest != {} && forall id :: id in rest ==> id in ops
    ensures exists id :: id in rest && forall other :: other in rest ==> ops[id].createdAt <= ops[other].createdAt
    decreases |rest|
  {
    var x :| x in rest;
    if rest != {x} {
      assert rest == {x} + (rest - {x});
      OldestExists(ops, rest - {x});
      var y :| y in rest - {x} && forall other :: other in rest - {x} ==> ops[y].createdAt <= ops[other].createdAt;
      var m := if ops[x].createdAt <= ops[y].createdAt then x else y;
      assert forall other :: other in rest ==> ops[m].createdAt <= ops[other].createdAt;
    } else {
      assert forall other :: other in rest ==> ops[x].createdAt <= ops[other].createdAt;
    }
  }

  /** The list so far, in order, older than everything that is left. */
  ghost predicate OldestFirst(ops: map<OpId, Op>, out: seq<Op>, rest: set<OpId>) {
    && (forall id :: id in rest ==> id in ops && ops[id].status == Waiting)
    && DistinctIds(out)
    && (forall op :: op in out ==> op.id !in rest && op.id in ops && ops[op.id] == op && op.status == Waiting)
    && (forall id :: id in ops && ops[id].status == Waiting ==> id in rest || ops[id] in out)
    && (forall i, j :: 0 <= i < j < |out| ==> out[i].createdAt <= out[j].createdAt)
    && (forall op, id :: op in out && id in rest ==> op.createdAt <= ops[id].createdAt)
  }

  lemma OldestFurther(ops: map<OpId, Op>, out: seq<Op>, rest: set<OpId>, id: OpId)
    requires OldestFirst(ops, out, rest) && id in rest && ops[id].id == id
    requires forall other :: other in rest ==> ops[id].createdAt <= ops[other].createdAt
    ensures OldestFirst(ops, out + [ops[id]], rest - {id})
  {
    assert forall i :: 0 <= i < |out| ==> out[i] in out;
    assert forall op :: op in out + [ops[id]] <==> op in out || op == ops[id];
  }

  // -------------------------------------------------------------------------
  // What enqueueing leaves
  // -------------------------------------------------------------------------

  /** A new operation is in the queue as it was given; folded into a waiting one, it only changes that one's patch, to
      the new value for every field it has and the old value for every other. All other operations, and the conflicts,
      are as they were. */
  lemma EnqueuedLeaves(q: Queue, op: Op, into: OpId, coalesce: bool)
    ensures var n := Enqueued(q, op, into, coalesce);
            if coalesce && into in q.ops then
              && n.ops.Keys == q.ops.Keys && n.ops[into] == q.ops[into].(patch := n.ops[into].patch)
              && (forall f :: f in n.ops[into].patch <==> f in op.patch || f in q.ops[into].patch)
              && (forall f :: f in n.ops[into].patch ==>
                    n.ops[into].patch[f] == if f in op.patch then op.patch[f] else q.ops[into].patch[f])
            else op.id in n.ops && n.ops[op.id] == op
    ensures forall id :: id != (if coalesce && into in q.ops then into else op.id) ==>
              Untouched(q, Enqueued(q, op, into, coalesce), id)
    ensures Enqueued(q, op, into, coalesce).conflicts == q.conflicts
  {
  }

  /** A marked operation waits to be sent again; nothing else of it or of any other operation changes. */
  lemma MarkedWaits(q: Queue, id: OpId)
    requires id in q.ops
    ensures id in Marked(q, id).ops && Marked(q, id).ops[id] == q.ops[id].(status := Waiting)
    ensures forall other :: other != id ==> Untouched(q, Marked(q, id), other)
  {
  }
}

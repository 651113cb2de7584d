/** What a client can count on when it tries again: a failed request gives its key back, a stored answer is given again,
    and an operation stays in the queue until it is sent or discarded. */
module Retries {
  import opened Wrappers
  import opened OfflineQueue
  import opened ExactlyOnce

  /** Inserting the key lets the handler run exactly when nobody has the key. */
  lemma InsertRuns(w: World, id: RequestId)
    requires At(w, id) == Arrived
    ensures var n, key := Next(w, Insert(id)), w.requests[id].key;
            && (At(n, id) == Running <==> key !in w.rows) && (At(n, id) == Blocked <==> key in w.rows)
            && key in n.rows && n.effects == w.effects
            && (key in w.rows ==> n.rows == w.rows)
  {
  }

  /** A key that is free stays free until a request with it arrives at the index. */
  lemma FreeUntilInserted(w: World, s: Step, key: Key)
    requires key !in w.rows && !(s.Insert? && s.id in w.requests && w.requests[s.id].key == key)
    ensures key !in Next(w, s).rows
  {
  }

  /** A handler that fails changes nothing yet; the request then releases its key. */
  lemma FailureWaits(w: World, id: RequestId)
    requires At(w, id) == Running
    ensures var n := Next(w, Fail(id));
            At(n, id) == Failing && n.rows == w.rows && n.effects == w.effects && n.replies == w.replies
  {
  }

  /** A reply, and a crash, is the end of a request: it takes no further step. */
  lemma RequestEnds(w: World, s: Step, later: Step)
    requires Enabled(w, s) && (s.Release? || s.StoreFails? || s.Answer? || s.Lookup? || s.Crash?)
    requires later.Insert? || later.Execute? || later.Fail? || later.Release? || later.Store? || later.StoreFails? ||
             later.Answer? || later.Lookup?
    ensures At(Next(w, s), s.id) == Gone
    ensures later.id == s.id ==> !Enabled(Next(w, s), later)
  {
  }

  /** A response that cannot be stored is answered like a failure, though the effect is there. */
  lemma FailedStoreRejects(w: World, id: RequestId)
    requires At(w, id).Executed?
    ensures var n, key := Next(w, StoreFails(id)), w.requests[id].key;
            Rejected(key) in n.replies && key !in n.rows && n.effects == w.effects
  {
  }

  predicate Inserts(w: World, s: Step, key: Key) {
    s.Insert? && s.id in w.requests && w.requests[s.id].key == key
  }

  /** No request with the key arrives at the index during the run. */
  ghost predicate LeftAlone(w: World, steps: seq<Step>, key: Key)
    decreases |steps|
  {
    steps != [] ==> !Inserts(w, steps[0], key) && LeftAlone(Next(w, steps[0]), steps[1..], key)
  }

  lemma {:induction false} StaysFree(w: World, steps: seq<Step>, key: Key)
    requires key !in w.rows && LeftAlone(w, steps, key)
    ensures key !in Run(w, steps).rows
    decreases |steps|
  {
    if steps != [] {
      FreeUntilInserted(w, steps[0], key);
      hide Next;
      StaysFree(Next(w, steps[0]), steps[1..], key);
    }
  }

  /** A failed request gives its key back without an effect; and the next request with that key, whatever its body and
      whatever other requests do in between, comes to run its handler and takes effect. */
  lemma FailureFreesKey(w: World, id: RequestId, steps: seq<Step>, again: RequestId, body: Body, response: Response)
    requires At(w, id) == Failing
    requires LeftAlone(Next(w, Release(id)), steps, w.requests[id].key)
    requires again !in Run(Next(w, Release(id)), steps).requests
    ensures var key, n := w.requests[id].key, Next(w, Release(id));
            var m := Run(n, steps);
            && key !in n.rows && n.effects == w.effects && Rejected(key) in n.replies
            && var ran := Next(Next(Next(m, Send(again, key, body)), Insert(again)), Execute(again, response));
               At(ran, again) == Executed(response) && ran.effects == m.effects + [Effect(key, body, response)]
  {
    var key, n := w.requests[id].key, Next(w, Release(id));
    assert key !in n.rows && n.effects == w.effects && Rejected(key) in n.replies;
    StaysFree(n, steps, key);
    hide Next, Run, LeftAlone;
    TakesEffect(Run(n, steps), again, key, body, response);
  }

  lemma TakesEffect(w: World, again: RequestId, key: Key, body: Body, response: Response)
    requires again !in w.requests && key !in w.rows
    ensures var ran := Next(Next(Next(w, Send(again, key, body)), Insert(again)), Execute(again, response));
            At(ran, again) == Executed(response) && ran.effects == w.effects + [Effect(key, body, response)]
  {
    var w1 := Next(w, Send(again, key, body));
    assert At(w1, again) == Arrived && w1.rows == w.rows && w1.effects == w.effects;
    var w2 := Next(w1, Insert(again));
    assert At(w2, again) == Running && w2.effects == w.effects && w2.requests[again] == Request(key, body, Running);
  }

  // -------------------------------------------------------------------------
  // Stored answers
  // -------------------------------------------------------------------------

  predicate Answered(w: World, key: Key, body: Body, response: Response) {
    key in w.rows && w.rows[key] == KeyRow(body, Some(response))
  }

  /** Storing fills the row of the request's own key and body, and answering gives the stored response. */
  lemma StoreThenAnswer(w: World, id: RequestId)
    requires Inv(w) && At(w, id).Executed? && w.requests[id].key !in w.expired
    ensures var r := w.requests[id];
            var stored := Next(w, Store(id));
            var answered := Next(stored, Answer(id));
            && Answered(stored, r.key, r.body, r.phase.response)
            && Success(r.key, r.body, r.phase.response) in answered.replies
            && answered.effects == w.effects && Answered(answered, r.key, r.body, r.phase.response)
  {
    hide KeyOk, OneHolder, EffectsOnce, RepliesTrue;
    assert RequestOk(w, id) && Holds(w, id);
    var stored := Next(w, Store(id));
    assert At(stored, id) == Stored(w.requests[id].phase.response);
  }

  /** While the key lives no step takes a stored answer away. */
  lemma AnswerStays(w: World, s: Step, key: Key, body: Body, response: Response)
    requires Inv(w) && !s.StoreFails? && Answered(w, key, body, response) && key !in Next(w, s).expired
    ensures Answered(Next(w, s), key, body, response)
  {
    hide KeyOk, OneHolder, EffectsOnce, RepliesTrue, NoEffect, Took;
    if Enabled(w, s) && (s.Store? || s.Release?) {
      assert RequestOk(w, s.id) && Holds(w, s.id);
    }
  }

  lemma ExpiredStays(w: World, s: Step, key: Key)
    requires key in w.expired
    ensures key in Next(w, s).expired
  {
  }

  lemma {:induction false} ExpiredStaysOver(w: World, steps: seq<Step>, key: Key)
    requires key in w.expired
    ensures key in Run(w, steps).expired
    decreases |steps|
  {
    if steps != [] {
      ExpiredStays(w, steps[0], key);
      hide Next;
      ExpiredStaysOver(Next(w, steps[0]), steps[1..], key);
    }
  }

  lemma {:induction false} AnswerStaysOver(w: World, steps: seq<Step>, key: Key, body: Body, response: Response)
    requires Inv(w) && Answered(w, key, body, response) && key !in Run(w, steps).expired
    requires forall i :: 0 <= i < |steps| ==> !steps[i].StoreFails?
    ensures Answered(Run(w, steps), key, body, response)
    decreases |steps|
  {
    if steps != [] {
      var n := Next(w, steps[0]);
      NextKeeps(w, steps[0]);
      if key in n.expired { ExpiredStaysOver(n, steps[1..], key); }
      AnswerStays(w, steps[0], key, body, response);
      hide Inv, Next, Answered;
      AnswerStaysOver(n, steps[1..], key, body, response);
    }
  }

  /** Once a request with a living key has its response stored, every later request with that key is answered without an
      effect: with the stored response for the same body, with a rejection for any other. */
  lemma RetryIsAnswered(w: World, id: RequestId, steps: seq<Step>, again: RequestId, body: Body)
    requires Inv(w) && At(w, id).Executed?
    requires w.requests[id].key !in Run(Next(w, Store(id)), steps).expired
    requires forall i :: 0 <= i < |steps| ==> !steps[i].StoreFails?
    requires again !in Run(Next(w, Store(id)), steps).requests
    ensures var r, m := w.requests[id], Run(Next(w, Store(id)), steps);
            var n := Next(Next(Next(m, Send(again, r.key, body)), Insert(again)), Lookup(again));
            && n.effects == m.effects
            && (body == r.body ==> Success(r.key, r.body, r.phase.response) in n.replies)
            && (body != r.body ==> n.replies == m.replies + {Rejected(r.key)})
  {
    var r, stored := w.requests[id], Next(w, Store(id));
    if r.key in stored.expired { ExpiredStaysOver(stored, steps, r.key); }
    assert r.key !in w.expired by { if r.key in w.expired { ExpiredStays(w, Store(id), r.key); } }
    StoreThenAnswer(w, id);
    NextKeeps(w, Store(id));
    hide Inv, Next, Run;
    AnswerStaysOver(stored, steps, r.key, r.body, r.phase.response);
    LookedUp(Run(stored, steps), again, r.key, r.body, r.phase.response, body);
  }

  lemma LookedUp(w: World, again: RequestId, key: Key, stored: Body, response: Response, body: Body)
    requires again !in w.requests && Answered(w, key, stored, response)
    ensures var n := Next(Next(Next(w, Send(again, key, body)), Insert(again)), Lookup(again));
            && n.effects == w.effects
            && (body == stored ==> n.replies == w.replies + {Success(key, stored, response)})
            && (body != stored ==> n.replies == w.replies + {Rejected(key)})
  {
    var w1 := Next(w, Send(again, key, body));
    assert At(w1, again) == Arrived && w1.rows == w.rows && w1.replies == w.replies;
    var w2 := Next(w1, Insert(again));
    assert At(w2, again) == Blocked && w2.rows == w.rows && w2.replies == w.replies;
  }

  // -------------------------------------------------------------------------
  // The queue
  // -------------------------------------------------------------------------

  /** What is kept is queued as it is, to be sent. */
  lemma KeptWaits(w: World, op: Op)
    requires !op.kind.TaskUpdate?
    ensures op.id in Next(w, Keep(op)).queue.ops
    ensures Next(w, Keep(op)).queue.ops[op.id] == op.(status := OfflineQueue.Waiting)
  {
  }

  /** A success reply for an operation takes it out of the queue as sent, with its body; discarding takes it out without
      that. */
  lemma ReceivedIsSent(w: World, op: Op, response: Response)
    requires Success(op.id, op.payload, response) in w.replies
    ensures var n := Next(w, Receive(op, response));
            op.id !in n.queue.ops && n.done == w.done + {(op.id, op.payload)}
    ensures var n := Next(w, Discard(op.id)); op.id !in n.queue.ops && n.done == w.done
  {
  }

  /** A rejection leaves it for the user to look at. */
  lemma RejectedIsErrored(w: World, op: Op)
    requires Rejected(op.id) in w.replies && !op.kind.TaskUpdate?
    ensures var n := Next(w, ReceiveRejection(op));
            op.id in n.queue.ops && n.queue.ops[op.id] == op.(status := Errored) && n.done == w.done
  {
  }

  /** What ends an operation's stay in the queue: a success reply for it, or the user's discarding it. */
  predicate Leaves(s: Step, id: OpId) {
    (s.Receive? && s.op.id == id) || s == Discard(id)
  }

  /** An operation stays in the queue, as it is but for its status, until it is sent or discarded; after either it is
      out, and after a rejection it waits for the user. */
  lemma StaysQueued(w: World, s: Step, id: OpId)
    requires id in w.queue.ops && Enabled(w, s) && !(s.Keep? && s.op.id == id)
    requires s.ReceiveRejection? && s.op.id == id ==> s.op == w.queue.ops[id]
    requires s.ReceiveRejection? || s.Receive? ==> !s.op.kind.TaskUpdate?
    ensures id in Next(w, s).queue.ops <==> !Leaves(s, id)
    ensures !Leaves(s, id) ==>
              Next(w, s).queue.ops[id] == w.queue.ops[id].(status := Next(w, s).queue.ops[id].status)
    ensures s.ReceiveRejection? && s.op.id == id ==> Next(w, s).queue.ops[id].status == Errored
    ensures s == Retry(id) ==> Next(w, s).queue.ops[id].status == Waiting
  {
  }
}

/** The offline queue against the idempotent server, over a network that loses and duplicates messages.
    A request passes through the server in separate segments, so any number of them interleave. */
module ExactlyOnce {
  import opened Wrappers
  import opened OfflineQueue

  type Key = OpId
  type Body = nat
  type Response = nat
  type RequestId = nat

  /** A row of idempotency_keys: the request hash, and the response once it is stored. */
  datatype KeyRow = KeyRow(hash: Body, done: Option<Response>)

  /** Arrived: the key is not inserted yet. Running: this request inserted it and its handler runs. Executed: the
      handler took effect. Failing: the handler reported failure. Stored: the response is saved. Blocked: another
      request holds the key. Gone: replied to, or its server process died. */
  datatype Phase =
    | Arrived | Running | Executed(response: Response) | Failing | Stored(response: Response) | Blocked | Gone

  datatype Request = Request(key: Key, body: Body, phase: Phase)

  datatype Reply = Success(key: Key, body: Body, response: Response) | Rejected(key: Key)

  datatype Effect = Effect(key: Key, body: Body, response: Response)

  /** `effects` is the history of handler executions; `expired` holds the keys whose time to live has run out; `bodies`
      is the body first sent with each key, and `mixed` holds the keys sent with another one as well; `done` holds the
      operations, with their bodies, that left the queue as sent. */
  datatype World = World(
    rows: map<Key, KeyRow>, requests: map<RequestId, Request>, effects: seq<Effect>, replies: set<Reply>,
    expired: set<Key>, queue: Queue, bodies: map<Key, Body>, mixed: set<Key>, done: set<(Key, Body)>)

  datatype Step =
    | Keep(op: Op)
    /** anybody may send any body with any key */
    | Send(id: RequestId, key: Key, body: Body)
    | Receive(op: Op, response: Response)
    | ReceiveRejection(op: Op)
    | Retry(key: Key)
    | Discard(key: Key)
    | Insert(id: RequestId)
    | Execute(id: RequestId, response: Response)
    | Fail(id: RequestId)
    | Release(id: RequestId)
    | Store(id: RequestId)
    | StoreFails(id: RequestId)
    | Answer(id: RequestId)
    | Lookup(id: RequestId)
    | Crash(id: RequestId)
    | Expire(key: Key)

  function At(w: World, id: RequestId): Phase {
    if id in w.requests then w.requests[id].phase else Gone
  }

  function Move(w: World, id: RequestId, phase: Phase): World
    requires id in w.requests
  {
    w.(requests := w.requests[id := w.requests[id].(phase := phase)])
  }

  function Sent(w: World, id: RequestId, key: Key, body: Body): World {
    w.(requests := w.requests[id := Request(key, body, Arrived)],
       bodies := if key in w.bodies then w.bodies else w.bodies[key := body],
       mixed := if key in w.bodies && w.bodies[key] != body then w.mixed + {key} else w.mixed)
  }

  /** When a step can happen. */
  predicate Enabled(w: World, s: Step) {
    match s
    case Keep(op) => !op.kind.TaskUpdate?
    case Send(id, _, _) => id !in w.requests
    case Receive(op, response) => Success(op.id, op.payload, response) in w.replies
    case ReceiveRejection(op) => !op.kind.TaskUpdate? && Rejected(op.id) in w.replies
    case Retry(key) => key in w.queue.ops
    case Discard(key) => true
    case Insert(id) => At(w, id) == Arrived
    case Execute(id, _) => At(w, id) == Running
    case Fail(id) => At(w, id) == Running
    case Release(id) => At(w, id) == Failing
    case Store(id) => At(w, id).Executed?
    case StoreFails(id) => At(w, id).Executed?
    case Answer(id) => At(w, id).Stored?
    case Lookup(id) => At(w, id) == Blocked
    case Crash(id) => id in w.requests
    case Expire(key) => true
  }

  function Apply(w: World, s: Step): World
    requires Enabled(w, s)
  {
    match s
    case Keep(op) => w.(queue := w.queue.(ops := w.queue.ops[op.id := op.(status := OfflineQueue.Waiting)]))
    case Send(id, key, body) => Sent(w, id, key, body)
    case Receive(op, _) => w.(queue := AfterAttempt(w.queue, op, Done), done := w.done + {(op.id, op.payload)})
    case ReceiveRejection(op) => w.(queue := AfterAttempt(w.queue, op, Refused))
    case Retry(key) =>
      var op := w.queue.ops[key];
      w.(queue := w.queue.(ops := w.queue.ops[key := op.(status := OfflineQueue.Waiting)]))
    case Discard(key) => w.(queue := w.queue.(ops := w.queue.ops - {key}))
    case Insert(id) =>
      var r := w.requests[id];
      if r.key in w.rows then Move(w, id, Blocked)
      else Move(w, id, Running).(rows := w.rows[r.key := KeyRow(r.body, None)])
    case Execute(id, response) =>
      var r := w.requests[id];
      Move(w, id, Executed(response)).(effects := w.effects + [Effect(r.key, r.body, response)])
    case Fail(id) => Move(w, id, Failing)
    case Release(id) =>
      var r := w.requests[id];
      Move(w, id, Gone).(rows := w.rows - {r.key}, replies := w.replies + {Rejected(r.key)})
    case Store(id) =>
      var r := w.requests[id];
      Move(w, id, Stored(r.phase.response)).(
        rows := if r.key in w.rows then w.rows[r.key := w.rows[r.key].(done := Some(r.phase.response))] else w.rows)
    case StoreFails(id) =>
      var r := w.requests[id];
      Move(w, id, Gone).(rows := w.rows - {r.key}, replies := w.replies + {Rejected(r.key)})
    case Answer(id) =>
      var r := w.requests[id];
      Move(w, id, Gone).(replies := w.replies + {Success(r.key, r.body, r.phase.response)})
    case Lookup(id) =>
      var r := w.requests[id];
      var ok := r.key in w.rows && w.rows[r.key].hash == r.body && w.rows[r.key].done.Some?;
      var reply := if ok then Success(r.key, r.body, w.rows[r.key].done.value) else Rejected(r.key);
      Move(w, id, Gone).(replies := w.replies + {reply})
    case Crash(id) => Move(w, id, Gone)
    case Expire(key) => w.(rows := w.rows - {key}, expired := w.expired + {key})
  }

  /** A step that is not enabled does nothing. */
  function Next(w: World, s: Step): World {
    if Enabled(w, s) then Apply(w, s) else w
  }

  function Run(w: World, steps: seq<Step>): World
    decreases |steps|
  {
    if steps == [] then w else Run(Next(w, steps[0]), steps[1..])
  }

  const START := World(map[], map[], [], {}, {}, Queue(map[], map[]), map[], {}, {})

  // -------------------------------------------------------------------------
  // Invariant
  // -------------------------------------------------------------------------

  predicate Took(w: World, key: Key, body: Body, response: Response) {
    Effect(key, body, response) in w.effects
  }

  ghost predicate TookEffect(w: World, key: Key, body: Body) {
    exists response :: Took(w, key, body, response)
  }

  ghost predicate NoEffect(w: World, key: Key) {
    forall e :: e in w.effects ==> e.key != key
  }

  /** The request that inserted the key and has not let go of it. */
  predicate Holds(w: World, id: RequestId) {
    && id in w.requests
    && (w.requests[id].phase == Running || w.requests[id].phase.Executed? || w.requests[id].phase == Failing)
  }

  /** What the server says about a key can be relied on while the key lives, and for ever if nobody reused it for
      another body. */
  predicate Trusted(w: World, key: Key) {
    key !in w.expired || key !in w.mixed
  }

  /** A holder's row is its own and not yet filled. */
  ghost predicate RowHeld(w: World, id: RequestId) {
    Holds(w, id) && w.requests[id].key !in w.expired ==>
      w.requests[id].key in w.rows && w.rows[w.requests[id].key] == KeyRow(w.requests[id].body, None)
  }

  /** Before its handler has succeeded, a holder's key has no effect. */
  ghost predicate Unused(w: World, id: RequestId)
    requires id in w.requests
  {
    var r := w.requests[id];
    (r.phase == Running || r.phase == Failing) && r.key !in w.expired ==> NoEffect(w, r.key)
  }

  ghost predicate RequestOk(w: World, id: RequestId)
    requires id in w.requests
  {
    var r := w.requests[id];
    && (r.key in w.bodies && (r.key !in w.mixed ==> r.body == w.bodies[r.key]))
    && RowHeld(w, id) && Unused(w, id)
    && (r.phase.Executed? ==> Took(w, r.key, r.body, r.phase.response))
    && (r.phase.Stored? ==> Took(w, r.key, r.body, r.phase.response))
  }

  ghost predicate KeyOk(w: World, key: Key) {
    && (key !in w.expired && key !in w.rows ==> NoEffect(w, key))
    && (key in w.rows && key !in w.mixed ==> key in w.bodies && w.rows[key].hash == w.bodies[key])
    && (key in w.rows && w.rows[key].done.Some? && Trusted(w, key) ==>
          Took(w, key, w.rows[key].hash, w.rows[key].done.value))
  }

  ghost predicate OneHolder(w: World) {
    forall i, j :: Holds(w, i) && Holds(w, j) && w.requests[i].key == w.requests[j].key &&
                   w.requests[i].key !in w.expired ==>
      i == j
  }

  ghost predicate EffectsOnce(w: World) {
    forall i, j :: 0 <= i < j < |w.effects| && w.effects[i].key == w.effects[j].key ==> w.effects[i].key in w.expired
  }

  ghost predicate RepliesTrue(w: World) {
    && (forall r :: r in w.replies && r.Success? && Trusted(w, r.key) ==> Took(w, r.key, r.body, r.response))
    && (forall key, body :: (key, body) in w.done && Trusted(w, key) ==> TookEffect(w, key, body))
  }

  ghost predicate Inv(w: World) {
    && (forall id :: id in w.requests ==> RequestOk(w, id))
    && (forall key :: KeyOk(w, key))
    && OneHolder(w) && EffectsOnce(w) && RepliesTrue(w)
  }

  lemma StartOk()
    ensures Inv(START)
  {
  }

  lemma EffectsOnlyGrow(w: World, s: Step)
    ensures w.effects <= Next(w, s).effects
    ensures forall key, body, response :: Took(w, key, body, response) ==> Took(Next(w, s), key, body, response)
  {
    assert w.effects <= Next(w, s).effects;
    forall key, body, response | Took(w, key, body, response) ensures Took(Next(w, s), key, body, response) {
    }
  }

  lemma NextKeepsKey(w: World, s: Step, key: Key)
    requires Inv(w) && !s.StoreFails?
    ensures KeyOk(Next(w, s), key)
  {
    hide OneHolder, EffectsOnce, RepliesTrue;
    EffectsOnlyGrow(w, s);
    assert KeyOk(w, key);
    if Enabled(w, s) && (s.Execute? || s.Release? || s.Store? || s.Insert?) {
      assert RequestOk(w, s.id);
    }
  }

  lemma NextKeepsRow(w: World, s: Step, id: RequestId)
    requires Inv(w) && !s.StoreFails? && id in Next(w, s).requests
    ensures RowHeld(Next(w, s), id)
  {
    hide EffectsOnce, RepliesTrue, KeyOk, NoEffect;
    if Holds(Next(w, s), id) {
      HoldersInserted(w, s, id);
      assert RequestOk(w, id);
      if Enabled(w, s) && (s.Release? || s.Store?) { assert RequestOk(w, s.id); }
    }
  }

  lemma NextKeepsUnused(w: World, s: Step, id: RequestId)
    requires Inv(w) && !s.StoreFails? && id in Next(w, s).requests
    ensures Unused(Next(w, s), id)
  {
    hide EffectsOnce, RepliesTrue;
    if Holds(Next(w, s), id) {
      HoldersInserted(w, s, id);
      assert RequestOk(w, id) && KeyOk(w, w.requests[id].key);
    }
  }

  lemma NextKeepsRequest(w: World, s: Step, id: RequestId)
    requires Inv(w) && !s.StoreFails? && id in Next(w, s).requests
    ensures RequestOk(Next(w, s), id)
  {
    hide EffectsOnce, RepliesTrue, KeyOk, OneHolder, RowHeld, Unused;
    NextKeepsRow(w, s, id);
    NextKeepsUnused(w, s, id);
    EffectsOnlyGrow(w, s);
    if id in w.requests { assert RequestOk(w, id); }
  }

  /** Only inserting the key makes a request a holder. */
  lemma HoldersInserted(w: World, s: Step, i: RequestId)
    requires Holds(Next(w, s), i)
    ensures i in w.requests && Next(w, s).requests[i].key == w.requests[i].key
    ensures Holds(w, i) || (s == Insert(i) && Enabled(w, s) && w.requests[i].key !in w.rows)
  {
  }

  lemma NextKeepsHolder(w: World, s: Step)
    requires Inv(w)
    ensures OneHolder(Next(w, s))
  {
    hide RepliesTrue, EffectsOnce, KeyOk, Next, Enabled;
    var n := Next(w, s);
    ExpiredGrows(w, s);
    forall i, j | Holds(n, i) && Holds(n, j) && n.requests[i].key == n.requests[j].key &&
                  n.requests[i].key !in n.expired
      ensures i == j
    {
      HoldersInserted(w, s, i);
      HoldersInserted(w, s, j);
      assert RequestOk(w, i) && RequestOk(w, j);
    }
  }

  lemma ExpiredGrows(w: World, s: Step)
    ensures w.expired <= Next(w, s).expired
  {
  }

  lemma NextKeepsEffects(w: World, s: Step)
    requires Inv(w)
    ensures EffectsOnce(Next(w, s))
  {
    hide RepliesTrue, OneHolder, KeyOk;
    if Enabled(w, s) && s.Execute? {
      assert RequestOk(w, s.id);
    }
  }

  lemma NextKeepsReplies(w: World, s: Step)
    requires Inv(w)
    ensures RepliesTrue(Next(w, s))
  {
    EffectsOnlyGrow(w, s);
    hide EffectsOnce, OneHolder;
    var n := Next(w, s);
    if Enabled(w, s) && (s.Answer? || s.Lookup?) {
      assert RequestOk(w, s.id) && KeyOk(w, w.requests[s.id].key);
    }
    forall key, body | (key, body) in n.done && Trusted(n, key) ensures TookEffect(n, key, body) {
      if (key, body) in w.done {
        assert TookEffect(w, key, body);
      } else {
        assert Took(n, key, body, s.response);
      }
    }
  }

  lemma NextKeeps(w: World, s: Step)
    requires Inv(w) && !s.StoreFails?
    ensures Inv(Next(w, s))
  {
    hide Next, RequestOk, KeyOk;
    forall key ensures KeyOk(Next(w, s), key) {
      NextKeepsKey(w, s, key);
    }
    forall id | id in Next(w, s).requests ensures RequestOk(Next(w, s), id) {
      NextKeepsRequest(w, s, id);
    }
    NextKeepsHolder(w, s);
    NextKeepsEffects(w, s);
    NextKeepsReplies(w, s);
  }

  lemma {:induction false} RunKeeps(w: World, steps: seq<Step>)
    requires Inv(w) && forall i :: 0 <= i < |steps| ==> !steps[i].StoreFails?
    ensures Inv(Run(w, steps))
    decreases |steps|
  {
    if steps != [] {
      NextKeeps(w, steps[0]);
      hide Inv, Next;
      RunKeeps(Next(w, steps[0]), steps[1..]);
    }
  }

  // -------------------------------------------------------------------------
  // Exactly once
  // -------------------------------------------------------------------------

  /** Over any run in which storing a response never fails, whatever is lost, repeated, retried or crashes, and whatever
      body anybody sends with the key: while the key lives, at most one request with it takes effect, and every success
      reply is for that request's body and carries its response. A success reply, and leaving the queue as sent, mean
      that the operation took effect with its own body, while the key lives and also later if the key was not reused
      for another body. */
  lemma ExactlyOnceSync(steps: seq<Step>, key: Key)
    requires forall i :: 0 <= i < |steps| ==> !steps[i].StoreFails?
    ensures var w := Run(START, steps);
            && (key !in w.expired ==> OneEffect(w, key) && OneAnswer(w, key))
            && (Trusted(w, key) ==>
                  forall r :: r in w.replies && r.Success? && r.key == key ==> Took(w, key, r.body, r.response))
            && (Trusted(w, key) ==> forall body :: (key, body) in w.done ==> TookEffect(w, key, body))
  {
    StartOk();
    RunKeeps(START, steps);
    var w := Run(START, steps);
    hide Run, TookEffect;
    assert EffectsOnce(w) && RepliesTrue(w);
    if key !in w.expired {
      AnswersAgree(w, key);
    }
  }

  ghost predicate OneEffect(w: World, key: Key) {
    forall i, j :: 0 <= i < |w.effects| && 0 <= j < |w.effects| && w.effects[i].key == w.effects[j].key == key ==>
      i == j
  }

  ghost predicate OneAnswer(w: World, key: Key) {
    forall r, r' :: r in w.replies && r' in w.replies && r.Success? && r'.Success? && r.key == r'.key == key ==> r == r'
  }

  lemma AnswersAgree(w: World, key: Key)
    requires EffectsOnce(w) && RepliesTrue(w) && key !in w.expired
    ensures OneEffect(w, key) && OneAnswer(w, key)
  {
    forall r, r' | r in w.replies && r' in w.replies && r.Success? && r'.Success? && r.key == r'.key == key
      ensures r == r'
    {
      assert Took(w, r.key, r.body, r.response) && Took(w, r'.key, r'.body, r'.response);
      var i :| 0 <= i < |w.effects| && w.effects[i] == Effect(r.key, r.body, r.response);
      var j :| 0 <= j < |w.effects| && w.effects[j] == Effect(r'.key, r'.body, r'.response);
    }
  }

  lemma {:induction false} EffectsStay(w: World, steps: seq<Step>)
    ensures w.effects <= Run(w, steps).effects
    decreases |steps|
  {
    if steps != [] {
      EffectsOnlyGrow(w, steps[0]);
      hide Next;
      EffectsStay(Next(w, steps[0]), steps[1..]);
    }
  }

  /** What once took effect stays so: an operation that left the queue as sent while its key lived took effect with its
      own body, whatever happens to the key later. */
  lemma SentStaysTrue(steps: seq<Step>, more: seq<Step>, key: Key, body: Body)
    requires forall i :: 0 <= i < |steps| ==> !steps[i].StoreFails?
    requires (key, body) in Run(START, steps).done && Trusted(Run(START, steps), key)
    ensures TookEffect(Run(Run(START, steps), more), key, body)
  {
    ExactlyOnceSync(steps, key);
    var w := Run(START, steps);
    var response :| Took(w, key, body, response);
    EffectsStay(w, more);
    assert Took(Run(w, more), key, body, response);
  }

  lemma StoreFailsReleases(w: World, id: RequestId, again: RequestId)
    requires Inv(w) && At(w, id).Executed? && again !in w.requests
    ensures var r, n := w.requests[id], Next(w, StoreFails(id));
            && Took(w, r.key, r.body, r.phase.response)
            && n.effects == w.effects && n.expired == w.expired
            && r.key !in n.rows && again !in n.requests
  {
    assert RequestOk(w, id);
  }

  lemma DeliveredAgain(w: World, again: RequestId, key: Key, body: Body, response: Response)
    requires again !in w.requests && key !in w.rows
    ensures var n := Next(Next(Next(w, Send(again, key, body)), Insert(again)), Execute(again, response));
            n.effects == w.effects + [Effect(key, body, response)] && n.expired == w.expired
  {
    var w1 := Next(w, Send(again, key, body));
    assert At(w1, again) == Arrived && w1.rows == w.rows && w1.effects == w.effects;
    var w2 := Next(w1, Insert(again));
    assert At(w2, again) == Running;
  }

  /** Storing must not fail: whenever it does, the key is released although the handler took effect, and one more
      delivery of the request makes it take effect again while the key lives. */
  lemma FailedStoreRunsTwice(w: World, id: RequestId, again: RequestId, response: Response)
    requires Inv(w) && At(w, id).Executed? && again !in w.requests
    ensures var r := w.requests[id];
            var sent := Next(Next(w, StoreFails(id)), Send(again, r.key, r.body));
            var n := Next(Next(sent, Insert(again)), Execute(again, response));
            && n.expired == w.expired
            && exists i, j :: 0 <= i < j < |n.effects| && n.effects[i].key == n.effects[j].key == r.key
  {
    var r := w.requests[id];
    StoreFailsReleases(w, id, again);
    DeliveredAgain(Next(w, StoreFails(id)), again, r.key, r.body, response);
    hide Inv, Next;
    var i :| 0 <= i < |w.effects| && w.effects[i] == Effect(r.key, r.body, r.phase.response);
    var n := w.effects + [Effect(r.key, r.body, response)];
    assert n[i].key == n[|w.effects|].key == r.key;
  }

  lemma LateStoreFills(w: World, late: RequestId, a: RequestId, body: Body)
    requires At(w, late).Executed? && a !in w.requests && w.requests[late].key !in w.rows
    ensures var r := w.requests[late];
            var n := Next(Next(Next(w, Send(a, r.key, body)), Insert(a)), Store(late));
            && n.rows == w.rows[r.key := KeyRow(body, Some(r.phase.response))]
            && n.requests.Keys == w.requests.Keys + {a} && n.effects == w.effects
  {
    var r := w.requests[late];
    var w1 := Next(w, Send(a, r.key, body));
    assert At(w1, a) == Arrived && w1.requests[late] == r;
    var w2 := Next(w1, Insert(a));
    assert w2.requests[late] == r && w2.rows == w.rows[r.key := KeyRow(body, None)];
  }

  lemma LookupReplies(w: World, b: RequestId, key: Key, body: Body)
    requires b !in w.requests && key in w.rows && w.rows[key].hash == body && w.rows[key].done.Some?
    ensures var n := Next(Next(Next(w, Send(b, key, body)), Insert(b)), Lookup(b));
            Success(key, body, w.rows[key].done.value) in n.replies && n.effects == w.effects
  {
    var w1 := Next(w, Send(b, key, body));
    assert At(w1, b) == Arrived;
    var w2 := Next(w1, Insert(b));
    assert At(w2, b) == Blocked;
  }

  /** A key that expired while its request was at work, and is then sent with another body, cannot be trusted: the late
      response is stored for the other body and answers it, although that body never took effect. */
  lemma LateStoreMisleads(w: World, late: RequestId, a: RequestId, b: RequestId, body: Body)
    requires At(w, late).Executed? && w.requests[late].key !in w.rows && body != w.requests[late].body
    requires a !in w.requests && b !in w.requests && a != b
    ensures var r := w.requests[late];
            var stored := Next(Next(Next(w, Send(a, r.key, body)), Insert(a)), Store(late));
            var n := Next(Next(Next(stored, Send(b, r.key, body)), Insert(b)), Lookup(b));
            Success(r.key, body, r.phase.response) in n.replies && n.effects == w.effects
  {
    hide Next;
    var r := w.requests[late];
    LateStoreFills(w, late, a, body);
    LookupReplies(Next(Next(Next(w, Send(a, r.key, body)), Insert(a)), Store(late)), b, r.key, body);
  }

  /** Such a world is reached: the key runs out between the handler's success and the storing of its response. */
  lemma LateStoreReached(late: RequestId, key: Key, body: Body, response: Response)
    ensures var w := Run(START, [Send(late, key, body), Insert(late), Execute(late, response), Expire(key)]);
            && At(w, late) == Executed(response) && w.requests.Keys == {late} && w.requests[late].key == key
            && w.requests[late].body == body && key !in w.rows && w.effects == [Effect(key, body, response)]
  {
    FourSteps(START, Send(late, key, body), Insert(late), Execute(late, response), Expire(key));
    hide Run;
    var w1 := Next(START, Send(late, key, body));
    assert At(w1, late) == Arrived && w1.requests.Keys == {late};
    var w2 := Next(w1, Insert(late));
    assert At(w2, late) == Running;
  }

  lemma FourSteps(w: World, a: Step, b: Step, c: Step, d: Step)
    ensures Run(w, [a, b, c, d]) == Next(Next(Next(Next(w, a), b), c), d)
  {
    hide Next;
    assert [a, b, c, d][1..] == [b, c, d] && [b, c, d][1..] == [c, d] && [c, d][1..] == [d] && [d][1..] == [];
    var w2 := Next(Next(w, a), b);
    assert Run(Next(w2, c), [d]) == Run(Next(Next(w2, c), d), []);
    assert Run(Next(w, a), [b, c, d]) == Run(w2, [c, d]);
  }
}

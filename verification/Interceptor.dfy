/** The idempotency interceptor as it runs one request without interruption. */
module Interceptor {
  import opened Wrappers
  import opened ExactlyOnce

  /** handled is what the handler does, if it comes to run: the response, or None for a failure. */
  function Segments(w: World, id: RequestId, handled: Option<Response>): seq<Step>
    requires id in w.requests
  {
    if w.requests[id].key in w.rows then [Insert(id), Lookup(id)]
    else match handled
         case Some(response) => [Insert(id), Execute(id, response), Store(id), Answer(id)]
         case None => [Insert(id), Fail(id), Release(id)]
  }

  class Idempotency {
    var rows: map<Key, KeyRow>
    var effects: seq<Effect>
    var replies: set<Reply>

    constructor ()
      ensures With(START) == START
    {
      rows, effects, replies := map[], [], {};
    }

    function With(w: World): World
      reads this
    {
      w.(rows := rows, effects := effects, replies := replies)
    }

    /** insert ... on conflict do nothing: the unique index lets one request through. */
    method InsertKey(key: Key, hash: Body) returns (inserted: bool)
      modifies this`rows
      ensures inserted <==> key !in old(rows)
      ensures rows == if inserted then old(rows)[key := KeyRow(hash, None)] else old(rows)
    {
      if key in rows { return false; }
      rows := rows[key := KeyRow(hash, None)];
      return true;
    }

    method Intercept(id: RequestId, ghost w: World, key: Key, body: Body, handled: Option<Response>)
      returns (reply: Reply)
      requires id in w.requests && w.requests[id] == Request(key, body, Arrived)
      modifies this
      ensures With(w.(requests := w.requests[id := Request(key, body, Gone)])) ==
              Run(old(With(w)), Segments(old(With(w)), id, handled))
      ensures replies == old(replies) + {reply}
      ensures key !in old(rows) && handled.Some? ==>
                && reply == Success(key, body, handled.value) && rows == old(rows)[key := KeyRow(body, handled)]
                && effects == old(effects) + [Effect(key, body, handled.value)]
      ensures key !in old(rows) && handled.None? ==>
                reply == Rejected(key) && rows == old(rows) && effects == old(effects)
      ensures key in old(rows) ==>
                && rows == old(rows) && effects == old(effects)
                && reply == match old(rows)[key]
                            case KeyRow(hash, Some(response)) =>
                              if hash == body then Success(key, body, response) else Rejected(key)
                            case _ => Rejected(key)
    {
      RunSegments(With(w), id, handled);
      hide Run;
      var inserted := InsertKey(key, body);
      if inserted {
        if handled.Some? {
          effects := effects + [Effect(key, body, handled.value)];
          rows := rows[key := rows[key].(done := handled)];
          reply := Success(key, body, handled.value);
        } else {
          rows := rows - {key};
          reply := Rejected(key);
        }
      } else if rows[key].hash != body || rows[key].done.None? {
        reply := Rejected(key);
      } else {
        reply := Success(key, body, rows[key].done.value);
      }
      replies := replies + {reply};
    }
  }

  /** The world after an uninterrupted request. */
  function Finished(w: World, id: RequestId, handled: Option<Response>): World
    requires id in w.requests
  {
    var r := w.requests[id];
    var gone := w.(requests := w.requests[id := r.(phase := Gone)]);
    if r.key in w.rows then
      gone.(replies := w.replies + {if w.rows[r.key].hash == r.body && w.rows[r.key].done.Some?
                                    then Success(r.key, r.body, w.rows[r.key].done.value) else Rejected(r.key)})
    else match handled
         case Some(response) =>
           gone.(rows := w.rows[r.key := KeyRow(r.body, handled)],
                 effects := w.effects + [Effect(r.key, r.body, response)],
                 replies := w.replies + {Success(r.key, r.body, response)})
         case None => gone.(replies := w.replies + {Rejected(r.key)})
  }

  lemma RunOne(w: World, step: Step, rest: seq<Step>)
    ensures Run(w, [step] + rest) == Run(Next(w, step), rest)
  {
    assert ([step] + rest)[1..] == rest;
  }

  lemma RunTwo(w: World, a: Step, b: Step)
    ensures Run(w, [a, b]) == Next(Next(w, a), b)
  {
    hide Next;
    RunOne(w, a, [b]);
    RunOne(Next(w, a), b, []);
    assert [a] + [b] == [a, b] && [b] + [] == [b];
  }

  lemma RunThree(w: World, a: Step, b: Step, c: Step)
    ensures Run(w, [a, b, c]) == Next(Next(Next(w, a), b), c)
  {
    hide Next;
    RunOne(w, a, [b, c]);
    RunTwo(Next(w, a), b, c);
    assert [a] + [b, c] == [a, b, c];
  }

  lemma RunFour(w: World, a: Step, b: Step, c: Step, d: Step)
    ensures Run(w, [a, b, c, d]) == Next(Next(Next(Next(w, a), b), c), d)
  {
    hide Next;
    RunOne(w, a, [b, c, d]);
    RunThree(Next(w, a), b, c, d);
    assert [a] + [b, c, d] == [a, b, c, d];
  }

  lemma BlockedSegments(w: World, id: RequestId)
    requires id in w.requests && w.requests[id].phase == Arrived && w.requests[id].key in w.rows
    ensures Next(Next(w, Insert(id)), Lookup(id)) == Finished(w, id, None)
  {
    assert At(Next(w, Insert(id)), id) == Blocked;
  }

  lemma HandledSegments(w: World, id: RequestId, response: Response)
    requires id in w.requests && w.requests[id].phase == Arrived && w.requests[id].key !in w.rows
    ensures Next(Next(Next(Next(w, Insert(id)), Execute(id, response)), Store(id)), Answer(id)) ==
            Finished(w, id, Some(response))
  {
    var r := w.requests[id];
    var w2 := Move(w, id, Executed(response)).(rows := w.rows[r.key := KeyRow(r.body, None)],
                                              effects := w.effects + [Effect(r.key, r.body, response)]);
    assert Next(w, Insert(id)) == Move(w, id, Running).(rows := w.rows[r.key := KeyRow(r.body, None)]);
    assert Next(Next(w, Insert(id)), Execute(id, response)) == w2;
    AnsweredSegments(w2, id, response);
  }

  lemma AnsweredSegments(w: World, id: RequestId, response: Response)
    requires id in w.requests && w.requests[id].phase == Executed(response) && w.requests[id].key in w.rows
    ensures var r := w.requests[id];
            Next(Next(w, Store(id)), Answer(id)) ==
              Move(w, id, Gone).(rows := w.rows[r.key := w.rows[r.key].(done := Some(response))],
                                 replies := w.replies + {Success(r.key, r.body, response)})
  {
    assert At(Next(w, Store(id)), id) == Stored(response);
  }

  lemma FailedSegments(w: World, id: RequestId)
    requires id in w.requests && w.requests[id].phase == Arrived && w.requests[id].key !in w.rows
    ensures Next(Next(Next(w, Insert(id)), Fail(id)), Release(id)) == Finished(w, id, None)
  {
    var r := w.requests[id];
    var inserted := w.rows[r.key := KeyRow(r.body, None)];
    assert Next(Next(w, Insert(id)), Fail(id)) == Move(w, id, Failing).(rows := inserted);
    assert inserted - {r.key} == w.rows;
  }

  lemma RunSegments(w: World, id: RequestId, handled: Option<Response>)
    requires id in w.requests && w.requests[id].phase == Arrived
    ensures Run(w, Segments(w, id, handled)) == Finished(w, id, handled)
  {
    hide Next, Run;
    if w.requests[id].key in w.rows {
      RunTwo(w, Insert(id), Lookup(id));
      BlockedSegments(w, id);
    } else if handled.Some? {
      RunFour(w, Insert(id), Execute(id, handled.value), Store(id), Answer(id));
      HandledSegments(w, id, handled.value);
    } else {
      RunThree(w, Insert(id), Fail(id), Release(id));
      FailedSegments(w, id);
    }
  }
}

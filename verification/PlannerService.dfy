/** The planner service as it runs: task rows updated in place, with the queries it makes. */
module PlannerService {
  import opened Wrappers
  import opened Board

  class Service {
    var tasks: map<Id, Task>
    var nextNumber: map<Id, int>

    function State(): BoardState
      reads this
    {
      BoardState(tasks, nextNumber)
    }

    constructor (nextNumber: map<Id, int>)
      ensures State() == BoardState(map[], nextNumber)
    {
      tasks, this.nextNumber := map[], nextNumber;
    }

    ghost predicate Outcome(before: BoardState, spec: Result<BoardState, Error>, error: Option<Error>)
      reads this
    {
      match spec
      case Ok(after) => error == None && State() == after
      case Err(e) => error == Some(e) && State() == before
    }

    method TopPosition(c: Column, except: Option<Id>) returns (top: int)
      ensures IsTop(State(), c, except, top)
    {
      var rest := set id: Id | id in tasks && Shown(State(), id, c) && except != Some(id);
      assert forall id: Id :: Shown(State(), id, c) && except != Some(id) ==> id in rest;
      if rest == {} {
        return 0;
      }
      var best: Id :| best in rest;
      rest := rest - {best};
      while rest != {}
        invariant Shown(State(), best, c) && except != Some(best)
        invariant forall id: Id :: id in rest ==> Shown(State(), id, c) && except != Some(id)
        invariant forall id: Id :: Shown(State(), id, c) && except != Some(id) ==>
                  id in rest || tasks[id].position <= tasks[best].position
        decreases |rest|
      {
        var id: Id :| id in rest;
        if tasks[id].position > tasks[best].position {
          best := id;
        }
        rest := rest - {id};
      }
      return tasks[best].position;
    }

    /** select id where project, status, not deleted, order by position */
    method Ordered(c: Column) returns (listing: seq<Id>)
      ensures IsListing(State(), c, listing)
    {
      listing := [];
      var rest := set id: Id | id in tasks && Shown(State(), id, c);
      assert forall id: Id :: Shown(State(), id, c) <==> id in rest;
      while rest != {}
        invariant SortedSoFar(State(), c, listing, rest)
        decreases |rest|
      {
        LowestExists(State(), rest);
        var id: Id :| id in rest && forall other :: other in rest ==> Pos(State())(id) <= Pos(State())(other);
        SortedFurther(State(), c, listing, rest, id);
        listing := listing + [id];
        rest := rest - {id};
      }
    }

    method Create(id: Id, c: Column, parent: Option<Id>) returns (error: Option<Error>, ghost top: int)
      requires id !in tasks
      modifies this
      ensures IsTop(old(State()), c, None, top)
      ensures Outcome(old(State()), Board.Create(old(State()), id, c, parent, top), error)
    {
      hide IsTop;
      var position := TopPosition(c, None);
      top := position;
      if c.project !in nextNumber { return Some(NotFound), top; }
      if parent.Some? {
        if parent.value !in tasks || tasks[parent.value].deleted || tasks[parent.value].column.project != c.project {
          return Some(BadRequest), top;
        }
        if tasks[parent.value].parent.Some? { return Some(BadRequest), top; }
      }
      var number := nextNumber[c.project];
      nextNumber := nextNumber[c.project := number + 1];
      tasks := tasks[id := Task(number, c, parent, position + STEP, false, 1)];
      return None, top;
    }

    method Update(id: Id, status: Option<Id>, version: int) returns (error: Option<Error>, ghost top: int)
      modifies this
      ensures id in old(tasks) && status.Some? ==>
              IsTop(old(State()), Column(old(tasks)[id].column.project, status.value), None, top)
      ensures Outcome(old(State()), Board.Update(old(State()), id, status, version, top), error)
    {
      hide IsTop;
      top := 0;
      if id !in tasks { return Some(NotFound), top; }
      var t := tasks[id];
      var column, position := t.column, t.position;
      if status.Some? {
        var last := TopPosition(Column(t.column.project, status.value), None);
        top := last;
        if status.value != t.column.status {
          column, position := Column(t.column.project, status.value), last + STEP;
        }
      }
      if t.deleted { return Some(NotFound), top; }
      if t.version != version { return Some(VersionConflict), top; }
      tasks := tasks[id := t.(column := column, position := position, version := t.version + 1)];
      return None, top;
    }

    /** The renumbering loop. */
    method Renumber(listing: seq<Id>)
      requires forall id: Id :: id in listing ==> id in tasks
      modifies this`tasks
      ensures State() == Renumbered(old(State()), listing)
    {
      var i := 0;
      while i < |listing|
        invariant 0 <= i <= |listing|
        invariant State() == Renumbered(old(State()), listing[..i])
      {
        assert listing[..i + 1][..i] == listing[..i];
        tasks := tasks[listing[i] := tasks[listing[i]].(position := (i + 1) * STEP)];
        i := i + 1;
      }
      assert listing[..|listing|] == listing;
    }

    method Move(id: Id, status: Id, after: Option<Id>, before: Option<Id>, version: int)
      returns (error: Option<Error>, ghost top: int, ghost listing: seq<Id>)
      modifies this
      ensures id in old(tasks) ==> IsTop(old(State()), Column(old(tasks)[id].column.project, status), Some(id), top)
      ensures error.None? ==> id in old(tasks)
      ensures error.None? ==>
                var c := Column(old(tasks)[id].column.project, status);
                && ValidNeighbour(old(State()), id, c, after) && ValidNeighbour(old(State()), id, c, before)
                && (Close(old(State()), after, before) ==>
                      IsListing(Put(old(State()), id, c, DropPosition(old(State()), id, c, after, before, top)),
                                c, listing))
      ensures Outcome(old(State()), Board.Move(old(State()), id, status, after, before, version, top, listing), error)
    {
      hide IsTop, IsListing, Renumbered;
      top, listing := 0, [];
      if id !in tasks { return Some(NotFound), top, listing; }
      var t := tasks[id];
      var c := Column(t.column.project, status);
      var last := TopPosition(c, Some(id));
      top := last;
      if t.deleted { return Some(NotFound), top, listing; }
      if !ValidNeighbour(State(), id, c, after) || !ValidNeighbour(State(), id, c, before) {
        return Some(BadRequest), top, listing;
      }
      var position := DropPosition(State(), id, c, after, before, last);
      if t.version != version { return Some(VersionConflict), top, listing; }
      var close := Close(State(), after, before);
      tasks := tasks[id := t.(column := c, position := position, version := t.version + 1)];
      if close {
        var column := Ordered(c);
        listing := column;
        ListingKnown(State(), c, column);
        Renumber(column);
      }
      return None, top, listing;
    }

    method Remove(id: Id) returns (error: Option<Error>)
      modifies this`tasks
      ensures Outcome(old(State()), Board.Remove(old(State()), id), error)
    {
      if id !in tasks || tasks[id].deleted { return Some(NotFound); }
      tasks := map i | i in tasks ::
        if i == id || tasks[i].parent == Some(id) then tasks[i].(deleted := true) else tasks[i];
      return None;
    }
  }

  lemma ListingKnown(b: BoardState, c: Column, listing: seq<Id>)
    requires IsListing(b, c, listing)
    ensures forall id: Id :: id in listing ==> id in b.tasks
  {
  }

  /** The listing so far, in order, before everything that is left. */
  ghost predicate SortedSoFar(b: BoardState, c: Column, listing: seq<Id>, rest: set<Id>) {
    && (forall id: Id :: Shown(b, id, c) <==> id in rest || id in listing)
    && (forall id: Id :: id in listing ==> id !in rest)
    && (forall i, j :: 0 <= i < j < |listing| ==> listing[i] != listing[j] && Pos(b)(listing[i]) <= Pos(b)(listing[j]))
    && (forall i, id: Id :: 0 <= i < |listing| && id in rest ==> Pos(b)(listing[i]) <= Pos(b)(id))
  }

  lemma SortedFurther(b: BoardState, c: Column, listing: seq<Id>, rest: set<Id>, id: Id)
    requires SortedSoFar(b, c, listing, rest) && id in rest
    requires forall other :: other in rest ==> Pos(b)(id) <= Pos(b)(other)
    ensures SortedSoFar(b, c, listing + [id], rest - {id})
  {
    hide Pos, Shown;
    forall i | 0 <= i < |listing| ensures listing[i] != id {
      assert listing[i] in listing;
    }
  }

  lemma {:induction false} LowestExists(b: BoardState, rest: set<Id>)
    requires rest != {}
    ensures exists id :: id in rest && forall other :: other in rest ==> Pos(b)(id) <= Pos(b)(other)
    decreases |rest|
  {
    var x :| x in rest;
    var smaller := rest - {x};
    assert rest == smaller + {x};
    if smaller == {} {
      assert forall other :: other in rest ==> Pos(b)(x) <= Pos(b)(other);
    } else {
      LowestExists(b, smaller);
      var y :| y in smaller && forall other :: other in smaller ==> Pos(b)(y) <= Pos(b)(other);
      var m := if Pos(b)(x) <= Pos(b)(y) then x else y;
      assert forall other :: other in rest ==> Pos(b)(m) <= Pos(b)(other);
    }
  }
}

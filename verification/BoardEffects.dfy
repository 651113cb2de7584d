/** What an operation of the board does to the tasks themselves: their versions, their columns and their parents. */
module BoardEffects {
  import opened Wrappers
  import opened Board

  // -------------------------------------------------------------------------
  // One operation
  // -------------------------------------------------------------------------

  /** A new task has the given column and parent, the project's next number and the first version. */
  lemma TaskCreated(b: BoardState, id: Id, c: Column, parent: Option<Id>, top: int)
    requires id !in b.tasks && Create(b, id, c, parent, top).Ok?
    ensures var n := Create(b, id, c, parent, top).value;
            && c.project in b.nextNumber && c.project in n.nextNumber && id in n.tasks
            && n.tasks[id].column == c && n.tasks[id].parent == parent && !n.tasks[id].deleted
            && n.tasks[id].version == 1 && n.tasks[id].number == b.nextNumber[c.project]
            && n.nextNumber == b.nextNumber[c.project := b.nextNumber[c.project] + 1]
            && (forall x: Id :: x != id ==>
                  (x in n.tasks <==> x in b.tasks) && (x in b.tasks ==> n.tasks[x] == b.tasks[x]))
  {
  }

  /** The task is in its place at its next version; its number, its parent and its project are what they were. */
  ghost predicate Changed(b: BoardState, n: BoardState, id: Id, status: Id, version: int) {
    && id in b.tasks && !b.tasks[id].deleted && b.tasks[id].version == version && n.tasks.Keys == b.tasks.Keys
    && n.tasks[id] == b.tasks[id].(column := Column(b.tasks[id].column.project, status),
                                   position := n.tasks[id].position, version := version + 1)
    && n.nextNumber == b.nextNumber
  }

  /** An accepted update with version v leaves the task at v + 1, in the status asked for if one was, and every other
      task exactly as it was. */
  lemma TaskUpdated(b: BoardState, id: Id, status: Option<Id>, version: int, top: int)
    requires Update(b, id, status, version, top).Ok?
    ensures var n := Update(b, id, status, version, top).value;
            && id in b.tasks && Changed(b, n, id, status.GetOr(b.tasks[id].column.status), version)
            && (n.tasks[id].column == b.tasks[id].column ==> n.tasks[id].position == b.tasks[id].position)
            && forall x: Id :: x != id && x in b.tasks ==> n.tasks[x] == b.tasks[x]
  {
  }

  /** So does an accepted move, in the column asked for; renumbering gives other tasks of that column new positions and
      nothing else. */
  lemma TaskMoved(b: BoardState, id: Id, status: Id, after: Option<Id>, before: Option<Id>, version: int, top: int,
                  listing: seq<Id>)
    requires Move(b, id, status, after, before, version, top, listing).Ok?
    ensures var n := Move(b, id, status, after, before, version, top, listing).value;
            && Changed(b, n, id, status, version)
            && (forall x: Id :: x in b.tasks && x != id ==>
                  && n.tasks[x] == b.tasks[x].(position := n.tasks[x].position)
                  && (!Shown(b, x, Column(b.tasks[id].column.project, status)) ==> n.tasks[x] == b.tasks[x]))
  {
    MoveKnows(b, id, status, after, before, version, top, listing);
    var c := Column(b.tasks[id].column.project, status);
    var p := DropPosition(b, id, c, after, before, top);
    var moved := Put(b, id, c, p);
    hide DropPosition, Pos;
    if Close(b, after, before) && IsListing(moved, c, listing) {
      RenumberedKeepsCounter(moved, listing);
      hide Renumbered;
      forall x: Id | x in moved.tasks
        ensures var m := Renumbered(moved, listing);
                m.tasks[x] == moved.tasks[x].(position := m.tasks[x].position) &&
                (x !in listing ==> m.tasks[x] == moved.tasks[x])
      {
        RenumberedFrame(moved, listing, x);
      }
    }
  }

  /** Removing marks the task and its subtasks as deleted, and touches nothing else of them or of any other task. */
  lemma TaskRemoved(b: BoardState, id: Id)
    requires Remove(b, id).Ok?
    ensures var n := Remove(b, id).value;
            && n.tasks.Keys == b.tasks.Keys && n.nextNumber == b.nextNumber
            && forall x: Id :: x in b.tasks ==>
                 n.tasks[x] == b.tasks[x].(deleted := b.tasks[x].deleted || x == id || b.tasks[x].parent == Some(id))
  {
  }

  // -------------------------------------------------------------------------
  // Versions
  // -------------------------------------------------------------------------

  /** The task is still there; its version has not gone back, and where it is the same, so are number, column and
      parent. */
  predicate Counted(b: BoardState, n: BoardState, x: Id)
    requires x in b.tasks
  {
    && x in n.tasks && n.tasks[x].version >= b.tasks[x].version
    && (n.tasks[x].version == b.tasks[x].version ==>
          n.tasks[x].number == b.tasks[x].number && n.tasks[x].column == b.tasks[x].column &&
          n.tasks[x].parent == b.tasks[x].parent)
  }

  lemma ChangeCounted(b: BoardState, s: Step, x: Id)
    requires x in b.tasks
    ensures Counted(b, Next(b, s), x)
  {
    hide Create, Update, Move, Remove;
    if Apply(b, s).Ok? {
      match s
      case DoCreate(id, c, parent, top) => TaskCreated(b, id, c, parent, top);
      case DoUpdate(id, status, version, top) => TaskUpdated(b, id, status, version, top);
      case DoMove(id, status, after, before, version, top, listing, _) =>
        TaskMoved(b, id, status, after, before, version, top, listing);
      case DoRemove(id) => TaskRemoved(b, id);
    }
  }

  /** Over any run: a task at the same version has the same number, column and parent, and no version comes back. */
  lemma {:induction false} SameVersionSameColumn(b: BoardState, steps: seq<Step>, x: Id)
    requires x in b.tasks
    ensures Counted(b, Run(b, steps), x)
    decreases |steps|
  {
    if steps != [] {
      ChangeCounted(b, steps[0], x);
      hide Next;
      SameVersionSameColumn(Next(b, steps[0]), steps[1..], x);
    }
  }

  /** An update or a move of task id sent with this version. */
  predicate ChangesAt(s: Step, id: Id, version: int) {
    (s.DoUpdate? && s.id == id && s.version == version) || (s.DoMove? && s.id == id && s.version == version)
  }

  /** Of the updates and moves sent with one version of a task at most one is accepted, whatever happens in between. */
  lemma OneChangePerVersion(b: BoardState, id: Id, version: int, s: Step, steps: seq<Step>, again: Step)
    requires ChangesAt(s, id, version) && ChangesAt(again, id, version) && Apply(b, s).Ok?
    ensures Apply(Run(Next(b, s), steps), again).Err?
  {
    hide Run, Update, Move;
    AcceptedRaises(b, s, id, version);
    SameVersionSameColumn(Next(b, s), steps, id);
    StaleRefused(Run(Next(b, s), steps), again, id, version);
  }

  lemma AcceptedRaises(b: BoardState, s: Step, id: Id, version: int)
    requires ChangesAt(s, id, version) && Apply(b, s).Ok?
    ensures id in Next(b, s).tasks && Next(b, s).tasks[id].version == version + 1
  {
    hide Update, Move;
    if s.DoUpdate? {
      TaskUpdated(b, id, s.status, version, s.top);
    } else {
      TaskMoved(b, id, s.target, s.after, s.before, version, s.top, s.listing);
    }
  }

  lemma StaleRefused(b: BoardState, s: Step, id: Id, version: int)
    requires ChangesAt(s, id, version) && id in b.tasks && b.tasks[id].version != version
    ensures Apply(b, s).Err?
  {
    hide DropPosition, Renumbered, Put;
  }

  // -------------------------------------------------------------------------
  // Subtasks
  // -------------------------------------------------------------------------

  /** A parent is a task of the same project that has no parent itself, and a removed one has no live subtasks. */
  ghost predicate Nested(b: BoardState) {
    forall x: Id :: x in b.tasks && b.tasks[x].parent.Some? ==> ParentOk(b, x, b.tasks[x].parent.value)
  }

  predicate ParentOk(b: BoardState, x: Id, p: Id)
    requires x in b.tasks
  {
    && p in b.tasks && b.tasks[p].parent.None? && b.tasks[p].column.project == b.tasks[x].column.project
    && (b.tasks[p].deleted ==> b.tasks[x].deleted)
  }

  lemma NextNested(b: BoardState, s: Step)
    requires Nested(b)
    ensures Nested(Next(b, s))
  {
    hide Update, Move, Remove;
    var n := Next(b, s);
    if Apply(b, s).Ok? {
      match s
      case DoCreate(id, c, parent, top) => TaskCreated(b, id, c, parent, top);
      case DoUpdate(id, status, version, top) => hide Create; TaskUpdated(b, id, status, version, top);
      case DoMove(id, status, after, before, version, top, listing, _) =>
        hide Create;
        TaskMoved(b, id, status, after, before, version, top, listing);
      case DoRemove(id) => hide Create; TaskRemoved(b, id);
      forall x: Id | x in n.tasks && n.tasks[x].parent.Some? ensures ParentOk(n, x, n.tasks[x].parent.value) {
        if x in b.tasks && b.tasks[x].parent.Some? { assert ParentOk(b, x, b.tasks[x].parent.value); }
      }
    }
  }

  /** Over every run subtasks stay one level deep, in their parent's project, and are not left behind when it goes. */
  lemma {:induction false} RunNested(b: BoardState, steps: seq<Step>)
    requires Nested(b)
    ensures Nested(Run(b, steps))
    decreases |steps|
  {
    if steps != [] {
      NextNested(b, steps[0]);
      hide Next, Nested;
      RunNested(Next(b, steps[0]), steps[1..]);
    }
  }

  // -------------------------------------------------------------------------
  // What is accepted
  // -------------------------------------------------------------------------

  predicate Live(b: BoardState, id: Id) {
    id in b.tasks && !b.tasks[id].deleted
  }

  /** A live task of the project that is no subtask itself. */
  predicate CanHaveSubtasks(b: BoardState, id: Id, project: Id) {
    Live(b, id) && b.tasks[id].column.project == project && b.tasks[id].parent.None?
  }

  /** A drop next to live tasks of the column it goes to, other than the task itself. */
  predicate NextTo(b: BoardState, id: Id, c: Column, neighbour: Option<Id>) {
    match neighbour
    case Some(n) => n != id && Live(b, n) && b.tasks[n].column == c
    case None => true
  }

  /** Live tasks are changed at their current version, moved next to tasks of the column, and removed; new ones need a
      project, and a parent that can have subtasks. Refusals say which of these was missing. */
  lemma AcceptedExactly(b: BoardState, id: Id, c: Column, parent: Option<Id>, status: Option<Id>, target: Id,
                        after: Option<Id>, before: Option<Id>, version: int, top: int, listing: seq<Id>)
    ensures id !in b.tasks ==>
              && (Create(b, id, c, parent, top).Ok? <==>
                    c.project in b.nextNumber && (parent.Some? ==> CanHaveSubtasks(b, parent.value, c.project)))
              && (Create(b, id, c, parent, top) == Err(NotFound) <==> c.project !in b.nextNumber)
              && (Create(b, id, c, parent, top) == Err(BadRequest) <==>
                    c.project in b.nextNumber && parent.Some? && !CanHaveSubtasks(b, parent.value, c.project))
    ensures Update(b, id, status, version, top).Ok? <==> Live(b, id) && b.tasks[id].version == version
    ensures Update(b, id, status, version, top) == Err(NotFound) <==> !Live(b, id)
    ensures Update(b, id, status, version, top) == Err(VersionConflict) <==>
              Live(b, id) && b.tasks[id].version != version
    ensures Remove(b, id) == Err(NotFound) <==> !Live(b, id)
    ensures Remove(b, id).Ok? <==> Live(b, id)
    ensures Move(b, id, target, after, before, version, top, listing) == Err(NotFound) <==> !Live(b, id)
    ensures Live(b, id) ==>
              var to := Column(b.tasks[id].column.project, target);
              var fits := NextTo(b, id, to, after) && NextTo(b, id, to, before);
              && (Move(b, id, target, after, before, version, top, listing).Ok? <==>
                    fits && b.tasks[id].version == version)
              && (Move(b, id, target, after, before, version, top, listing) == Err(BadRequest) <==> !fits)
              && (Move(b, id, target, after, before, version, top, listing) == Err(VersionConflict) <==>
                    fits && b.tasks[id].version != version)
  {
    hide DropPosition, Renumbered, Close;
  }

  // -------------------------------------------------------------------------
  // Positions
  // -------------------------------------------------------------------------

  /** A midpoint is the exact one rounded to the column's last decimal, an exact half away from zero. */
  lemma MidpointRounds(a: int, b: int)
    ensures var m := Midpoint(a, b);
            if (a + b) % 2 == 0 then 2 * m == a + b
            else if a + b > 0 then 2 * m == a + b + 1 else 2 * m == a + b - 1
  {
  }

  /** Where an accepted drop puts the task: halfway between two neighbours, 1000 beyond one, or 1000 beyond the top; and
      the column is renumbered 1000, 2000 and so on exactly when the two neighbours were less than 1e-6 apart. */
  lemma DropLands(b: BoardState, id: Id, status: Id, after: Option<Id>, before: Option<Id>, version: int, top: int,
                  listing: seq<Id>)
    requires Move(b, id, status, after, before, version, top, listing).Ok?
    ensures var n := Move(b, id, status, after, before, version, top, listing).value;
            var c := Column(b.tasks[id].column.project, status);
            var p := match (after, before)
                     case (Some(x), Some(y)) => Midpoint(Pos(b)(x), Pos(b)(y))
                     case (Some(x), None) => Pos(b)(x) + 1000 * UNIT
                     case (None, Some(y)) => Pos(b)(y) - 1000 * UNIT
                     case (None, None) => top + 1000 * UNIT;
            var close := match (after, before)
                         case (Some(x), Some(y)) => -10_000 < Pos(b)(y) - Pos(b)(x) < 10_000
                         case _ => false;
            && (!close ==> n.tasks[id].position == p)
            && (!close ==> forall x :: x in b.tasks && x != id ==> n.tasks[x] == b.tasks[x])
            && (close && IsListing(Put(b, id, c, p), c, listing) ==>
                  forall i :: 0 <= i < |listing| ==>
                    listing[i] in n.tasks && n.tasks[listing[i]].position == (i + 1) * (1000 * UNIT))
  {
    MoveKnows(b, id, status, after, before, version, top, listing);
    var c := Column(b.tasks[id].column.project, status);
    var p := DropPosition(b, id, c, after, before, top);
    var moved := Put(b, id, c, p);
    if Close(b, after, before) && IsListing(moved, c, listing) {
      hide Renumbered, DropPosition, Midpoint;
      forall i | 0 <= i < |listing|
        ensures listing[i] in Renumbered(moved, listing).tasks
        ensures Renumbered(moved, listing).tasks[listing[i]].position == (i + 1) * STEP
      {
        RenumberedAt(moved, listing, i);
      }
    }
  }
}

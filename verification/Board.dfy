/** The planner board: numeric positions with midpoints and renumbering stand in for one ordered list of tasks per
    column. Positions are held in units of the column's last decimal, 10^-10. */
module Board {
  import opened Wrappers

  type Id = nat

  const UNIT := 10_000_000_000
  const STEP := 1000 * UNIT

  /** Below 1e-6 between the neighbours, the column is renumbered. */
  const TOO_CLOSE := UNIT / 1_000_000

  /** Half of that: no two tasks of a column ever come closer. */
  const MIN_GAP := TOO_CLOSE / 2

  datatype Column = Column(project: Id, status: Id)

  datatype Task = Task(number: int, column: Column, parent: Option<Id>, position: int, deleted: bool, version: int)

  datatype BoardState = BoardState(tasks: map<Id, Task>, nextNumber: map<Id, int>)

  datatype Error = NotFound | BadRequest | VersionConflict

  predicate Shown(b: BoardState, id: Id, c: Column) {
    id in b.tasks && !b.tasks[id].deleted && b.tasks[id].column == c
  }

  function Pos(b: BoardState): Id -> int {
    (id: Id) => if id in b.tasks then b.tasks[id].position else 0
  }

  /** select max(position), which is null for an empty column and then read as 0 */
  ghost predicate IsTop(b: BoardState, c: Column, except: Option<Id>, top: int) {
    && (forall id: Id :: Shown(b, id, c) && except != Some(id) ==> b.tasks[id].position <= top)
    && (if exists id: Id :: Shown(b, id, c) && except != Some(id)
        then exists id: Id :: Shown(b, id, c) && except != Some(id) && b.tasks[id].position == top else top == 0)
  }

  /** The column's tasks as a query ordered by position returns them. */
  ghost predicate IsListing(b: BoardState, c: Column, list: seq<Id>) {
    && (forall id: Id :: id in list <==> Shown(b, id, c))
    && (forall i, j :: 0 <= i < j < |list| ==> list[i] != list[j] && Pos(b)(list[i]) <= Pos(b)(list[j]))
  }

  /** (after + before) / 2 printed with ten decimals: an exact half rounds away from zero. */
  function Midpoint(after: int, before: int): int {
    var sum := after + before;
    if sum >= 0 then (sum + 1) / 2 else -((-sum + 1) / 2)
  }

  function Put(b: BoardState, id: Id, c: Column, position: int): BoardState
    requires id in b.tasks
  {
    var t := b.tasks[id];
    b.(tasks := b.tasks[id := t.(column := c, position := position, version := t.version + 1)])
  }

  // -------------------------------------------------------------------------
  // Operations
  // -------------------------------------------------------------------------

  function Create(b: BoardState, id: Id, c: Column, parent: Option<Id>, top: int): Result<BoardState, Error>
    requires id !in b.tasks
  {
    if c.project !in b.nextNumber then Err(NotFound)
    else if parent.Some? && (parent.value !in b.tasks || b.tasks[parent.value].deleted
                             || b.tasks[parent.value].column.project != c.project) then Err(BadRequest)
    else if parent.Some? && b.tasks[parent.value].parent.Some? then Err(BadRequest)
    else
      var n := b.nextNumber[c.project];
      Ok(BoardState(b.tasks[id := Task(n, c, parent, top + STEP, false, 1)], b.nextNumber[c.project := n + 1]))
  }

  /** The status part of an update; None leaves the status alone. */
  function Update(b: BoardState, id: Id, status: Option<Id>, version: int, top: int): Result<BoardState, Error> {
    if id !in b.tasks || b.tasks[id].deleted then Err(NotFound)
    else
      var t := b.tasks[id];
      if t.version != version then Err(VersionConflict)
      else if status.None? || status.value == t.column.status then Ok(Put(b, id, t.column, t.position))
      else Ok(Put(b, id, Column(t.column.project, status.value), top + STEP))
  }

  predicate ValidNeighbour(b: BoardState, id: Id, c: Column, n: Option<Id>) {
    n.Some? ==> Shown(b, n.value, c) && n.value != id
  }

  function DropPosition(b: BoardState, id: Id, c: Column, after: Option<Id>, before: Option<Id>, top: int): int
    requires ValidNeighbour(b, id, c, after) && ValidNeighbour(b, id, c, before)
  {
    if after.Some? && before.Some? then Midpoint(b.tasks[after.value].position, b.tasks[before.value].position)
    else if after.Some? then b.tasks[after.value].position + STEP
    else if before.Some? then b.tasks[before.value].position - STEP
    else top + STEP
  }

  predicate Close(b: BoardState, after: Option<Id>, before: Option<Id>)
    requires (after.Some? ==> after.value in b.tasks) && (before.Some? ==> before.value in b.tasks)
  {
    && after.Some? && before.Some?
    && -TOO_CLOSE < b.tasks[before.value].position - b.tasks[after.value].position < TOO_CLOSE
  }

  /** The i-th task of the list, counting from 1, gets position i * 1000. */
  function Renumbered(b: BoardState, list: seq<Id>): (c: BoardState)
    requires forall x: Id :: x in list ==> x in b.tasks
    ensures c.tasks.Keys == b.tasks.Keys
  {
    if list == [] then b
    else
      var last := |list| - 1;
      var c := Renumbered(b, list[..last]);
      c.(tasks := c.tasks[list[last] := c.tasks[list[last]].(position := |list| * STEP)])
  }

  /** `listing` is the renumbering query's result; it matters only when the neighbours are close. */
  ghost function Move(b: BoardState, id: Id, status: Id, after: Option<Id>, before: Option<Id>, version: int,
                      top: int, listing: seq<Id>): Result<BoardState, Error>
  {
    if id !in b.tasks || b.tasks[id].deleted then Err(NotFound)
    else
      var c := Column(b.tasks[id].column.project, status);
      if !ValidNeighbour(b, id, c, after) || !ValidNeighbour(b, id, c, before) then Err(BadRequest)
      else if b.tasks[id].version != version then Err(VersionConflict)
      else
        var moved := Put(b, id, c, DropPosition(b, id, c, after, before, top));
        if Close(b, after, before) && IsListing(moved, c, listing) then Ok(Renumbered(moved, listing)) else Ok(moved)
  }

  /** A task goes with its subtasks. */
  function Remove(b: BoardState, id: Id): Result<BoardState, Error> {
    if id !in b.tasks || b.tasks[id].deleted then Err(NotFound)
    else Ok(b.(tasks := map i | i in b.tasks ::
                 if i == id || b.tasks[i].parent == Some(id) then b.tasks[i].(deleted := true) else b.tasks[i]))
  }

  // -------------------------------------------------------------------------
  // The lists the positions stand for
  // -------------------------------------------------------------------------

  ghost predicate Gapped(pos: Id -> int, list: seq<Id>, gap: int) {
    forall i, j :: 0 <= i < j < |list| ==> pos(list[i]) + gap <= pos(list[j])
  }

  type Lists = Column -> seq<Id>

  /** The column shows exactly these tasks in this order, with room between any two. */
  ghost predicate Shows(b: BoardState, c: Column, list: seq<Id>) {
    (forall id: Id :: id in list <==> Shown(b, id, c)) && Gapped(Pos(b), list, MIN_GAP)
  }

  ghost predicate Refines(b: BoardState, lists: Lists) {
    forall c: Column :: Shows(b, c, lists(c))
  }

  function Without(list: seq<Id>, gone: set<Id>): seq<Id> {
    if list == [] then [] else (if list[0] in gone then [] else [list[0]]) + Without(list[1..], gone)
  }

  function InsertAt(list: seq<Id>, k: nat, id: Id): seq<Id>
    requires k <= |list|
  {
    list[..k] + [id] + list[k..]
  }

  /** The neighbours are next to each other, a missing one standing for that end of the column; both missing
      stands for the bottom. */
  predicate Adjacent(list: seq<Id>, after: Option<Id>, before: Option<Id>, k: nat) {
    && k <= |list|
    && (if after.Some? then k > 0 && list[k - 1] == after.value else if before.Some? then k == 0 else k == |list|)
    && (if before.Some? then k < |list| && list[k] == before.value else k == |list|)
  }

  lemma {:induction false} WithoutHas(list: seq<Id>, gone: set<Id>, id: Id)
    ensures id in Without(list, gone) <==> id in list && id !in gone
  {
    if list != [] {
      WithoutHas(list[1..], gone, id);
      assert list == [list[0]] + list[1..];
    }
  }

  lemma {:induction false} WithoutGapped(pos: Id -> int, list: seq<Id>, gone: set<Id>, gap: int)
    requires Gapped(pos, list, gap)
    ensures Gapped(pos, Without(list, gone), gap)
  {
    if list != [] {
      WithoutGapped(pos, list[1..], gone, gap);
      var rest := Without(list[1..], gone);
      forall j | 0 <= j < |rest| ensures pos(list[0]) + gap <= pos(rest[j]) {
        WithoutHas(list[1..], gone, rest[j]);
        var k :| 1 <= k < |list| && list[k] == rest[j];
      }
    }
  }

  lemma SamePositions(pos: Id -> int, pos': Id -> int, list: seq<Id>, gap: int)
    requires Gapped(pos, list, gap) && forall x: Id :: x in list ==> pos(x) == pos'(x)
    ensures Gapped(pos', list, gap)
  {
    assert forall i :: 0 <= i < |list| ==> list[i] in list;
  }

  lemma InsertHas(list: seq<Id>, k: nat, id: Id)
    requires k <= |list|
    ensures forall x: Id :: x in InsertAt(list, k, id) <==> x in list || x == id
  {
    assert list == list[..k] + list[k..];
  }

  /** Putting one task between its neighbours, or at an end, with a gap on both sides. */
  lemma InsertGapped(pos: Id -> int, list: seq<Id>, k: nat, id: Id, gap: int)
    requires k <= |list| && Gapped(pos, list, gap) && gap > 0
    requires k > 0 ==> pos(list[k - 1]) + gap <= pos(id)
    requires k < |list| ==> pos(id) + gap <= pos(list[k])
    ensures Gapped(pos, InsertAt(list, k, id), gap)
  {
    forall i | 0 <= i < k ensures pos(list[i]) + gap <= pos(id) {
      assert i < k - 1 ==> pos(list[i]) + gap <= pos(list[k - 1]);
    }
    forall j | k <= j < |list| ensures pos(id) + gap <= pos(list[j]) {
      assert k < j ==> pos(list[k]) + gap <= pos(list[j]);
    }
  }

  /** When no two positions are equal, the query can return only one order. */
  lemma {:induction false} ListingUnique(pos: Id -> int, s: seq<Id>, t: seq<Id>)
    requires Gapped(pos, s, 1)
    requires forall i, j :: 0 <= i < j < |t| ==> t[i] != t[j] && pos(t[i]) <= pos(t[j])
    requires forall x: Id :: x in s <==> x in t
    ensures s == t
  {
    assert (s != [] ==> s[0] in s) && (t != [] ==> t[0] in t);
    if s != [] && t != [] {
      assert s[0] in t && t[0] in s;
      assert s[0] == t[0];
      forall x: Id ensures x in s[1..] <==> x in t[1..] {
        if x in s[1..] {
          var i :| 1 <= i < |s| && s[i] == x;
          assert s[i] in s && s[i] in t && s[i] != s[0];
        }
        if x in t[1..] {
          var i :| 1 <= i < |t| && t[i] == x;
          assert t[i] in t && t[i] in s && t[i] != t[0];
        }
      }
      ListingUnique(pos, s[1..], t[1..]);
    }
  }

  lemma {:induction false} RenumberedFrame(b: BoardState, list: seq<Id>, x: Id)
    requires forall y: Id :: y in list ==> y in b.tasks
    requires x in b.tasks
    ensures var n := Renumbered(b, list);
            n.tasks[x] == b.tasks[x].(position := n.tasks[x].position) && (x !in list ==> n.tasks[x] == b.tasks[x])
  {
    if list != [] {
      RenumberedFrame(b, list[..|list| - 1], x);
    }
  }

  lemma {:induction false} RenumberedAt(b: BoardState, list: seq<Id>, i: nat)
    requires forall y: Id :: y in list ==> y in b.tasks
    requires (forall j, k :: 0 <= j < k < |list| ==> list[j] != list[k]) && i < |list|
    ensures list[i] in list && Renumbered(b, list).tasks[list[i]].position == (i + 1) * STEP
  {
    if i < |list| - 1 {
      RenumberedAt(b, list[..|list| - 1], i);
    }
  }

  /** Renumbering changes no order, and nothing outside the column. */
  lemma RenumberShows(b: BoardState, c: Column, list: seq<Id>, listing: seq<Id>)
    requires Gapped(Pos(b), list, 1) && IsListing(b, c, listing)
    requires forall x: Id :: x in list <==> Shown(b, x, c)
    ensures list == listing && forall x: Id :: x in list ==> x in b.tasks
    ensures Shows(Renumbered(b, list), c, list)
  {
    ListingUnique(Pos(b), list, listing);
    RenumberedShown(b, c, list);
    RenumberedGapped(b, list);
  }

  lemma RenumberedShown(b: BoardState, c: Column, list: seq<Id>)
    requires forall x: Id :: x in list ==> Shown(b, x, c)
    requires forall x: Id :: Shown(b, x, c) ==> x in list
    requires forall i, j :: 0 <= i < j < |list| ==> list[i] != list[j]
    ensures forall x: Id :: x in list ==> x in b.tasks
    ensures forall x: Id :: Shown(Renumbered(b, list), x, c) <==> Shown(b, x, c)
  {
    hide Renumbered;
    forall x: Id | x in b.tasks ensures Shown(Renumbered(b, list), x, c) <==> Shown(b, x, c) {
      RenumberedFrame(b, list, x);
    }
  }

  lemma RenumberedGapped(b: BoardState, list: seq<Id>)
    requires forall x: Id :: x in list ==> x in b.tasks
    requires forall i, j :: 0 <= i < j < |list| ==> list[i] != list[j]
    ensures Gapped(Pos(Renumbered(b, list)), list, MIN_GAP)
  {
    hide Renumbered, Pos, Gapped;
    var pos := Pos(Renumbered(b, list));
    forall i | 0 <= i < |list| ensures pos(list[i]) == (i + 1) * STEP {
      RenumberedPos(b, list, i);
    }
    SpacedGapped(pos, list);
  }

  lemma SpacedGapped(pos: Id -> int, list: seq<Id>)
    requires forall i :: 0 <= i < |list| ==> pos(list[i]) == (i + 1) * STEP
    ensures Gapped(pos, list, MIN_GAP)
  {
  }

  lemma RenumberedPos(b: BoardState, list: seq<Id>, i: nat)
    requires forall x: Id :: x in list ==> x in b.tasks
    requires (forall j, k :: 0 <= j < k < |list| ==> list[j] != list[k]) && i < |list|
    ensures Pos(Renumbered(b, list))(list[i]) == (i + 1) * STEP
  {
    RenumberedAt(b, list, i);
    RenumberedFrame(b, list, list[i]);
    hide Renumbered;
  }

  // -------------------------------------------------------------------------
  // Every operation is the list operation
  // -------------------------------------------------------------------------

  /** Leaving some tasks out of a column leaves the rest in order. */
  lemma ShowsWithout(b: BoardState, n: BoardState, c: Column, list: seq<Id>, gone: set<Id>)
    requires Shows(b, c, list)
    requires forall id: Id :: Shown(n, id, c) <==> Shown(b, id, c) && id !in gone
    requires forall id: Id :: Shown(n, id, c) ==> n.tasks[id].position == b.tasks[id].position
    ensures Shows(n, c, Without(list, gone))
  {
    WithoutGapped(Pos(b), list, gone, MIN_GAP);
    forall id: Id ensures id in Without(list, gone) <==> Shown(n, id, c) {
      WithoutHas(list, gone, id);
    }
    SamePositions(Pos(b), Pos(n), Without(list, gone), MIN_GAP);
  }

  /** The column as seen by a drop: without the task being dropped. */
  lemma RestOfColumn(b: BoardState, lists: Lists, c: Column, id: Id)
    requires Refines(b, lists)
    ensures Gapped(Pos(b), Without(lists(c), {id}), MIN_GAP)
    ensures forall x: Id :: x in Without(lists(c), {id}) <==> Shown(b, x, c) && x != id
  {
    assert Shows(b, c, lists(c));
    WithoutGapped(Pos(b), lists(c), {id}, MIN_GAP);
    forall x: Id ensures x in Without(lists(c), {id}) <==> Shown(b, x, c) && x != id {
      WithoutHas(lists(c), {id}, x);
    }
  }

  lemma TopIsLast(b: BoardState, c: Column, list: seq<Id>, except: Option<Id>, top: int)
    requires Gapped(Pos(b), list, MIN_GAP) && IsTop(b, c, except, top)
    requires forall x: Id :: x in list <==> Shown(b, x, c) && except != Some(x)
    ensures list != [] ==> top == Pos(b)(list[|list| - 1])
  {
    if list != [] {
      var last := list[|list| - 1];
      assert last in list;
      var id: Id :| Shown(b, id, c) && except != Some(id) && b.tasks[id].position == top;
      assert id in list;
      assert Pos(b)(id) == top && Pos(b)(last) <= top;
    }
  }

  /** n is b with one task placed in column c; other tasks keep their place there. */
  ghost predicate Placed(b: BoardState, n: BoardState, id: Id, c: Column) {
    && Shown(n, id, c)
    && (forall x: Id :: x != id ==> (Shown(n, x, c) <==> Shown(b, x, c)) && Pos(n)(x) == Pos(b)(x))
  }

  lemma InsertShows(b: BoardState, n: BoardState, c: Column, rest: seq<Id>, k: nat, id: Id, gap: int)
    requires Placed(b, n, id, c) && k <= |rest| && Gapped(Pos(b), rest, MIN_GAP) && 0 < gap <= MIN_GAP
    requires forall x: Id :: x in rest <==> Shown(b, x, c) && x != id
    requires k > 0 ==> Pos(b)(rest[k - 1]) + gap <= Pos(n)(id)
    requires k < |rest| ==> Pos(n)(id) + gap <= Pos(b)(rest[k])
    ensures Gapped(Pos(n), InsertAt(rest, k, id), gap)
    ensures forall x: Id :: x in InsertAt(rest, k, id) <==> Shown(n, x, c)
  {
    SamePositions(Pos(b), Pos(n), rest, MIN_GAP);
    assert k > 0 ==> rest[k - 1] in rest;
    assert k < |rest| ==> rest[k] in rest;
    InsertGapped(Pos(n), rest, k, id, gap);
    InsertHas(rest, k, id);
  }

  /** One task leaves its column, if it was shown, and joins column c at place k. */
  function Moved(lists: Lists, id: Id, c: Column, k: nat): Lists {
    (x: Column) =>
      if x == c && k <= |Without(lists(c), {id})| then InsertAt(Without(lists(c), {id}), k, id)
      else Without(lists(x), {id})
  }

  /** Tasks other than id are untouched outside column c. */
  ghost predicate OnlyTouches(b: BoardState, n: BoardState, id: Id, c: Column) {
    && (forall x: Id, d: Column :: d != c && x != id ==> (Shown(n, x, d) <==> Shown(b, x, d)))
    && (forall x: Id, d: Column :: d != c && x != id && Shown(b, x, d) ==> Pos(n)(x) == Pos(b)(x))
  }

  lemma PutRefines(b: BoardState, lists: Lists, n: BoardState, id: Id, c: Column, k: nat)
    requires Refines(b, lists) && Shown(n, id, c) && OnlyTouches(b, n, id, c)
    requires k <= |Without(lists(c), {id})| && Shows(n, c, InsertAt(Without(lists(c), {id}), k, id))
    ensures Refines(n, Moved(lists, id, c, k))
  {
    hide Gapped;
    forall x: Column ensures Shows(n, x, Moved(lists, id, c, k)(x)) {
      if x != c {
        assert Shows(b, x, lists(x));
        ShowsWithout(b, n, x, lists(x), {id});
      }
    }
  }

  /** A new task joins the bottom of its column. */
  lemma CreateRefines(b: BoardState, lists: Lists, id: Id, c: Column, parent: Option<Id>, top: int)
    requires Refines(b, lists) && id !in b.tasks && IsTop(b, c, None, top) && Create(b, id, c, parent, top).Ok?
    ensures Without(lists(c), {id}) == lists(c)
    ensures Refines(Create(b, id, c, parent, top).value, Moved(lists, id, c, |lists(c)|))
  {
    var n, list := Create(b, id, c, parent, top).value, lists(c);
    assert Shows(b, c, list);
    WithoutNothing(list, id);
    TopIsLast(b, c, list, None, top);
    CreateTouches(b, id, c, parent, top);
    hide Refines, Gapped, IsTop, Without, Create, Pos, Placed, OnlyTouches, InsertAt;
    AppendShows(b, n, c, list, id, top);
    PutRefines(b, lists, n, id, c, |list|);
  }

  lemma CreateTouches(b: BoardState, id: Id, c: Column, parent: Option<Id>, top: int)
    requires id !in b.tasks && Create(b, id, c, parent, top).Ok?
    ensures var n := Create(b, id, c, parent, top).value;
            Placed(b, n, id, c) && OnlyTouches(b, n, id, c) && Pos(n)(id) == top + STEP
  {
  }

  lemma AppendShows(b: BoardState, n: BoardState, c: Column, list: seq<Id>, id: Id, top: int)
    requires Placed(b, n, id, c) && Gapped(Pos(b), list, MIN_GAP) && Pos(n)(id) == top + STEP
    requires forall x: Id :: x in list <==> Shown(b, x, c) && x != id
    requires list != [] ==> top == Pos(b)(list[|list| - 1])
    ensures Shows(n, c, InsertAt(list, |list|, id))
  {
    InsertShows(b, n, c, list, |list|, id, MIN_GAP);
  }

  lemma {:induction false} WithoutNothing(list: seq<Id>, id: Id)
    requires id !in list
    ensures Without(list, {id}) == list
  {
    if list != [] { WithoutNothing(list[1..], id); }
  }

  /** A status change moves the task to the bottom of the other column; other updates move nothing. */
  lemma UpdateRefines(b: BoardState, lists: Lists, id: Id, status: Option<Id>, version: int, top: int)
    requires Refines(b, lists) && Update(b, id, status, version, top).Ok?
    requires status.Some? ==> IsTop(b, Column(b.tasks[id].column.project, status.value), None, top)
    ensures var n := Update(b, id, status, version, top).value;
            if status.None? || status.value == b.tasks[id].column.status then Refines(n, lists)
            else
              var c := Column(b.tasks[id].column.project, status.value);
              Without(lists(c), {id}) == lists(c) && Refines(n, Moved(lists, id, c, |lists(c)|))
  {
    var n := Update(b, id, status, version, top).value;
    if status.None? || status.value == b.tasks[id].column.status {
      forall x: Column ensures Shows(n, x, lists(x)) {
        assert Shows(b, x, lists(x));
        SamePositions(Pos(b), Pos(n), lists(x), MIN_GAP);
      }
    } else {
      var c := Column(b.tasks[id].column.project, status.value);
      StatusChangeRefines(b, lists, id, c, top);
    }
  }

  lemma StatusChangeRefines(b: BoardState, lists: Lists, id: Id, c: Column, top: int)
    requires Refines(b, lists) && id in b.tasks && !b.tasks[id].deleted && b.tasks[id].column != c
    requires IsTop(b, c, None, top)
    ensures Without(lists(c), {id}) == lists(c)
    ensures Refines(Put(b, id, c, top + STEP), Moved(lists, id, c, |lists(c)|))
  {
    hide Gapped, IsTop, Without, Put, Pos, Placed, OnlyTouches, InsertAt;
    var n, list := Put(b, id, c, top + STEP), lists(c);
    assert Shows(b, c, list);
    hide Refines;
    assert id !in list;
    WithoutNothing(list, id);
    TopIsLast(b, c, list, None, top);
    PutTouches(b, id, c, top + STEP);
    hide Shown;
    AppendShows(b, n, c, list, id, top);
    PutRefines(b, lists, n, id, c, |list|);
  }

  lemma PutTouches(b: BoardState, id: Id, c: Column, p: int)
    requires id in b.tasks && !b.tasks[id].deleted
    ensures Placed(b, Put(b, id, c, p), id, c) && OnlyTouches(b, Put(b, id, c, p), id, c)
    ensures Pos(Put(b, id, c, p))(id) == p
  {
  }

  lemma MidpointBetween(a: int, b: int)
    requires a + MIN_GAP <= b
    ensures a < Midpoint(a, b) < b
    ensures a + TOO_CLOSE <= b ==> a + MIN_GAP <= Midpoint(a, b) && Midpoint(a, b) + MIN_GAP <= b
  {
  }

  /** Where the task lands between its neighbours, and how much room it leaves. */
  lemma DropBetween(b: BoardState, id: Id, c: Column, rest: seq<Id>, after: Option<Id>, before: Option<Id>, top: int,
                    k: nat)
    requires Gapped(Pos(b), rest, MIN_GAP) && Adjacent(rest, after, before, k)
    requires ValidNeighbour(b, id, c, after) && ValidNeighbour(b, id, c, before)
    requires rest != [] ==> top == Pos(b)(rest[|rest| - 1])
    ensures var p, gap := DropPosition(b, id, c, after, before, top), if Close(b, after, before) then 1 else MIN_GAP;
            && (k > 0 ==> Pos(b)(rest[k - 1]) + gap <= p)
            && (k < |rest| ==> p + gap <= Pos(b)(rest[k]))
  {
    if after.Some? && before.Some? {
      MidpointBetween(Pos(b)(rest[k - 1]), Pos(b)(rest[k]));
    }
  }

  /** The drop before any renumbering. */
  lemma MovePlaces(b: BoardState, lists: Lists, id: Id, c: Column, after: Option<Id>, before: Option<Id>, top: int,
                   k: nat)
    requires Refines(b, lists) && id in b.tasks && !b.tasks[id].deleted
    requires ValidNeighbour(b, id, c, after) && ValidNeighbour(b, id, c, before)
    requires Adjacent(Without(lists(c), {id}), after, before, k) && IsTop(b, c, Some(id), top)
    ensures var list := InsertAt(Without(lists(c), {id}), k, id);
            var moved := Put(b, id, c, DropPosition(b, id, c, after, before, top));
            && Gapped(Pos(moved), list, if Close(b, after, before) then 1 else MIN_GAP)
            && (forall x: Id :: x in list <==> Shown(moved, x, c))
            && Shown(moved, id, c) && OnlyTouches(b, moved, id, c)
  {
    var rest := Without(lists(c), {id});
    var p := DropPosition(b, id, c, after, before, top);
    RestOfColumn(b, lists, c, id);
    TopIsLast(b, c, rest, Some(id), top);
    DropBetween(b, id, c, rest, after, before, top, k);
    hide Refines, Gapped, Adjacent, IsTop, DropPosition, Without, InsertAt;
    PutTouches(b, id, c, p);
    hide Put, Pos, OnlyTouches, Placed;
    InsertShows(b, Put(b, id, c, p), c, rest, k, id, if Close(b, after, before) then 1 else MIN_GAP);
  }

  lemma PlacedRefines(b: BoardState, lists: Lists, moved: BoardState, id: Id, c: Column, k: nat, close: bool,
                      listing: seq<Id>)
    requires Refines(b, lists) && k <= |Without(lists(c), {id})|
    requires var list := InsertAt(Without(lists(c), {id}), k, id);
             && Gapped(Pos(moved), list, if close then 1 else MIN_GAP)
             && (forall x: Id :: x in list <==> Shown(moved, x, c))
             && Shown(moved, id, c) && OnlyTouches(b, moved, id, c)
    requires close ==> IsListing(moved, c, listing)
    ensures Refines(if close then Renumbered(moved, listing) else moved, Moved(lists, id, c, k))
  {
    hide Refines, Without, InsertAt, OnlyTouches;
    if close {
      RenumberShows(moved, c, InsertAt(Without(lists(c), {id}), k, id), listing);
      RenumberTouches(b, moved, id, c, listing);
      hide IsListing, Gapped, Shown, Renumbered;
      PutRefines(b, lists, Renumbered(moved, listing), id, c, k);
    } else {
      PutRefines(b, lists, moved, id, c, k);
    }
  }

  /** A drop next to its neighbours gives exactly the list with the task at that place: the midpoint is always
      strictly between, and where it lands too close, renumbering restores the room without changing the order. */
  lemma MoveRefines(b: BoardState, lists: Lists, id: Id, status: Id, after: Option<Id>, before: Option<Id>,
                    version: int, top: int, listing: seq<Id>, k: nat)
    requires Refines(b, lists) && Move(b, id, status, after, before, version, top, listing).Ok?
    requires var c := Column(b.tasks[id].column.project, status);
             && Adjacent(Without(lists(c), {id}), after, before, k) && IsTop(b, c, Some(id), top)
             && (Close(b, after, before) ==>
                 IsListing(Put(b, id, c, DropPosition(b, id, c, after, before, top)), c, listing))
    ensures var c := Column(b.tasks[id].column.project, status);
            Refines(Move(b, id, status, after, before, version, top, listing).value, Moved(lists, id, c, k))
  {
    hide Refines, Gapped, IsTop, DropPosition, Without, InsertAt, IsListing, Put, OnlyTouches, Pos, Moved;
    var c := Column(b.tasks[id].column.project, status);
    MovePlaces(b, lists, id, c, after, before, top, k);
    PlacedRefines(b, lists, Put(b, id, c, DropPosition(b, id, c, after, before, top)), id, c, k,
                  Close(b, after, before), listing);
  }

  /** Every task keeps all but its position, and tasks outside the list keep that too. */
  ghost predicate OnlyPositions(b: BoardState, n: BoardState, list: seq<Id>) {
    && n.tasks.Keys == b.tasks.Keys
    && (forall x: Id :: x in b.tasks ==> n.tasks[x] == b.tasks[x].(position := n.tasks[x].position))
    && (forall x: Id :: x in b.tasks && x !in list ==> n.tasks[x] == b.tasks[x])
  }

  lemma RenumberTouches(b: BoardState, moved: BoardState, id: Id, c: Column, listing: seq<Id>)
    requires Shown(moved, id, c) && OnlyTouches(b, moved, id, c) && IsListing(moved, c, listing)
    ensures Shown(Renumbered(moved, listing), id, c) && OnlyTouches(b, Renumbered(moved, listing), id, c)
  {
    hide Renumbered, OnlyTouches, Pos;
    forall x: Id | x in moved.tasks
      ensures Renumbered(moved, listing).tasks[x]
           == moved.tasks[x].(position := Renumbered(moved, listing).tasks[x].position)
           && (x !in listing ==> Renumbered(moved, listing).tasks[x] == moved.tasks[x])
    {
      RenumberedFrame(moved, listing, x);
    }
    PositionsTouch(b, moved, Renumbered(moved, listing), id, c, listing);
  }

  lemma PositionsTouch(b: BoardState, moved: BoardState, n: BoardState, id: Id, c: Column, listing: seq<Id>)
    requires Shown(moved, id, c) && OnlyTouches(b, moved, id, c) && OnlyPositions(moved, n, listing)
    requires forall x: Id :: x in listing ==> Shown(moved, x, c)
    ensures Shown(n, id, c) && OnlyTouches(b, n, id, c)
  {
    forall x: Id, d: Column ensures Shown(n, x, d) <==> Shown(moved, x, d) {
    }
    forall x: Id, d: Column | d != c && Shown(b, x, d) && x != id ensures Pos(n)(x) == Pos(b)(x) {
      assert Shown(moved, x, d) && x !in listing;
    }
  }

  function Family(b: BoardState, id: Id): set<Id> {
    set i | i in b.tasks && (i == id || b.tasks[i].parent == Some(id))
  }

  /** Removing a task takes it and its subtasks out of every column. */
  lemma RemoveRefines(b: BoardState, lists: Lists, id: Id)
    requires Refines(b, lists) && Remove(b, id).Ok?
    ensures Refines(Remove(b, id).value, (x: Column) => Without(lists(x), Family(b, id)))
  {
    var n := Remove(b, id).value;
    forall x: Column ensures Shows(n, x, Without(lists(x), Family(b, id))) {
      assert Shows(b, x, lists(x));
      ShowsWithout(b, n, x, lists(x), Family(b, id));
    }
  }

  // -------------------------------------------------------------------------
  // Runs
  // -------------------------------------------------------------------------

  /** top, listing and k are what the queries return and where the client saw the drop. */
  datatype Step =
    | DoCreate(id: Id, c: Column, parent: Option<Id>, top: int)
    | DoUpdate(id: Id, status: Option<Id>, version: int, top: int)
    | DoMove(id: Id, target: Id, after: Option<Id>, before: Option<Id>, version: int, top: int, listing: seq<Id>,
             k: nat)
    | DoRemove(id: Id)

  ghost function Apply(b: BoardState, s: Step): Result<BoardState, Error> {
    match s
    case DoCreate(id, c, parent, top) => if id in b.tasks then Err(BadRequest) else Create(b, id, c, parent, top)
    case DoUpdate(id, status, version, top) => Update(b, id, status, version, top)
    case DoMove(id, status, after, before, version, top, listing, _) =>
      Move(b, id, status, after, before, version, top, listing)
    case DoRemove(id) => Remove(b, id)
  }

  ghost function Next(b: BoardState, s: Step): BoardState {
    if Apply(b, s).Ok? then Apply(b, s).value else b
  }

  /** The queries answer for this board, and a drop names adjacent neighbours. */
  ghost predicate Fits(b: BoardState, lists: Lists, s: Step) {
    match s
    case DoCreate(id, c, _, top) => IsTop(b, c, None, top)
    case DoUpdate(id, status, _, top) =>
      id in b.tasks && status.Some? ==> IsTop(b, Column(b.tasks[id].column.project, status.value), None, top)
    case DoMove(id, status, after, before, _, top, listing, k) =>
      id in b.tasks ==>
        var c := Column(b.tasks[id].column.project, status);
        && Adjacent(Without(lists(c), {id}), after, before, k) && IsTop(b, c, Some(id), top)
        && (ValidNeighbour(b, id, c, after) && ValidNeighbour(b, id, c, before) && Close(b, after, before) ==>
              IsListing(Put(b, id, c, DropPosition(b, id, c, after, before, top)), c, listing))
    case DoRemove(_) => true
  }

  /** The same step on the plain lists. */
  ghost function ListsNext(b: BoardState, lists: Lists, s: Step): Lists {
    if Apply(b, s).Err? then lists
    else
      match s
      case DoCreate(id, c, _, _) => Moved(lists, id, c, |lists(c)|)
      case DoUpdate(id, status, _, _) =>
        if status.None? || status.value == b.tasks[id].column.status then lists
        else var c := Column(b.tasks[id].column.project, status.value); Moved(lists, id, c, |lists(c)|)
      case DoMove(id, status, _, _, _, _, _, k) => Moved(lists, id, Column(b.tasks[id].column.project, status), k)
      case DoRemove(id) => (x: Column) => Without(lists(x), Family(b, id))
  }

  ghost predicate AllFit(b: BoardState, lists: Lists, steps: seq<Step>)
    decreases |steps|
  {
    steps != [] ==> Fits(b, lists, steps[0]) && AllFit(Next(b, steps[0]), ListsNext(b, lists, steps[0]), steps[1..])
  }

  ghost function Run(b: BoardState, steps: seq<Step>): BoardState
    decreases |steps|
  {
    if steps == [] then b else Run(Next(b, steps[0]), steps[1..])
  }

  ghost function ListsRun(b: BoardState, lists: Lists, steps: seq<Step>): Lists
    decreases |steps|
  {
    if steps == [] then lists else ListsRun(Next(b, steps[0]), ListsNext(b, lists, steps[0]), steps[1..])
  }

  lemma NextRefines(b: BoardState, lists: Lists, s: Step)
    requires Refines(b, lists) && Fits(b, lists, s)
    ensures Refines(Next(b, s), ListsNext(b, lists, s))
  {
    hide Refines, Create, Update, Move, Remove, IsTop, IsListing, Moved, Without, Close, DropPosition;
    if Apply(b, s).Ok? {
      match s
      case DoCreate(id, c, parent, top) => CreateRefines(b, lists, id, c, parent, top);
      case DoUpdate(id, status, version, top) =>
        UpdateKnows(b, id, status, version, top);
        UpdateRefines(b, lists, id, status, version, top);
      case DoMove(id, status, after, before, version, top, listing, k) =>
        MoveKnows(b, id, status, after, before, version, top, listing);
        MoveRefines(b, lists, id, status, after, before, version, top, listing, k);
      case DoRemove(id) => RemoveRefines(b, lists, id);
    }
  }

  lemma UpdateKnows(b: BoardState, id: Id, status: Option<Id>, version: int, top: int)
    requires Update(b, id, status, version, top).Ok?
    ensures id in b.tasks
  {
  }

  lemma MoveKnows(b: BoardState, id: Id, status: Id, after: Option<Id>, before: Option<Id>, version: int, top: int,
                  listing: seq<Id>)
    requires Move(b, id, status, after, before, version, top, listing).Ok?
    ensures id in b.tasks
    ensures var c := Column(b.tasks[id].column.project, status);
            ValidNeighbour(b, id, c, after) && ValidNeighbour(b, id, c, before)
  {
  }

  /** Over any run, the positions show exactly the lists that the same operations make of the starting lists. */
  lemma {:induction false} RunRefines(b: BoardState, lists: Lists, steps: seq<Step>)
    requires Refines(b, lists) && AllFit(b, lists, steps)
    ensures Refines(Run(b, steps), ListsRun(b, lists, steps))
    decreases |steps|
  {
    if steps != [] {
      NextRefines(b, lists, steps[0]);
      hide Refines, Next, ListsNext, Fits;
      RunRefines(Next(b, steps[0]), ListsNext(b, lists, steps[0]), steps[1..]);
    }
  }

  // -------------------------------------------------------------------------
  // Task numbers
  // -------------------------------------------------------------------------

  /** Within a project no two tasks, deleted ones included, share a number, and the counter is ahead of them all. */
  ghost predicate Numbered(b: BoardState) {
    && (forall i :: i in b.tasks ==>
          b.tasks[i].column.project in b.nextNumber && b.tasks[i].number < b.nextNumber[b.tasks[i].column.project])
    && (forall i, j :: i in b.tasks && j in b.tasks && i != j &&
                       b.tasks[i].column.project == b.tasks[j].column.project ==>
          b.tasks[i].number != b.tasks[j].number)
  }

  lemma NextNumbered(b: BoardState, s: Step)
    requires Numbered(b)
    ensures Numbered(Next(b, s))
  {
    hide Move;
    if Apply(b, s).Ok? {
      match s
      case DoCreate(_, _, _, _) => hide Update, Remove; CreateNumbers(b, s);
      case DoUpdate(_, _, _, _) => hide Create, Remove;
      case DoMove(_, _, _, _, _, _, _, _) => hide Create, Update, Remove; MoveKeepsNumbers(b, s);
      case DoRemove(_) => hide Create, Update;
    }
  }

  lemma CreateNumbers(b: BoardState, s: Step)
    requires Numbered(b) && s.DoCreate? && Apply(b, s).Ok?
    ensures Numbered(Next(b, s))
  {
    var n := Next(b, s);
    assert forall i :: i in n.tasks ==> i == s.id || (i in b.tasks && n.tasks[i] == b.tasks[i]);
  }

  lemma MoveKeepsNumbers(b: BoardState, s: Step)
    requires Numbered(b) && s.DoMove? && Apply(b, s).Ok?
    ensures Numbered(Next(b, s))
  {
    MoveKnows(b, s.id, s.target, s.after, s.before, s.version, s.top, s.listing);
    var c := Column(b.tasks[s.id].column.project, s.target);
    var moved := Put(b, s.id, c, DropPosition(b, s.id, c, s.after, s.before, s.top));
    var n := Next(b, s);
    if Close(b, s.after, s.before) && IsListing(moved, c, s.listing) {
      RenumberedKeepsCounter(moved, s.listing);
      forall i | i in moved.tasks
        ensures n.tasks[i].number == moved.tasks[i].number && n.tasks[i].column == moved.tasks[i].column
      {
        RenumberedFrame(moved, s.listing, i);
      }
    }
  }

  lemma {:induction false} RenumberedKeepsCounter(b: BoardState, list: seq<Id>)
    requires forall y: Id :: y in list ==> y in b.tasks
    ensures Renumbered(b, list).nextNumber == b.nextNumber
  {
    if list != [] {
      RenumberedKeepsCounter(b, list[..|list| - 1]);
    }
  }

  lemma {:induction false} RunNumbered(b: BoardState, steps: seq<Step>)
    requires Numbered(b)
    ensures Numbered(Run(b, steps))
    decreases |steps|
  {
    if steps != [] {
      NextNumbered(b, steps[0]);
      hide Next, Numbered;
      RunNumbered(Next(b, steps[0]), steps[1..]);
    }
  }
}

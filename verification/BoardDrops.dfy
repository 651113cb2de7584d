/** Drops between any neighbours, next to each other or not: exactly when the column keeps an order, and which. */
module BoardDrops {
  import opened Wrappers
  import opened Board

  /** Position p keeps the least distance to every other task of the column. */
  ghost predicate Room(b: BoardState, id: Id, c: Column, p: int) {
    forall x: Id :: Shown(b, x, c) && x != id ==> Clear(Pos(b)(x), p)
  }

  predicate Clear(q: int, p: int) {
    q + MIN_GAP <= p || p + MIN_GAP <= q
  }

  /** How many tasks of an ordered list lie above position p. */
  function Place(pos: Id -> int, list: seq<Id>, p: int): (k: nat)
    ensures k <= |list|
  {
    if list == [] || pos(list[0]) >= p then 0 else 1 + Place(pos, list[1..], p)
  }

  lemma {:induction false} PlaceSplits(pos: Id -> int, list: seq<Id>, p: int)
    requires Gapped(pos, list, MIN_GAP)
    ensures forall j :: 0 <= j < |list| ==> (pos(list[j]) < p <==> j < Place(pos, list, p))
  {
    if list != [] && pos(list[0]) < p {
      PlaceSplits(pos, list[1..], p);
      assert forall j :: 0 < j < |list| ==> list[j] == list[1..][j - 1];
    }
  }

  /** Two tasks that one list shows are at least the least distance apart. */
  lemma GappedApart(pos: Id -> int, list: seq<Id>, x: Id, y: Id)
    requires Gapped(pos, list, MIN_GAP) && x in list && y in list && x != y
    ensures Clear(pos(x), pos(y))
  {
    var i :| 0 <= i < |list| && list[i] == x;
    var j :| 0 <= j < |list| && list[j] == y;
  }

  ghost predicate ShowsSomeLists(b: BoardState) {
    exists lists: Lists :: Refines(b, lists)
  }

  /** A task put too near another leaves the column without lists. */
  lemma RoomNeeded(b: BoardState, id: Id, c: Column, p: int)
    requires id in b.tasks && !b.tasks[id].deleted && ShowsSomeLists(Put(b, id, c, p))
    ensures Room(b, id, c, p)
  {
    var n := Put(b, id, c, p);
    PutTouches(b, id, c, p);
    var lists: Lists :| Refines(n, lists);
    assert Shows(n, c, lists(c));
    hide Put, Refines, Gapped, OnlyTouches;
    forall x: Id | Shown(b, x, c) && x != id ensures Clear(Pos(b)(x), p) {
      GappedApart(Pos(n), lists(c), x, id);
    }
  }

  /** Where there is room, the task joins the list at its place. */
  lemma RoomEnough(b: BoardState, lists: Lists, id: Id, c: Column, p: int)
    requires Refines(b, lists) && id in b.tasks && !b.tasks[id].deleted && Room(b, id, c, p)
    ensures Refines(Put(b, id, c, p), Moved(lists, id, c, Place(Pos(b), Without(lists(c), {id}), p)))
  {
    var rest := Without(lists(c), {id});
    var k := Place(Pos(b), rest, p);
    RestOfColumn(b, lists, c, id);
    PlaceSplits(Pos(b), rest, p);
    PutTouches(b, id, c, p);
    assert k > 0 ==> rest[k - 1] in rest && Clear(Pos(b)(rest[k - 1]), p);
    assert k < |rest| ==> rest[k] in rest && Clear(Pos(b)(rest[k]), p);
    hide Refines, Gapped, Without, InsertAt, Put, Pos, OnlyTouches, Placed, Room;
    InsertShows(b, Put(b, id, c, p), c, rest, k, id, MIN_GAP);
    PutRefines(b, lists, Put(b, id, c, p), id, c, k);
  }

  lemma OthersAsBefore(b: BoardState, lists: Lists, n: BoardState, id: Id, c: Column, listing: seq<Id>)
    requires Refines(b, lists) && Shown(n, id, c) && OnlyTouches(b, n, id, c) && Shows(n, c, listing)
    ensures ShowsSomeLists(n)
  {
    hide Gapped;
    var shown: Lists := (x: Column) => if x == c then listing else Without(lists(x), {id});
    forall x: Column ensures Shows(n, x, shown(x)) {
      if x != c {
        assert Shows(b, x, lists(x));
        ShowsWithout(b, n, x, lists(x), {id});
      }
    }
    assert Refines(n, shown);
  }

  /** Renumbering gives a column an order whatever the positions were. */
  lemma RenumberingEnough(b: BoardState, lists: Lists, id: Id, c: Column, p: int, listing: seq<Id>)
    requires Refines(b, lists) && id in b.tasks && !b.tasks[id].deleted && IsListing(Put(b, id, c, p), c, listing)
    ensures forall x: Id :: x in listing ==> x in Put(b, id, c, p).tasks
    ensures ShowsSomeLists(Renumbered(Put(b, id, c, p), listing))
  {
    var moved := Put(b, id, c, p);
    PutTouches(b, id, c, p);
    hide Put, Refines, Renumbered, OnlyTouches, ShowsSomeLists, Pos;
    RenumberTouches(b, moved, id, c, listing);
    RenumberedShown(moved, c, listing);
    RenumberedGapped(moved, listing);
    hide Gapped, IsListing;
    OthersAsBefore(b, lists, Renumbered(moved, listing), id, c, listing);
  }

  /** An accepted drop, wherever the client says, leaves a board that shows lists exactly when the column is renumbered
      or no other task of it lies within the least distance of the new position; and without renumbering the lists are
      the old ones with the task moved to the place of that position. */
  lemma DropExactly(b: BoardState, lists: Lists, id: Id, status: Id, after: Option<Id>, before: Option<Id>,
                    version: int, top: int, listing: seq<Id>)
    requires Refines(b, lists) && Move(b, id, status, after, before, version, top, listing).Ok?
    requires var c := Column(b.tasks[id].column.project, status);
             Close(b, after, before) ==>
               IsListing(Put(b, id, c, DropPosition(b, id, c, after, before, top)), c, listing)
    ensures var c := Column(b.tasks[id].column.project, status);
            var p, n := DropPosition(b, id, c, after, before, top),
                        Move(b, id, status, after, before, version, top, listing).value;
            && (ShowsSomeLists(n) <==> Close(b, after, before) || Room(b, id, c, p))
            && (!Close(b, after, before) && Room(b, id, c, p) ==>
                  Refines(n, Moved(lists, id, c, Place(Pos(b), Without(lists(c), {id}), p))))
  {
    hide Refines, DropPosition, Put, Room, Renumbered, IsListing, Place, Pos, Moved, ShowsSomeLists;
    var c := Column(b.tasks[id].column.project, status);
    var p, n := DropPosition(b, id, c, after, before, top),
                Move(b, id, status, after, before, version, top, listing).value;
    if Close(b, after, before) {
      RenumberingEnough(b, lists, id, c, p, listing);
    } else {
      if ShowsSomeLists(n) { RoomNeeded(b, id, c, p); }
      if Room(b, id, c, p) {
        RoomEnough(b, lists, id, c, p);
        Witnessed(n, Moved(lists, id, c, Place(Pos(b), Without(lists(c), {id}), p)));
      }
    }
  }

  lemma Witnessed(b: BoardState, lists: Lists)
    requires Refines(b, lists)
    ensures ShowsSomeLists(b)
  {
  }

  /** A drop that names only the upper neighbour shows lists exactly when no other task of the column lies within the
      least distance of one step below it; and then the task lands right below that neighbour exactly when no other
      task lies on the way. */
  lemma DropAfterOnly(b: BoardState, lists: Lists, id: Id, status: Id, after: Id, version: int, top: int,
                      listing: seq<Id>)
    requires Refines(b, lists) && Move(b, id, status, Some(after), None, version, top, listing).Ok?
    ensures after in b.tasks
    ensures var c := Column(b.tasks[id].column.project, status);
            var p, n := Pos(b)(after) + STEP, Move(b, id, status, Some(after), None, version, top, listing).value;
            var rest := Without(lists(c), {id});
            var k := Place(Pos(b), rest, p);
            && (ShowsSomeLists(n) <==> Room(b, id, c, p))
            && (Room(b, id, c, p) ==> Refines(n, Moved(lists, id, c, k)) && k > 0)
            && (Room(b, id, c, p) ==> (rest[k - 1] == after <==> !OnTheWay(b, id, c, Pos(b)(after), p)))
  {
    hide Refines, Room, ShowsSomeLists, Moved, Without, Place, OnTheWay, Renumbered, IsListing, Put;
    var c := Column(b.tasks[id].column.project, status);
    assert Shown(b, after, c) && after != id;
    DropExactly(b, lists, id, status, Some(after), None, version, top, listing);
    hide Move;
    BelowAfter(b, lists, id, c, after);
  }

  /** Some other task of the column lies between the two positions. */
  ghost predicate OnTheWay(b: BoardState, id: Id, c: Column, from: int, to: int) {
    exists x: Id :: Shown(b, x, c) && x != id && from < Pos(b)(x) < to
  }

  lemma BelowAfter(b: BoardState, lists: Lists, id: Id, c: Column, after: Id)
    requires Refines(b, lists) && Shown(b, after, c) && after != id
    ensures var rest := Without(lists(c), {id});
            var k := Place(Pos(b), rest, Pos(b)(after) + STEP);
            k > 0 && (rest[k - 1] == after <==> !OnTheWay(b, id, c, Pos(b)(after), Pos(b)(after) + STEP))
  {
    hide Refines, Without, Place, Pos, Shown, OnTheWay, OnTheWayIn, Gapped;
    var rest, from := Without(lists(c), {id}), Pos(b)(after);
    RestOfColumn(b, lists, c, id);
    assert after in rest;
    OnTheWayListed(b, id, c, rest, from, from + STEP);
    var i :| 0 <= i < |rest| && rest[i] == after;
    PlaceBelow(Pos(b), rest, i);
    NextOnTheWay(Pos(b), rest, i);
  }

  ghost predicate OnTheWayIn(pos: Id -> int, list: seq<Id>, from: int, to: int) {
    exists x: Id :: x in list && from < pos(x) < to
  }

  lemma OnTheWayListed(b: BoardState, id: Id, c: Column, list: seq<Id>, from: int, to: int)
    requires forall x: Id :: x in list <==> Shown(b, x, c) && x != id
    ensures OnTheWay(b, id, c, from, to) <==> OnTheWayIn(Pos(b), list, from, to)
  {
    hide Pos, Shown;
    if OnTheWay(b, id, c, from, to) {
      var x: Id :| Shown(b, x, c) && x != id && from < Pos(b)(x) < to;
      assert x in list;
    }
    if OnTheWayIn(Pos(b), list, from, to) {
      var x: Id :| x in list && from < Pos(b)(x) < to;
      assert Shown(b, x, c);
    }
  }

  lemma PlaceBelow(pos: Id -> int, list: seq<Id>, i: nat)
    requires Gapped(pos, list, MIN_GAP) && i < |list|
    ensures var k := Place(pos, list, pos(list[i]) + STEP);
            i < k && (list[k - 1] == list[i] <==> k == i + 1)
            && (k == i + 1 <==> i + 1 == |list| || pos(list[i + 1]) >= pos(list[i]) + STEP)
  {
    PlaceSplits(pos, list, pos(list[i]) + STEP);
  }

  lemma NextOnTheWay(pos: Id -> int, list: seq<Id>, i: nat)
    requires Gapped(pos, list, MIN_GAP) && i < |list|
    ensures OnTheWayIn(pos, list, pos(list[i]), pos(list[i]) + STEP) <==>
            i + 1 < |list| && pos(list[i + 1]) < pos(list[i]) + STEP
  {
    if x: Id :| x in list && pos(list[i]) < pos(x) < pos(list[i]) + STEP {
      var j :| 0 <= j < |list| && list[j] == x;
      assert i < j;
      assert i + 1 < j ==> pos(list[i + 1]) < pos(list[j]);
    }
    if i + 1 < |list| && pos(list[i + 1]) < pos(list[i]) + STEP {
      assert list[i + 1] in list && pos(list[i]) < pos(list[i + 1]);
    }
  }
}

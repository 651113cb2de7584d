/** The triggers on journal entries and their lines, as the transactions' own statements meet them. */
module Triggers {
  import opened Wrappers
  import opened Ledger
  import opened LedgerInvariants

  /** One statement of a transaction: an entry is inserted without lines, and its lines are replaced separately. */
  datatype Write =
    | InsertEntry(id: Id, entry: Entry)
    | UpdateEntry(id: Id, entry: Entry)
    | DeleteEntry(id: Id)
    | ReplaceLines(id: Id, lines: seq<Line>)

  /** A posted entry can become reversed, with the link to its reversal and everything else as it was. */
  predicate MayReverse(e: Entry, f: Entry) {
    && e.status == Posted && f.status == Reversed && f.reversedBy.Some?
    && f.number == e.number && f.date == e.date && f.total == e.total
  }

  /** What the triggers let through. */
  predicate Accepted(entries: map<Id, Entry>, w: Write) {
    match w
    case InsertEntry(id, e) => id !in entries && !IsPosted(e)
    case UpdateEntry(id, f) =>
      id in entries &&
      if IsPosted(entries[id]) then MayReverse(entries[id], f)
      else f.status == Posted ==> PostGuard(f.lines) && f.number.Some?
    case DeleteEntry(id) => id in entries && !IsPosted(entries[id])
    case ReplaceLines(id, _) => id in entries && !IsPosted(entries[id])
  }

  /** The rows after the statement; posting sets the total from the lines. */
  function Written(entries: map<Id, Entry>, w: Write): map<Id, Entry>
    requires Accepted(entries, w)
  {
    match w
    case InsertEntry(id, e) => entries[id := e]
    case UpdateEntry(id, f) =>
      var posts := !IsPosted(entries[id]) && f.status == Posted;
      entries[id := if posts then f.(total := Total(f.lines, true)) else f]
    case DeleteEntry(id) => entries - {id}
    case ReplaceLines(id, lines) => entries[id := entries[id].(lines := lines)]
  }

  /** None once a trigger has refused a statement. */
  function Do(entries: Option<map<Id, Entry>>, w: Write): Option<map<Id, Entry>> {
    if entries.Some? && Accepted(entries.value, w) then Some(Written(entries.value, w)) else None
  }

  function Inserted(entries: Option<map<Id, Entry>>, id: Id, e: Entry): Option<map<Id, Entry>> {
    Do(Do(entries, InsertEntry(id, e.(lines := []))), ReplaceLines(id, e.lines))
  }

  function DoPosting(b: Books, entries: Option<map<Id, Entry>>, id: Id, e: Entry, actor: Option<Id>)
    : Option<map<Id, Entry>>
  {
    var approver := if e.approvedBy.Some? then e.approvedBy else actor;
    var posted := e.(status := Posted, number := Some(b.nextNumber), approvedBy := approver, version := e.version + 1);
    Do(entries, UpdateEntry(id, posted))
  }

  /** The statements on journal entries that a transaction makes when it goes through, in their order. */
  function Statements(b: Books, s: Step): Option<map<Id, Entry>>
    requires Apply(b, s).Ok?
  {
    var start := Some(b.entries);
    match s
    case DoCreateEntry(actor, date, lines) =>
      Inserted(start, b.nextEntry,
               Entry(None, date, Manual, Draft, Total(lines, true), actor, None, lines, None, None, 1))
    case DoUpdateEntry(id, date, lines, _) =>
      var e := b.entries[id];
      var f := e.(date := date, total := Total(lines, true), status := Draft, version := e.version + 1);
      Do(Do(start, UpdateEntry(id, f)), ReplaceLines(id, lines))
    case DoDeleteEntry(id) => Do(start, DeleteEntry(id))
    case DoSubmit(id) =>
      var e := b.entries[id];
      Do(start, UpdateEntry(id, e.(status := Pending, version := e.version + 1)))
    case DoApprove(id, actor) =>
      var e := b.entries[id];
      Do(start, UpdateEntry(id, e.(status := Approved, approvedBy := actor, version := e.version + 1)))
    case DoPost(id, actor) => DoPosting(b, start, id, b.entries[id], actor)
    case DoReverse(id, date, actor) => DoReversal(b, id, date, actor)
    case DoCreateRow(actor, _, input, postNow) => DoNewRow(b, actor, input, postNow)
    case DoUpdateRow(rid, input, _) =>
      var id := b.rows[rid].journal.value;
      var e := b.entries[id];
      Do(Do(start, UpdateEntry(id, e.(date := input.date, total := input.amount, version := e.version + 1))),
         ReplaceLines(id, LinesOfRow(input)))
    case DoVoidRow(rid) =>
      var row := b.rows[rid];
      if row.status != RowVoid && row.journal.Some? && row.journal.value in b.entries
        && !IsPosted(b.entries[row.journal.value])
      then Do(start, DeleteEntry(row.journal.value)) else start
    case _ => start
  }

  /** The mirror is inserted approved, gets its lines, and is posted; then the original is marked. */
  function DoReversal(b: Books, id: Id, date: int, actor: Option<Id>): Option<map<Id, Entry>>
    requires id in b.entries
  {
    var e := b.entries[id];
    var mirror := Entry(None, date, Reversal, Approved, e.total, actor, actor, Mirrored(e.lines), Some(id), None, 1);
    var posted := mirror.(status := Posted, number := Some(b.nextNumber));
    Do(Do(Inserted(Some(b.entries), b.nextEntry, mirror), UpdateEntry(b.nextEntry, posted)),
       UpdateEntry(id, e.(status := Reversed, reversedBy := Some(b.nextEntry), version := e.version + 1)))
  }

  function DoNewRow(b: Books, actor: Option<Id>, input: RowInput, postNow: bool): Option<map<Id, Entry>> {
    var e := Entry(None, input.date, FromDaybook, Pending, input.amount, actor, None, LinesOfRow(input), None, None, 1);
    var created := Inserted(Some(b.entries), b.nextEntry, e);
    if !postNow then created
    else
      var approved := e.(status := Approved, approvedBy := actor);
      DoPosting(b, Do(created, UpdateEntry(b.nextEntry, approved)), b.nextEntry, approved, actor)
  }

  // -------------------------------------------------------------------------
  // The triggers never refuse
  // -------------------------------------------------------------------------

  lemma InsertedIs(entries: map<Id, Entry>, id: Id, e: Entry)
    requires id !in entries && !IsPosted(e)
    ensures Inserted(Some(entries), id, e) == Some(entries[id := e])
  {
    assert entries[id := e.(lines := [])][id := e] == entries[id := e];
    assert e.(lines := []).(lines := e.lines) == e;
  }

  lemma ReversalAccepted(b: Books, id: Id, date: int, actor: Option<Id>)
    requires Inv(b) && Reverse(b, id, date, actor).Ok?
    ensures id in b.entries && DoReversal(b, id, date, actor) == Some(Reverse(b, id, date, actor).value.entries)
  {
    NothingAhead(b);
    assert EntryOk(b, id);
    var e := b.entries[id];
    BalancedPassesGuard(b.accounts, e.lines);
    hide Inv, EntryOk, Total, Mirrored, PostGuard, MarkRows;
    var m, c := b.nextEntry, Reverse(b, id, date, actor).value;
    var mirror := Entry(None, date, Reversal, Approved, e.total, actor, actor, Mirrored(e.lines), Some(id), None, 1);
    InsertedIs(b.entries, m, mirror);
    hide Inserted;
    var one := b.entries[m := mirror];
    var posted := UpdateEntry(m, mirror.(status := Posted, number := Some(b.nextNumber)));
    assert Accepted(one, posted) && Written(one, posted) == one[m := c.entries[m]];
    var two := one[m := c.entries[m]];
    assert Accepted(two, UpdateEntry(id, c.entries[id])) && two[id := c.entries[id]] == c.entries;
  }

  lemma PostingAccepted(b: Books, id: Id, actor: Option<Id>)
    requires Post(b, id, actor).Ok?
    ensures id in b.entries
    ensures DoPosting(b, Some(b.entries), id, b.entries[id], actor) == Some(Post(b, id, actor).value.entries)
  {
    hide ValidateLines, PostGuard, Total, MarkRows;
  }

  lemma NewRowAccepted(b: Books, actor: Option<Id>, mayApprove: bool, input: RowInput, postNow: bool)
    requires Inv(b) && CreateRow(b, actor, mayApprove, input, postNow).Ok?
    ensures DoNewRow(b, actor, input, postNow) == Some(CreateRow(b, actor, mayApprove, input, postNow).value.entries)
  {
    NothingAhead(b);
    CreateRowIs(b, actor, mayApprove, input, postNow);
    hide Inv, LinesOfRow, Post, CreateRow, DoPosting, PostGuard, Total;
    var e := Entry(None, input.date, FromDaybook, Pending, input.amount, actor, None, LinesOfRow(input), None, None, 1);
    InsertedIs(b.entries, b.nextEntry, e);
    hide Inserted;
    if postNow {
      var d, id := InsertedRow(b, actor, input, LinesOfRow(input)), b.nextEntry;
      var approved := d.(entries := d.entries[id := d.entries[id].(status := Approved, approvedBy := actor)]);
      assert approved.nextNumber == b.nextNumber;
      PostingAccepted(approved, id, actor);
      SameNumber(b, approved, Some(approved.entries), id, approved.entries[id], actor);
    }
  }

  lemma SameNumber(b: Books, c: Books, entries: Option<map<Id, Entry>>, id: Id, e: Entry, actor: Option<Id>)
    requires b.nextNumber == c.nextNumber
    ensures DoPosting(b, entries, id, e, actor) == DoPosting(c, entries, id, e, actor)
  {
  }

  lemma CreateAccepted(b: Books, s: Step)
    requires Inv(b) && s.DoCreateEntry? && Apply(b, s).Ok?
    ensures Statements(b, s) == Some(Next(b, s).entries)
  {
    NothingAhead(b);
    ValidatedLines(b.accounts, s.lines);
    hide Inv, ValidateLines, Total;
    var e := Entry(None, s.date, Manual, Draft, Total(s.lines, true), s.actor, None, s.lines, None, None, 1);
    InsertedIs(b.entries, b.nextEntry, e);
    hide Inserted;
    assert Next(b, s).entries == b.entries[b.nextEntry := e];
  }

  lemma UpdateAccepted(b: Books, s: Step)
    requires s.DoUpdateEntry? && Apply(b, s).Ok?
    ensures Statements(b, s) == Some(Next(b, s).entries)
  {
    ValidatedLines(b.accounts, s.lines);
    hide ValidateLines, Total, PostGuard;
    var e := b.entries[s.id];
    var f := e.(date := s.date, total := Total(s.lines, true), status := Draft, version := e.version + 1);
    assert Accepted(b.entries, UpdateEntry(s.id, f));
    assert Written(b.entries, UpdateEntry(s.id, f)) == b.entries[s.id := f];
    assert b.entries[s.id := f][s.id := f.(lines := s.lines)] == Next(b, s).entries;
  }

  lemma StatusAccepted(b: Books, s: Step)
    requires (s.DoDeleteEntry? || s.DoSubmit? || s.DoApprove?) && Apply(b, s).Ok?
    ensures Statements(b, s) == Some(Next(b, s).entries)
  {
    hide PostGuard;
  }

  lemma RowUpdateAccepted(b: Books, s: Step)
    requires s.DoUpdateRow? && Apply(b, s).Ok?
    ensures Statements(b, s) == Some(Next(b, s).entries)
  {
    hide PostGuard, LinesOfRow, Total;
    var id := b.rows[s.rid].journal.value;
    var e := b.entries[id];
    var f := e.(date := s.input.date, total := s.input.amount, version := e.version + 1);
    assert Accepted(b.entries, UpdateEntry(id, f)) && Written(b.entries, UpdateEntry(id, f)) == b.entries[id := f];
    assert b.entries[id := f][id := f.(lines := LinesOfRow(s.input))] == Next(b, s).entries;
  }

  lemma RowVoidAccepted(b: Books, s: Step)
    requires s.DoVoidRow? && Apply(b, s).Ok?
    ensures Statements(b, s) == Some(Next(b, s).entries)
  {
  }

  /** In a reachable state every statement of every transaction passes the triggers, the marking of a reversed entry
      included, and together the statements write the transaction's entries. */
  lemma TriggersNeverRefuse(b: Books, s: Step)
    requires Inv(b) && Apply(b, s).Ok?
    ensures Statements(b, s) == Some(Next(b, s).entries)
  {
    hide Inv, CreateEntry, Post, Reverse, CreateRow, Do, DoPosting, DoReversal, DoNewRow, Inserted;
    match s
    case DoCreateEntry(_, _, _) => CreateAccepted(b, s);
    case DoUpdateEntry(_, _, _, _) => UpdateAccepted(b, s);
    case DoDeleteEntry(_) => StatusAccepted(b, s);
    case DoSubmit(_) => StatusAccepted(b, s);
    case DoApprove(_, _) => StatusAccepted(b, s);
    case DoPost(id, actor) => PostingAccepted(b, id, actor);
    case DoReverse(id, date, actor) => ReversalAccepted(b, id, date, actor);
    case DoCreateRow(actor, mayApprove, input, postNow) => NewRowAccepted(b, actor, mayApprove, input, postNow);
    case DoUpdateRow(_, _, _) => RowUpdateAccepted(b, s);
    case DoVoidRow(_) => RowVoidAccepted(b, s);
    case _ =>
  }
}

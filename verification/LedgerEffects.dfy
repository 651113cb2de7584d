/** What a transaction does to the rows it is about, told in dates, amounts and versions, and that it does nothing to
    others. */
module LedgerEffects {
  import opened Wrappers
  import opened Ledger
  import opened LedgerInvariants
  import opened Reports
  import opened Postings

  // -------------------------------------------------------------------------
  // What a daybook row means for its two accounts
  // -------------------------------------------------------------------------

  /** Debit minus credit on one account. */
  function Net(lines: seq<Line>, account: Id): int {
    LineSum(lines, account, true) - LineSum(lines, account, false)
  }

  /** Money coming in raises the money account and is credited to the other one; money going out, and a transfer, the
      other way round. */
  function RowNet(input: RowInput, account: Id): int {
    var inflow := if input.kind == MoneyIn then input.amount else -input.amount;
    (if account == input.money then inflow else 0) + (if account == input.counter then -inflow else 0)
  }

  lemma TwoLinesNet(a: Line, b: Line, account: Id)
    ensures Net([a, b], account) ==
            (if a.account == account then a.debit - a.credit else 0) +
            (if b.account == account then b.debit - b.credit else 0)
  {
    assert [a, b][1..] == [b] && [b][1..] == [];
    OneLineSum(b, account, true);
    OneLineSum(b, account, false);
  }

  lemma OneLineSum(l: Line, account: Id, debit: bool)
    ensures LineSum([l], account, debit) == if l.account == account then Amount(l, debit) else 0
  {
    assert LineSum([l][1..], account, debit) == 0;
  }

  ghost predicate BooksRow(e: Entry, input: RowInput) {
    && e.source == FromDaybook && e.date == input.date && e.total == input.amount
    && forall account :: Net(e.lines, account) == RowNet(input, account)
  }

  /** In a consistent state every live row's entry books the row. */
  lemma RowsAreBooked(b: Books, rid: Id)
    requires Inv(b) && rid in b.rows && b.rows[rid].journal.Some?
    ensures b.rows[rid].journal.value in b.entries
    ensures BooksRow(b.entries[b.rows[rid].journal.value], b.rows[rid].input)
  {
    hide EntryOk, Gapless, LinkedOnce, Net, LinesOfRow, RowNet;
    assert RowOk(b, rid);
    forall account ensures Net(LinesOfRow(b.rows[rid].input), account) == RowNet(b.rows[rid].input, account) {
      LinesOfRowNet(b.rows[rid].input, account);
    }
  }

  lemma LinesOfRowNet(input: RowInput, account: Id)
    ensures Net(LinesOfRow(input), account) == RowNet(input, account)
  {
    hide Net;
    TwoLinesNet(Line(input.money, input.amount, 0), Line(input.counter, 0, input.amount), account);
    TwoLinesNet(Line(input.counter, input.amount, 0), Line(input.money, 0, input.amount), account);
  }

  lemma RowEntryIs(e: Entry, input: RowInput)
    requires e.source == FromDaybook && e.date == input.date && e.total == input.amount && e.lines == LinesOfRow(input)
    ensures BooksRow(e, input)
  {
    hide Net, LinesOfRow, RowNet;
    forall account ensures Net(e.lines, account) == RowNet(input, account) {
      LinesOfRowNet(input, account);
    }
  }

  /** All other entries and rows are as they were. */
  ghost predicate OnlyTouches(b: Books, c: Books, entry: Id, row: Id) {
    && (forall i :: i != entry ==>
          (i in c.entries <==> i in b.entries) && (i in b.entries ==> c.entries[i] == b.entries[i]))
    && (forall r :: r != row ==> (r in c.rows <==> r in b.rows) && (r in b.rows ==> c.rows[r] == b.rows[r]))
    && c.accounts == b.accounts && c.settings == b.settings
  }

  /** A new row comes with a new entry of its author that books it: pending, or posted at once. */
  lemma RowCreated(b: Books, actor: Option<Id>, mayApprove: bool, input: RowInput, postNow: bool)
    requires Inv(b) && CreateRow(b, actor, mayApprove, input, postNow).Ok?
    ensures var c, id, rid := CreateRow(b, actor, mayApprove, input, postNow).value, b.nextEntry, b.nextRow;
            && id !in b.entries && rid !in b.rows && id in c.entries && rid in c.rows
            && c.rows[rid] == Row(input, if postNow then RowPosted else RowPending, Some(id), 1)
            && BooksRow(c.entries[id], input) && c.entries[id].createdBy == actor
            && c.entries[id].status == (if postNow then Posted else Pending)
            && OnlyTouches(b, c, id, rid)
  {
    hide Inv, LinesFor, CreateRow, LinesOfRow, BooksRow, Post, OnlyTouches, InsertedRow;
    NothingAhead(b);
    CreateRowIs(b, actor, mayApprove, input, postNow);
    RowInserted(b, actor, input);
    if postNow {
      RowPostedAtOnce(b, actor, input);
    }
  }

  lemma RowInserted(b: Books, actor: Option<Id>, input: RowInput)
    requires b.nextEntry !in b.entries && b.nextRow !in b.rows
    ensures var c, id, rid := InsertedRow(b, actor, input, LinesOfRow(input)), b.nextEntry, b.nextRow;
            && id in c.entries && rid in c.rows && c.rows[rid] == Row(input, RowPending, Some(id), 1)
            && BooksRow(c.entries[id], input) && c.entries[id].createdBy == actor && c.entries[id].status == Pending
            && OnlyTouches(b, c, id, rid)
  {
    hide LinesOfRow, BooksRow;
    RowEntryIs(InsertedRow(b, actor, input, LinesOfRow(input)).entries[b.nextEntry], input);
  }

  lemma RowPostedAtOnce(b: Books, actor: Option<Id>, input: RowInput)
    requires Inv(b)
    requires var d, id := InsertedRow(b, actor, input, LinesOfRow(input)), b.nextEntry;
             Post(d.(entries := d.entries[id := d.entries[id].(status := Approved, approvedBy := actor)]),
                  id, actor).Ok?
    ensures var d, id, rid := InsertedRow(b, actor, input, LinesOfRow(input)), b.nextEntry, b.nextRow;
            var c := Post(d.(entries := d.entries[id := d.entries[id].(status := Approved, approvedBy := actor)]),
                          id, actor).value;
            && id in c.entries && rid in c.rows && c.rows[rid] == Row(input, RowPosted, Some(id), 1)
            && BooksRow(c.entries[id], input) && c.entries[id].createdBy == actor && c.entries[id].status == Posted
            && OnlyTouches(b, c, id, rid)
  {
    hide Inv, LinesOfRow, BooksRow, Post;
    var d, id := InsertedRow(b, actor, input, LinesOfRow(input)), b.nextEntry;
    var approved := d.(entries := d.entries[id := d.entries[id].(status := Approved, approvedBy := actor)]);
    NothingAhead(b);
    NoOtherRow(b, id);
    PostTouches(approved, id, actor);
    TotalOfRow(input);
    hide Total;
    RowEntryIs(Post(approved, id, actor).value.entries[id], input);
  }

  lemma NoOtherRow(b: Books, id: Id)
    requires Inv(b) && id !in b.entries
    ensures forall r :: r in b.rows ==> b.rows[r].journal != Some(id)
  {
    forall r | r in b.rows ensures b.rows[r].journal != Some(id) {
      assert RowOk(b, r);
    }
  }

  /** Posting gives the entry the next number and an approver, marks its row, and does nothing else to either; other
      entries and rows stay as they are. */
  lemma PostTouches(b: Books, id: Id, actor: Option<Id>)
    requires Post(b, id, actor).Ok?
    ensures var c := Post(b, id, actor).value;
            && id in b.entries && id in c.entries
            && c.entries[id] == b.entries[id].(status := Posted, number := Some(b.nextNumber),
                                               total := Total(b.entries[id].lines, true),
                                               approvedBy := c.entries[id].approvedBy,
                                               version := b.entries[id].version + 1)
            && (b.entries[id].approvedBy.Some? ==> c.entries[id].approvedBy == b.entries[id].approvedBy)
            && (b.entries[id].approvedBy.None? ==> c.entries[id].approvedBy == actor)
            && c.rows.Keys == b.rows.Keys && c.nextNumber == b.nextNumber + 1
            && (forall r :: r in b.rows ==>
                  c.rows[r] == if b.rows[r].journal == Some(id) then b.rows[r].(status := RowPosted) else b.rows[r])
            && (forall i :: i != id ==>
                  (i in c.entries <==> i in b.entries) && (i in b.entries ==> c.entries[i] == b.entries[i]))
            && c.accounts == b.accounts && c.settings == b.settings
  {
    hide ValidateLines, PostGuard, Total;
  }

  /** An accepted change of a row is in the row and in its entry, both at their next versions. */
  lemma RowUpdated(b: Books, rid: Id, input: RowInput, version: int)
    requires Inv(b) && UpdateRow(b, rid, input, version).Ok?
    ensures var c := UpdateRow(b, rid, input, version).value;
            && rid in b.rows && b.rows[rid].journal.Some? && b.rows[rid].version == version && rid in c.rows
            && c.rows[rid] == Row(input, RowPending, b.rows[rid].journal, version + 1)
            && var id := b.rows[rid].journal.value;
               && id in b.entries && id in c.entries && BooksRow(c.entries[id], input)
               && c.entries[id].status == b.entries[id].status && c.entries[id].createdBy == b.entries[id].createdBy
               && c.entries[id].version == b.entries[id].version + 1
               && OnlyTouches(b, c, id, rid)
  {
    hide EntryOk, Gapless, LinkedOnce, LinesOfRow, BooksRow;
    assert rid in b.rows && RowOk(b, rid);
    hide RowOk, Inv;
    var c := UpdateRow(b, rid, input, version).value;
    RowEntryIs(c.entries[b.rows[rid].journal.value], input);
  }

  /** By how much an account's balance, debit minus credit, over a period differs between two states. */
  function NetChange(b: Books, c: Books, account: Id, range: Range): int {
    (AccountSum(c, account, range, true) - AccountSum(c, account, range, false)) -
    (AccountSum(b, account, range, true) - AccountSum(b, account, range, false))
  }

  /** A row posted at once moves its two accounts by its amount, and no other; a pending one moves nothing. */
  lemma CreatedRowMoves(b: Books, actor: Option<Id>, mayApprove: bool, input: RowInput, postNow: bool, account: Id,
                        range: Range)
    requires Inv(b) && CreateRow(b, actor, mayApprove, input, postNow).Ok?
    ensures NetChange(b, CreateRow(b, actor, mayApprove, input, postNow).value, account, range) ==
            if postNow && InRange(input.date, range) then RowNet(input, account) else 0
  {
    hide Inv, AccountSum, CreateRow, LinesOfRow, LineSum, RowNet;
    CreateRowMovesTotals(b, actor, mayApprove, input, postNow, account, range, true);
    CreateRowMovesTotals(b, actor, mayApprove, input, postNow, account, range, false);
    LinesOfRowNet(input, account);
  }

  /** A change of a pending row moves nothing. */
  lemma UpdatedRowMoves(b: Books, rid: Id, input: RowInput, version: int, account: Id, range: Range)
    requires Inv(b) && UpdateRow(b, rid, input, version).Ok?
    ensures NetChange(b, UpdateRow(b, rid, input, version).value, account, range) == 0
  {
    hide Inv, AccountSum, UpdateRow;
    var s := DoUpdateRow(rid, input, version);
    NextMovesTotals(b, s, account, range, true);
    NextMovesTotals(b, s, account, range, false);
  }

  /** The entry of a row, posted later, moves the accounts as the row says at that time, at the row's date. */
  lemma PostedRowMoves(b: Books, rid: Id, actor: Option<Id>, account: Id, range: Range)
    requires Inv(b) && rid in b.rows && b.rows[rid].journal.Some? && Post(b, b.rows[rid].journal.value, actor).Ok?
    ensures var c := Post(b, b.rows[rid].journal.value, actor).value;
            && rid in c.rows && c.rows[rid] == b.rows[rid].(status := RowPosted)
            && NetChange(b, c, account, range) ==
               if InRange(b.rows[rid].input.date, range) then RowNet(b.rows[rid].input, account) else 0
  {
    var id := b.rows[rid].journal.value;
    hide Inv, AccountSum, Post, LineSum, RowNet;
    RowsAreBooked(b, rid);
    PostTouches(b, id, actor);
    PostMovesTotals(b, id, actor, account, range, true);
    PostMovesTotals(b, id, actor, account, range, false);
    assert Net(b.entries[id].lines, account) == RowNet(b.rows[rid].input, account);
  }

  // -------------------------------------------------------------------------
  // Journal entries
  // -------------------------------------------------------------------------

  /** All rows, numbers and accounts, and all other entries, are as they were. */
  ghost predicate OnlyEntry(b: Books, c: Books, id: Id) {
    && c.rows == b.rows && c.nextRow == b.nextRow && c.nextNumber == b.nextNumber
    && c.accounts == b.accounts && c.settings == b.settings
    && (forall i :: i != id ==>
          (i in c.entries <==> i in b.entries) && (i in b.entries ==> c.entries[i] == b.entries[i]))
  }

  /** A new entry is a draft of its author with the given date and lines. */
  lemma EntryCreated(b: Books, actor: Option<Id>, date: int, lines: seq<Line>)
    requires Inv(b) && CreateEntry(b, actor, date, lines, Manual, Draft).Ok?
    ensures var c, id := CreateEntry(b, actor, date, lines, Manual, Draft).value, b.nextEntry;
            && id !in b.entries && c.nextEntry == id + 1 && OnlyEntry(b, c, id)
            && id in c.entries
            && c.entries[id] == Entry(None, date, Manual, Draft, Total(lines, true), actor, None, lines, None, None, 1)
  {
    hide ValidateLines, Total, Inv;
    NothingAhead(b);
    ValidatedLines(b.accounts, lines);
  }

  /** A changed entry has the given date and lines, is a draft again, and is at its next version. */
  lemma EntryUpdated(b: Books, id: Id, date: int, lines: seq<Line>, version: int)
    requires UpdateEntry(b, id, date, lines, version).Ok?
    ensures var c := UpdateEntry(b, id, date, lines, version).value;
            && id in b.entries && b.entries[id].version == version && OnlyEntry(b, c, id) && c.nextEntry == b.nextEntry
            && id in c.entries
            && c.entries[id] == b.entries[id].(date := date, lines := lines, total := Total(lines, true),
                                               status := Draft, version := version + 1)
  {
    hide ValidateLines, Total;
    ValidatedLines(b.accounts, lines);
  }

  /** Submitting asks for approval; approving records who approved, whoever that is; deleting takes the entry away. None
      changes anything else. */
  lemma StatusSteps(b: Books, id: Id, actor: Option<Id>)
    ensures Submit(b, id).Ok? ==>
              && OnlyEntry(b, Submit(b, id).value, id) && id in b.entries && id in Submit(b, id).value.entries
              && Submit(b, id).value.entries[id] ==
                 b.entries[id].(status := Pending, version := b.entries[id].version + 1)
    ensures Approve(b, id, actor).Ok? ==>
              && OnlyEntry(b, Approve(b, id, actor).value, id) && id in b.entries
              && id in Approve(b, id, actor).value.entries
              && Approve(b, id, actor).value.entries[id] ==
                 b.entries[id].(status := Approved, approvedBy := actor, version := b.entries[id].version + 1)
    ensures DeleteEntry(b, id).Ok? ==>
              OnlyEntry(b, DeleteEntry(b, id).value, id) && id in b.entries && id !in DeleteEntry(b, id).value.entries
  {
  }

  /** Reversing leaves the entry as it was but for its status and its link, and adds its mirror: posted at the given
      date under the next number, every line with its sides exchanged. The rows of the entry become void. */
  lemma ReverseTouches(b: Books, id: Id, date: int, actor: Option<Id>)
    requires Inv(b) && Reverse(b, id, date, actor).Ok?
    ensures var c, m := Reverse(b, id, date, actor).value, b.nextEntry;
            && id in b.entries && m !in b.entries && id in c.entries && m in c.entries
            && c.entries[id] == b.entries[id].(status := Reversed, reversedBy := Some(m),
                                               version := b.entries[id].version + 1)
            && c.entries[m].date == date && c.entries[m].status == Posted && c.entries[m].source == Reversal
            && c.entries[m].number == Some(b.nextNumber) && c.entries[m].reversalOf == Some(id)
            && c.entries[m].createdBy == c.entries[m].approvedBy == actor && c.entries[m].version == 1
            && c.nextEntry == m + 1 && c.nextNumber == b.nextNumber + 1 && c.nextRow == b.nextRow
            && c.entries[m].total == b.entries[id].total
            && |c.entries[m].lines| == |b.entries[id].lines|
            && (forall i :: 0 <= i < |b.entries[id].lines| ==>
                  c.entries[m].lines[i] == Line(b.entries[id].lines[i].account, b.entries[id].lines[i].credit,
                                                b.entries[id].lines[i].debit))
            && (forall i :: i != id && i != m ==>
                  (i in c.entries <==> i in b.entries) && (i in b.entries ==> c.entries[i] == b.entries[i]))
            && c.rows.Keys == b.rows.Keys
            && (forall r :: r in b.rows ==>
                  c.rows[r] == if b.rows[r].journal == Some(id) then b.rows[r].(status := RowVoid) else b.rows[r])
            && c.accounts == b.accounts && c.settings == b.settings
  {
    hide Total, PostGuard, RowOk, Gapless, LinkedOnce;
    NothingAhead(b);
    assert EntryOk(b, id);
    hide Inv, EntryOk;
    MirroredTotal(b.entries[id].lines, true);
  }

  /** Voiding drops the row's link and its unposted entry; a void row stays as it is. */
  lemma RowVoided(b: Books, rid: Id)
    requires Inv(b) && VoidRow(b, rid).Ok?
    ensures var c := VoidRow(b, rid).value;
            && rid in b.rows && rid in c.rows
            && (b.rows[rid].status == RowVoid ==> c == b)
            && (b.rows[rid].status != RowVoid ==>
                  && c.rows[rid] == b.rows[rid].(status := RowVoid, journal := None)
                  && b.rows[rid].journal.Some? && b.rows[rid].journal.value in b.entries
                  && b.rows[rid].journal.value !in c.entries && OnlyTouches(b, c, b.rows[rid].journal.value, rid))
  {
    hide EntryOk, Gapless, LinkedOnce, LinesOfRow;
    assert rid in b.rows && RowOk(b, rid);
  }

  // -------------------------------------------------------------------------
  // Versions
  // -------------------------------------------------------------------------

  /** What a transaction leaves of an entry: nothing, the entry as it was, or the entry at its next version. */
  predicate CountedChange(b: Books, c: Books, id: Id)
    requires id in b.entries
  {
    id in c.entries ==> c.entries[id] == b.entries[id] || c.entries[id].version == b.entries[id].version + 1
  }

  lemma EntryChangeCounted(b: Books, s: Step, id: Id)
    requires Inv(b) && id in b.entries
    ensures CountedChange(b, Next(b, s), id)
  {
    hide Inv, ValidateLines, LinesFor, Total, CreateRow, Reverse, Post, CreateEntry, UpdateRow, VoidRow, OnlyTouches;
    NothingAhead(b);
    if Apply(b, s).Ok? {
      match s
      case DoCreateEntry(actor, date, lines) => EntryCreated(b, actor, date, lines);
      case DoPost(i, actor) => PostTouches(b, i, actor);
      case DoReverse(i, date, actor) => ReverseTouches(b, i, date, actor);
      case DoCreateRow(actor, mayApprove, input, postNow) => RowTouchesCounted(b, s, id);
      case DoUpdateRow(rid, input, version) => RowTouchesCounted(b, s, id);
      case DoVoidRow(rid) => RowTouchesCounted(b, s, id);
      case _ =>
    }
  }

  lemma RowTouchesCounted(b: Books, s: Step, id: Id)
    requires Inv(b) && id in b.entries && Apply(b, s).Ok? && (s.DoCreateRow? || s.DoUpdateRow? || s.DoVoidRow?)
    ensures CountedChange(b, Next(b, s), id)
  {
    hide Inv, CreateRow, UpdateRow, VoidRow, BooksRow;
    if s.DoCreateRow? {
      NothingAhead(b);
      RowCreated(b, s.actor, s.mayApprove, s.input, s.postNow);
    } else if s.DoUpdateRow? {
      RowUpdated(b, s.rid, s.input, s.version);
    } else {
      RowVoided(b, s.rid);
    }
  }

  /** An entry that is gone stays gone. */
  lemma NeverCreatedAgain(b: Books, s: Step, id: Id)
    requires Inv(b) && id < b.nextEntry
    ensures id < Next(b, s).nextEntry && (id !in b.entries ==> id !in Next(b, s).entries)
  {
    hide Inv, ValidateLines, LinesFor, Total, LinesOfRow, PostGuard, Mirrored, MarkRows;
  }

  /** Over any run the version of an entry tells whether it has changed: at the same version it is the same entry, and
      no version comes back. */
  lemma {:induction false} SameVersionSameEntry(b: Books, steps: seq<Step>, id: Id)
    requires Inv(b) && id in b.entries
    ensures var c := Run(b, steps);
            id in c.entries ==>
              && c.entries[id].version >= b.entries[id].version
              && (c.entries[id].version == b.entries[id].version ==> c.entries[id] == b.entries[id])
    ensures id < Run(b, steps).nextEntry
    decreases |steps|
  {
    assert EntryOk(b, id);
    if steps != [] {
      var m := Next(b, steps[0]);
      NextKeeps(b, steps[0]);
      EntryChangeCounted(b, steps[0], id);
      NeverCreatedAgain(b, steps[0], id);
      hide Inv, Next;
      if id in m.entries {
        SameVersionSameEntry(m, steps[1..], id);
      } else {
        GoneForGood(m, steps[1..], id);
      }
    }
  }

  lemma {:induction false} GoneForGood(b: Books, steps: seq<Step>, id: Id)
    requires Inv(b) && id !in b.entries && id < b.nextEntry
    ensures id !in Run(b, steps).entries && id < Run(b, steps).nextEntry
    decreases |steps|
  {
    if steps != [] {
      NextKeeps(b, steps[0]);
      NeverCreatedAgain(b, steps[0], id);
      hide Inv, Next;
      GoneForGood(Next(b, steps[0]), steps[1..], id);
    }
  }

  /** Of the changes sent with one version of an entry at most one is accepted, whatever happens in between. */
  lemma OneEditPerVersion(b: Books, id: Id, date: int, lines: seq<Line>, version: int, steps: seq<Step>,
                          date': int, lines': seq<Line>)
    requires Inv(b) && UpdateEntry(b, id, date, lines, version).Ok?
    ensures UpdateEntry(Run(UpdateEntry(b, id, date, lines, version).value, steps), id, date', lines', version).Err?
  {
    hide Inv, Run, ValidateLines;
    var c := UpdateEntry(b, id, date, lines, version).value;
    UpdateEntryKeeps(b, id, date, lines, version);
    SameVersionSameEntry(c, steps, id);
  }

  /** A row changes its input only at its next version. */
  lemma RowChangeCounted(b: Books, s: Step, rid: Id)
    requires Inv(b) && rid in b.rows
    ensures var c := Next(b, s);
            && rid in c.rows && c.rows[rid].version >= b.rows[rid].version
            && (c.rows[rid].version == b.rows[rid].version ==> c.rows[rid].input == b.rows[rid].input)
  {
    hide Inv, ValidateLines, LinesFor, Total, CreateRow, Reverse, Post, CreateEntry, VoidRow, OnlyTouches, LinesOfRow;
    NothingAhead(b);
    if Apply(b, s).Ok? {
      match s
      case DoPost(i, actor) => PostTouches(b, i, actor);
      case DoReverse(i, date, actor) => ReverseTouches(b, i, date, actor);
      case DoCreateEntry(actor, date, lines) => EntryCreated(b, actor, date, lines);
      case DoCreateRow(actor, mayApprove, input, postNow) => RowKept(b, s, rid);
      case DoVoidRow(r) => RowKept(b, s, rid);
      case _ =>
    }
  }

  lemma RowKept(b: Books, s: Step, rid: Id)
    requires Inv(b) && rid in b.rows && Apply(b, s).Ok? && (s.DoCreateRow? || s.DoVoidRow?)
    ensures var c := Next(b, s);
            rid in c.rows && c.rows[rid].version == b.rows[rid].version && c.rows[rid].input == b.rows[rid].input
  {
    hide Inv, CreateRow, VoidRow, BooksRow;
    NothingAhead(b);
    if s.DoCreateRow? {
      RowCreated(b, s.actor, s.mayApprove, s.input, s.postNow);
    } else {
      RowVoided(b, s.rid);
    }
  }

  lemma {:induction false} SameVersionSameInput(b: Books, steps: seq<Step>, rid: Id)
    requires Inv(b) && rid in b.rows
    ensures var c := Run(b, steps);
            && rid in c.rows && c.rows[rid].version >= b.rows[rid].version
            && (c.rows[rid].version == b.rows[rid].version ==> c.rows[rid].input == b.rows[rid].input)
    decreases |steps|
  {
    if steps != [] {
      NextKeeps(b, steps[0]);
      RowChangeCounted(b, steps[0], rid);
      hide Inv, Next;
      SameVersionSameInput(Next(b, steps[0]), steps[1..], rid);
    }
  }

  /** Of the changes sent with one version of a daybook row at most one is accepted. */
  lemma OneRowEditPerVersion(b: Books, rid: Id, input: RowInput, version: int, steps: seq<Step>, input': RowInput)
    requires Inv(b) && UpdateRow(b, rid, input, version).Ok?
    ensures UpdateRow(Run(UpdateRow(b, rid, input, version).value, steps), rid, input', version).Err?
  {
    hide Inv, Run, LinesFor;
    var c := UpdateRow(b, rid, input, version).value;
    UpdateRowKeeps(b, rid, input, version);
    SameVersionSameInput(c, steps, rid);
  }
}

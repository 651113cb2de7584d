/** Every transaction, in any order and on any input, keeps the ledger and the daybook consistent. */
module LedgerInvariants {
  import opened Wrappers
  import opened Ledger
  import Money

  /** Equal money strings mean equal sums, so accepted lines balance exactly. */
  lemma ValidatedLines(accounts: map<Id, Account>, lines: seq<Line>)
    requires ValidateLines(accounts, lines).Ok?
    ensures Total(lines, true) == Total(lines, false) == ValidateLines(accounts, lines).value > 0
    ensures forall i :: 0 <= i < |lines| ==> lines[i].account in accounts && accounts[lines[i].account].isActive
  {
    hide Total, Money.FromUnits, Money.ToUnits;
    Money.CanonicalInjective(Total(lines, true), Total(lines, false));
    Money.MoneyRoundTrip(Total(lines, true));
  }

  lemma {:induction false} MirroredTotal(lines: seq<Line>, debit: bool)
    ensures Total(Mirrored(lines), debit) == Total(lines, !debit)
  {
    if lines != [] {
      assert Mirrored(lines)[1..] == Mirrored(lines[1..]);
      MirroredTotal(lines[1..], debit);
    }
  }

  lemma RowLinesBalance(accounts: map<Id, Account>, input: RowInput)
    requires input.amount > 0 && LinesFor(accounts, input).Ok?
    ensures LinesFor(accounts, input).value == LinesOfRow(input) && LinesOk(accounts, LinesOfRow(input))
    ensures Total(LinesOfRow(input), true) == Total(LinesOfRow(input), false) == input.amount
  {
    var lines := LinesOfRow(input);
    assert lines[1..][1..] == [];
    assert forall d :: Total(lines, d) == Amount(lines[0], d) + (Amount(lines[1], d) + Total([], d));
  }

  /** A single line never balances, so what ValidateLines and the line check accept, the trigger accepts. */
  lemma BalancedPassesGuard(accounts: map<Id, Account>, lines: seq<Line>)
    requires LinesOk(accounts, lines) && Total(lines, true) == Total(lines, false) > 0
    ensures PostGuard(lines) && PostGuard(Mirrored(lines))
  {
    MirroredTotal(lines, true);
    MirroredTotal(lines, false);
  }

  // -------------------------------------------------------------------------
  // Frames
  // -------------------------------------------------------------------------

  lemma GaplessKept(b: Books, c: Books)
    requires Gapless(b) && c.nextNumber == b.nextNumber
    requires forall id, n :: HasNumber(c, id, n) <==> HasNumber(b, id, n)
    ensures Gapless(c)
  {
    forall n | 1 <= n < c.nextNumber ensures NumberUsed(c, n) {
      assert NumberUsed(b, n);
    }
  }

  lemma GaplessExtended(b: Books, c: Books, at: Id)
    requires Gapless(b) && c.nextNumber == b.nextNumber + 1
    requires forall id :: !HasNumber(b, id, b.nextNumber)
    requires forall n :: !HasNumber(b, at, n)
    requires forall id, n :: HasNumber(c, id, n) <==> HasNumber(b, id, n) || (id == at && n == b.nextNumber)
    ensures Gapless(c)
  {
    forall n | 1 <= n < c.nextNumber ensures NumberUsed(c, n) {
      if n < b.nextNumber {
        assert NumberUsed(b, n);
      } else {
        assert HasNumber(c, at, n);
      }
    }
  }

  lemma LinksKept(b: Books, c: Books)
    requires LinkedOnce(b) && c.rows.Keys == b.rows.Keys
    requires forall r :: r in c.rows ==> c.rows[r].journal == b.rows[r].journal
    requires forall id :: id in c.entries && c.entries[id].source == FromDaybook ==>
             id in b.entries && b.entries[id].source == FromDaybook
    ensures LinkedOnce(c)
  {
    forall id | id in c.entries && c.entries[id].source == FromDaybook ensures HasRow(c, id) {
      assert HasRow(b, id);
    }
  }

  /** Changes to unposted entries that leave their source, links and daybook rows alone. */
  ghost predicate UnpostedEdit(b: Books, c: Books, id: Id) {
    && c.rows == b.rows && c.nextRow == b.nextRow && c.nextNumber == b.nextNumber && b.nextEntry <= c.nextEntry
    && c.accounts == b.accounts
    && (id in b.entries ==> !IsPosted(b.entries[id]))
    && (forall i :: i != id ==>
          (i in c.entries <==> i in b.entries) && (i in b.entries ==> c.entries[i] == b.entries[i]))
    && (id in c.entries ==>
          var e := c.entries[id];
          && !IsPosted(e) && e.number.None? && e.reversalOf.None? && e.reversedBy.None? && e.source != Reversal
          && id < c.nextEntry && LinesOk(c.accounts, e.lines)
          && Total(e.lines, true) == Total(e.lines, false) == e.total > 0)
  }

  /** What happens to the edited entry's source. */
  predicate SourceKept(b: Books, c: Books, id: Id) {
    && (id in c.entries ==>
          if id in b.entries then c.entries[id].source == b.entries[id].source
          else c.entries[id].source != FromDaybook && id >= b.nextEntry)
    && (id in b.entries && b.entries[id].source == FromDaybook ==>
          && id in c.entries
          && c.entries[id].(status := b.entries[id].status, version := b.entries[id].version,
                            approvedBy := b.entries[id].approvedBy) == b.entries[id])
  }

  lemma UnpostedEntryOk(b: Books, c: Books, id: Id, i: Id)
    requires Inv(b) && UnpostedEdit(b, c, id) && i in c.entries
    ensures EntryOk(c, i)
  {
    hide Total, Mirrored, RowOk, Gapless, LinkedOnce;
    if id in b.entries { assert EntryOk(b, id); }
    if i != id {
      assert EntryOk(b, i);
      var e := b.entries[i];
      if e.reversedBy.Some? { assert EntryOk(b, e.reversedBy.value); }
      if e.reversalOf.Some? { assert EntryOk(b, e.reversalOf.value); }
    }
  }

  lemma UnpostedRowOk(b: Books, c: Books, id: Id, r: Id)
    requires Inv(b) && UnpostedEdit(b, c, id) && SourceKept(b, c, id) && r in c.rows
    ensures RowOk(c, r)
  {
    hide Total, Mirrored, EntryOk, Gapless, LinkedOnce;
    assert RowOk(b, r);
  }

  lemma UnpostedNumbers(b: Books, c: Books, id: Id)
    requires Inv(b) && UnpostedEdit(b, c, id)
    ensures Gapless(c)
  {
    hide Total, RowOk, LinkedOnce, Gapless;
    if id in b.entries { assert EntryOk(b, id); }
    hide EntryOk;
    forall i, n ensures HasNumber(c, i, n) <==> HasNumber(b, i, n) {
      if i == id { assert !HasNumber(b, i, n) && !HasNumber(c, i, n); }
    }
    GaplessKept(b, c);
  }

  lemma UnpostedEditKeeps(b: Books, c: Books, id: Id)
    requires Inv(b) && UnpostedEdit(b, c, id) && SourceKept(b, c, id)
    ensures Inv(c)
  {
    hide EntryOk, RowOk, Gapless, LinkedOnce, Total;
    forall i | i in c.entries ensures EntryOk(c, i) {
      UnpostedEntryOk(b, c, id, i);
    }
    forall r | r in c.rows ensures RowOk(c, r) {
      UnpostedRowOk(b, c, id, r);
    }
    UnpostedNumbers(b, c, id);
    LinksKept(b, c);
  }

  // -------------------------------------------------------------------------
  // One lemma for each transaction
  // -------------------------------------------------------------------------

  /** The next identifier and the next number are unused. */
  lemma NothingAhead(b: Books)
    requires Inv(b)
    ensures b.nextEntry !in b.entries && b.nextRow !in b.rows
    ensures forall i :: i in b.entries ==> i < b.nextEntry
    ensures forall i :: !HasNumber(b, i, b.nextNumber)
  {
    forall i | i in b.entries ensures i < b.nextEntry && b.entries[i].number != Some(b.nextNumber) {
      assert EntryOk(b, i);
    }
    forall r | r in b.rows ensures r < b.nextRow {
      assert RowOk(b, r);
    }
  }

  lemma CreateEntryKeeps(b: Books, actor: Option<Id>, date: int, lines: seq<Line>)
    requires Inv(b) && CreateEntry(b, actor, date, lines, Manual, Draft).Ok?
    ensures Inv(CreateEntry(b, actor, date, lines, Manual, Draft).value)
  {
    hide Total, ValidateLines, Inv;
    ValidatedLines(b.accounts, lines);
    NothingAhead(b);
    UnpostedEditKeeps(b, CreateEntry(b, actor, date, lines, Manual, Draft).value, b.nextEntry);
  }

  lemma UpdateIsEdit(b: Books, id: Id, date: int, lines: seq<Line>, version: int)
    requires Inv(b) && UpdateEntry(b, id, date, lines, version).Ok?
    ensures UnpostedEdit(b, UpdateEntry(b, id, date, lines, version).value, id)
    ensures SourceKept(b, UpdateEntry(b, id, date, lines, version).value, id)
  {
    hide Total, ValidateLines, Gapless, LinkedOnce;
    ValidatedLines(b.accounts, lines);
    assert EntryOk(b, id);
    hide Inv, RowOk;
  }

  lemma UpdateEntryKeeps(b: Books, id: Id, date: int, lines: seq<Line>, version: int)
    requires Inv(b) && UpdateEntry(b, id, date, lines, version).Ok?
    ensures Inv(UpdateEntry(b, id, date, lines, version).value)
  {
    UpdateIsEdit(b, id, date, lines, version);
    hide Inv, UnpostedEdit, SourceKept, UpdateEntry;
    UnpostedEditKeeps(b, UpdateEntry(b, id, date, lines, version).value, id);
  }

  lemma DeleteEntryKeeps(b: Books, id: Id)
    requires Inv(b) && DeleteEntry(b, id).Ok?
    ensures Inv(DeleteEntry(b, id).value)
  {
    hide Total;
    assert EntryOk(b, id);
    UnpostedEditKeeps(b, DeleteEntry(b, id).value, id);
  }

  lemma SubmitKeeps(b: Books, id: Id)
    requires Inv(b) && Submit(b, id).Ok?
    ensures Inv(Submit(b, id).value)
  {
    hide Total;
    assert EntryOk(b, id);
    UnpostedEditKeeps(b, Submit(b, id).value, id);
  }

  lemma ApproveKeeps(b: Books, id: Id, actor: Option<Id>)
    requires Inv(b) && Approve(b, id, actor).Ok?
    ensures Inv(Approve(b, id, actor).value)
  {
    hide Total;
    assert EntryOk(b, id);
    UnpostedEditKeeps(b, Approve(b, id, actor).value, id);
  }

  lemma PostEntryOk(b: Books, id: Id, actor: Option<Id>, i: Id)
    requires Inv(b) && Post(b, id, actor).Ok? && i in b.entries
    ensures EntryOk(Post(b, id, actor).value, i)
  {
    hide Total, ValidateLines, Mirrored;
    assert EntryOk(b, id) && EntryOk(b, i);
    var e := b.entries[i];
    if e.reversedBy.Some? { assert EntryOk(b, e.reversedBy.value); }
    if e.reversalOf.Some? { assert EntryOk(b, e.reversalOf.value); }
  }

  lemma PostRowOk(b: Books, id: Id, actor: Option<Id>, r: Id)
    requires Inv(b) && Post(b, id, actor).Ok? && r in b.rows
    ensures RowOk(Post(b, id, actor).value, r)
  {
    hide Total, ValidateLines, Mirrored;
    assert EntryOk(b, id) && RowOk(b, r);
  }

  lemma PostNumbers(b: Books, id: Id, actor: Option<Id>)
    requires Inv(b) && Post(b, id, actor).Ok?
    ensures Gapless(Post(b, id, actor).value)
  {
    hide Total, ValidateLines, Mirrored, PostGuard, MarkRows, RowOk, LinkedOnce, Gapless;
    NothingAhead(b);
    assert EntryOk(b, id);
    hide EntryOk;
    GaplessExtended(b, Post(b, id, actor).value, id);
  }

  lemma PostLinks(b: Books, id: Id, actor: Option<Id>)
    requires Inv(b) && Post(b, id, actor).Ok?
    ensures LinkedOnce(Post(b, id, actor).value)
  {
    hide Total, ValidateLines, Mirrored, PostGuard, EntryOk, RowOk, Gapless, LinkedOnce;
    LinksKept(b, Post(b, id, actor).value);
  }

  lemma PostKeeps(b: Books, id: Id, actor: Option<Id>)
    requires Inv(b) && Post(b, id, actor).Ok?
    ensures Inv(Post(b, id, actor).value)
  {
    hide Total, ValidateLines, Mirrored, EntryOk, RowOk, Gapless, LinkedOnce;
    var c := Post(b, id, actor).value;
    forall i | i in c.entries ensures EntryOk(c, i) {
      PostEntryOk(b, id, actor, i);
    }
    forall r | r in c.rows ensures RowOk(c, r) {
      PostRowOk(b, id, actor, r);
    }
    PostNumbers(b, id, actor);
    PostLinks(b, id, actor);
  }

  lemma ReverseEntryOk(b: Books, id: Id, date: int, actor: Option<Id>, i: Id)
    requires Inv(b) && Reverse(b, id, date, actor).Ok? && i in Reverse(b, id, date, actor).value.entries
    ensures EntryOk(Reverse(b, id, date, actor).value, i)
  {
    hide Total, RowOk, MarkRows;
    NothingAhead(b);
    assert EntryOk(b, id);
    MirroredTotal(b.entries[id].lines, true);
    MirroredTotal(b.entries[id].lines, false);
    if i != b.nextEntry {
      assert EntryOk(b, i);
      var e := b.entries[i];
      hide Mirrored;
      if e.reversedBy.Some? { assert EntryOk(b, e.reversedBy.value); }
      if e.reversalOf.Some? { assert EntryOk(b, e.reversalOf.value); }
    }
  }

  lemma ReverseRowOk(b: Books, id: Id, date: int, actor: Option<Id>, r: Id)
    requires Inv(b) && Reverse(b, id, date, actor).Ok? && r in b.rows
    ensures RowOk(Reverse(b, id, date, actor).value, r)
  {
    NothingAhead(b);
    hide Total, Mirrored, PostGuard;
    assert EntryOk(b, id) && RowOk(b, r);
  }

  lemma ReverseNumbers(b: Books, id: Id, date: int, actor: Option<Id>)
    requires Inv(b) && Reverse(b, id, date, actor).Ok?
    ensures Gapless(Reverse(b, id, date, actor).value)
  {
    hide Total, Mirrored, PostGuard, MarkRows, EntryOk, RowOk, LinkedOnce, Gapless;
    NothingAhead(b);
    GaplessExtended(b, Reverse(b, id, date, actor).value, b.nextEntry);
  }

  lemma ReverseLinks(b: Books, id: Id, date: int, actor: Option<Id>)
    requires Inv(b) && Reverse(b, id, date, actor).Ok?
    ensures LinkedOnce(Reverse(b, id, date, actor).value)
  {
    hide Total, Mirrored, PostGuard, EntryOk, RowOk, Gapless, LinkedOnce;
    LinksKept(b, Reverse(b, id, date, actor).value);
  }

  lemma ReverseKeeps(b: Books, id: Id, date: int, actor: Option<Id>)
    requires Inv(b) && Reverse(b, id, date, actor).Ok?
    ensures Inv(Reverse(b, id, date, actor).value)
  {
    hide Total, Mirrored, PostGuard, EntryOk, RowOk, Gapless, LinkedOnce;
    var c := Reverse(b, id, date, actor).value;
    forall i | i in c.entries ensures EntryOk(c, i) {
      ReverseEntryOk(b, id, date, actor, i);
    }
    forall r | r in c.rows ensures RowOk(c, r) {
      ReverseRowOk(b, id, date, actor, r);
    }
    ReverseNumbers(b, id, date, actor);
    ReverseLinks(b, id, date, actor);
  }

  /** The daybook row and the pending entry generated from it, inserted together. */
  function InsertedRow(b: Books, actor: Option<Id>, input: RowInput, lines: seq<Line>): Books {
    var e := Entry(None, input.date, FromDaybook, Pending, input.amount, actor, None, lines, None, None, 1);
    b.(entries := b.entries[b.nextEntry := e], nextEntry := b.nextEntry + 1,
       rows := b.rows[b.nextRow := Row(input, RowPending, Some(b.nextEntry), 1)], nextRow := b.nextRow + 1)
  }

  lemma InsertedEntryOk(b: Books, actor: Option<Id>, input: RowInput, i: Id)
    requires Inv(b) && input.amount > 0 && LinesFor(b.accounts, input).Ok?
    requires i in InsertedRow(b, actor, input, LinesOfRow(input)).entries
    ensures EntryOk(InsertedRow(b, actor, input, LinesOfRow(input)), i)
  {
    RowLinesBalance(b.accounts, input);
    NothingAhead(b);
    hide Total, Mirrored, LinesOfRow, RowOk;
    if i != b.nextEntry { assert EntryOk(b, i); }
  }

  lemma InsertedRowOk(b: Books, actor: Option<Id>, input: RowInput, r: Id)
    requires Inv(b) && r in InsertedRow(b, actor, input, LinesOfRow(input)).rows
    ensures RowOk(InsertedRow(b, actor, input, LinesOfRow(input)), r)
  {
    NothingAhead(b);
    hide LinesOfRow, EntryOk;
    if r != b.nextRow { assert RowOk(b, r); }
  }

  lemma InsertedLinks(b: Books, c: Books, actor: Option<Id>, input: RowInput)
    requires Inv(b) && c == InsertedRow(b, actor, input, LinesOfRow(input))
    ensures LinkedOnce(c)
  {
    NothingAhead(b);
    hide EntryOk, LinesOfRow, Gapless;
    forall id | id in c.entries && c.entries[id].source == FromDaybook ensures HasRow(c, id) {
      if id == b.nextEntry {
        assert c.rows[b.nextRow].journal == Some(id);
      } else {
        assert HasRow(b, id);
        var r :| r in b.rows && b.rows[r].journal == Some(id);
        assert c.rows[r].journal == Some(id);
      }
    }
    forall r, r' | r in c.rows && r' in c.rows && c.rows[r].journal.Some? && c.rows[r].journal == c.rows[r'].journal
      ensures r == r'
    {
      if r in b.rows { assert RowOk(b, r); }
      if r' in b.rows { assert RowOk(b, r'); }
    }
  }

  lemma InsertedRowKeeps(b: Books, actor: Option<Id>, input: RowInput)
    requires Inv(b) && input.amount > 0 && LinesFor(b.accounts, input).Ok?
    ensures Inv(InsertedRow(b, actor, input, LinesOfRow(input)))
  {
    var c := InsertedRow(b, actor, input, LinesOfRow(input));
    NothingAhead(b);
    hide EntryOk, RowOk, LinesOfRow, LinkedOnce;
    forall i | i in c.entries ensures EntryOk(c, i) {
      InsertedEntryOk(b, actor, input, i);
    }
    forall r | r in c.rows ensures RowOk(c, r) {
      InsertedRowOk(b, actor, input, r);
    }
    GaplessKept(b, c);
    InsertedLinks(b, c, actor, input);
  }

  /** Posting on creation is a posting of the row just inserted and approved. */
  lemma CreateRowIs(b: Books, actor: Option<Id>, mayApprove: bool, input: RowInput, postNow: bool)
    requires CreateRow(b, actor, mayApprove, input, postNow).Ok?
    ensures input.amount > 0 && LinesFor(b.accounts, input).Ok?
    ensures var d, id := InsertedRow(b, actor, input, LinesOfRow(input)), b.nextEntry;
            CreateRow(b, actor, mayApprove, input, postNow) ==
              if postNow then
                Post(d.(entries := d.entries[id := d.entries[id].(status := Approved, approvedBy := actor)]),
                     id, actor)
              else Ok(d)
  {
    hide Post;
    ValidatedLines(b.accounts, LinesOfRow(input));
    TotalOfRow(input);
    hide Total, ValidateLines, LinesOfRow;
  }

  lemma CreateRowKeeps(b: Books, actor: Option<Id>, mayApprove: bool, input: RowInput, postNow: bool)
    requires Inv(b) && CreateRow(b, actor, mayApprove, input, postNow).Ok?
    ensures Inv(CreateRow(b, actor, mayApprove, input, postNow).value)
  {
    CreateRowIs(b, actor, mayApprove, input, postNow);
    InsertedRowKeeps(b, actor, input);
    hide LinesOfRow, Inv, Post, CreateRow;
    if postNow {
      var d, id := InsertedRow(b, actor, input, LinesOfRow(input)), b.nextEntry;
      ApprovedRowKeeps(d, id, actor);
      PostKeeps(d.(entries := d.entries[id := d.entries[id].(status := Approved, approvedBy := actor)]), id, actor);
    }
  }

  lemma TotalOfRow(input: RowInput)
    ensures Total(LinesOfRow(input), true) == input.amount
  {
    var lines := LinesOfRow(input);
    assert lines[1..][1..] == [];
    assert Total(lines, true) == Amount(lines[0], true) + (Amount(lines[1], true) + Total([], true));
  }

  lemma ApprovedRowKeeps(d: Books, id: Id, actor: Option<Id>)
    requires Inv(d) && id in d.entries && d.entries[id].status == Pending
    ensures Inv(d.(entries := d.entries[id := d.entries[id].(status := Approved, approvedBy := actor)]))
  {
    hide Total;
    assert EntryOk(d, id);
    UnpostedEditKeeps(d, d.(entries := d.entries[id := d.entries[id].(status := Approved, approvedBy := actor)]), id);
  }

  lemma UpdatedEntryOk(b: Books, rid: Id, input: RowInput, version: int, i: Id)
    requires Inv(b) && UpdateRow(b, rid, input, version).Ok? && i in b.entries
    ensures EntryOk(UpdateRow(b, rid, input, version).value, i)
  {
    RowLinesBalance(b.accounts, input);
    hide Total, Mirrored, LinesOfRow;
    assert RowOk(b, rid) && EntryOk(b, i);
    hide RowOk;
    var e := b.entries[i];
    if e.reversedBy.Some? { assert EntryOk(b, e.reversedBy.value); }
    if e.reversalOf.Some? { assert EntryOk(b, e.reversalOf.value); }
  }

  lemma UpdatedRowOk(b: Books, rid: Id, input: RowInput, version: int, r: Id)
    requires Inv(b) && UpdateRow(b, rid, input, version).Ok? && r in b.rows
    ensures RowOk(UpdateRow(b, rid, input, version).value, r)
  {
    RowLinesBalance(b.accounts, input);
    hide Total, Mirrored, LinesOfRow, EntryOk;
    assert RowOk(b, rid) && RowOk(b, r);
  }

  lemma UpdateRowKeeps(b: Books, rid: Id, input: RowInput, version: int)
    requires Inv(b) && UpdateRow(b, rid, input, version).Ok?
    ensures Inv(UpdateRow(b, rid, input, version).value)
  {
    hide Total, Mirrored, LinesOfRow, EntryOk, RowOk, LinesFor;
    var c := UpdateRow(b, rid, input, version).value;
    forall i | i in c.entries ensures EntryOk(c, i) {
      UpdatedEntryOk(b, rid, input, version, i);
    }
    forall r | r in c.rows ensures RowOk(c, r) {
      UpdatedRowOk(b, rid, input, version, r);
    }
    GaplessKept(b, c);
    LinksKept(b, c);
  }

  lemma VoidedEntryOk(b: Books, rid: Id, i: Id)
    requires Inv(b) && VoidRow(b, rid).Ok? && i in VoidRow(b, rid).value.entries
    ensures EntryOk(VoidRow(b, rid).value, i)
  {
    hide Total, Mirrored, Gapless;
    assert RowOk(b, rid) && EntryOk(b, i);
    var e := b.entries[i];
    if e.reversedBy.Some? { assert EntryOk(b, e.reversedBy.value); }
    if e.reversalOf.Some? { assert EntryOk(b, e.reversalOf.value); }
  }

  lemma VoidedRowOk(b: Books, rid: Id, r: Id)
    requires Inv(b) && VoidRow(b, rid).Ok? && r in b.rows
    ensures RowOk(VoidRow(b, rid).value, r)
  {
    hide Total, Mirrored, EntryOk;
    assert RowOk(b, rid) && RowOk(b, r);
  }

  lemma VoidedLinks(b: Books, rid: Id)
    requires Inv(b) && VoidRow(b, rid).Ok?
    ensures LinkedOnce(VoidRow(b, rid).value)
  {
    hide EntryOk, RowOk, Gapless;
    assert rid in b.rows && RowOk(b, rid);
    hide VoidRow;
    var c := VoidRow(b, rid).value;
    VoidedRows(b, rid);
    forall i | i in c.entries && c.entries[i].source == FromDaybook ensures HasRow(c, i) {
      assert HasRow(b, i);
      var r :| r in b.rows && b.rows[r].journal == Some(i);
      assert c.rows[r].journal == Some(i);
    }
  }

  /** Only the voided row loses its link, and the entry it linked to is gone. */
  lemma VoidedRows(b: Books, rid: Id)
    requires VoidRow(b, rid).Ok? && rid in b.rows && RowOk(b, rid)
    ensures var c := VoidRow(b, rid).value;
            && c.rows.Keys == b.rows.Keys
            && (forall r :: r in b.rows && c.rows[r].journal != b.rows[r].journal ==>
                  c.rows[r].journal.None? && (b.rows[r].journal.Some? ==> b.rows[r].journal.value !in c.entries))
            && (forall i :: i in c.entries ==> i in b.entries && c.entries[i] == b.entries[i])
  {
    hide Total;
  }

  lemma VoidRowKeeps(b: Books, rid: Id)
    requires Inv(b) && VoidRow(b, rid).Ok?
    ensures Inv(VoidRow(b, rid).value)
  {
    var c := VoidRow(b, rid).value;
    assert RowOk(b, rid);
    if b.rows[rid].journal.Some? { assert EntryOk(b, b.rows[rid].journal.value); }
    hide Total, Mirrored, EntryOk, RowOk, LinkedOnce;
    forall i | i in c.entries ensures EntryOk(c, i) {
      VoidedEntryOk(b, rid, i);
    }
    forall r | r in c.rows ensures RowOk(c, r) {
      VoidedRowOk(b, rid, r);
    }
    VoidedLinks(b, rid);
    if c != b { GaplessKept(b, c); }
  }

  /** The foreign key from the daybook never blocks voiding a row. */
  lemma VoidNeverBlocked(b: Books, rid: Id)
    requires Inv(b)
    ensures VoidRow(b, rid) != Err(CheckViolation)
  {
    if rid in b.rows {
      assert RowOk(b, rid);
    }
  }

  lemma AccountsKeep(b: Books, c: Books)
    requires Inv(b) && b.accounts.Keys <= c.accounts.Keys && c == b.(accounts := c.accounts, settings := c.settings)
    ensures Inv(c)
  {
    hide Total, Mirrored, LinesOfRow;
    forall i | i in c.entries ensures EntryOk(c, i) {
      assert EntryOk(b, i);
      var e := b.entries[i];
      if e.reversedBy.Some? { assert IsMirror(c, e.reversedBy.value, i); }
    }
    forall r | r in c.rows ensures RowOk(c, r) {
      assert RowOk(b, r);
    }
    forall i, n ensures HasNumber(c, i, n) <==> HasNumber(b, i, n) {
    }
    GaplessKept(b, c);
    LinksKept(b, c);
  }

  // -------------------------------------------------------------------------
  // All runs
  // -------------------------------------------------------------------------

  lemma NextKeeps(b: Books, s: Step)
    requires Inv(b)
    ensures Inv(Next(b, s))
  {
    hide Inv, CreateEntry, UpdateEntry, DeleteEntry, Submit, Approve, Post, Reverse, CreateRow, UpdateRow, VoidRow;
    if Apply(b, s).Ok? {
      match s
      case DoCreateEntry(actor, date, lines) => CreateEntryKeeps(b, actor, date, lines);
      case DoUpdateEntry(id, date, lines, version) => UpdateEntryKeeps(b, id, date, lines, version);
      case DoDeleteEntry(id) => DeleteEntryKeeps(b, id);
      case DoSubmit(id) => SubmitKeeps(b, id);
      case DoApprove(id, actor) => ApproveKeeps(b, id, actor);
      case DoPost(id, actor) => PostKeeps(b, id, actor);
      case DoReverse(id, date, actor) => ReverseKeeps(b, id, date, actor);
      case DoCreateRow(actor, mayApprove, input, postNow) => CreateRowKeeps(b, actor, mayApprove, input, postNow);
      case DoUpdateRow(rid, input, version) => UpdateRowKeeps(b, rid, input, version);
      case DoVoidRow(rid) => VoidRowKeeps(b, rid);
      case DoCreateAccount(_, _, _) => AccountsKeep(b, Next(b, s));
      case DoUpdateAccount(_, _, _, _, _) => AccountsKeep(b, Next(b, s));
      case DoUpdateSettings(_, _, _, _) => AccountsKeep(b, Next(b, s));
    }
  }

  lemma {:induction false} RunKeeps(b: Books, steps: seq<Step>)
    requires Inv(b)
    ensures Inv(Run(b, steps))
    decreases |steps|
  {
    hide Inv, Next;
    if steps != [] {
      NextKeeps(b, steps[0]);
      RunKeeps(Next(b, steps[0]), steps[1..]);
    }
  }

  /** From a new tenant on, after any transactions whatever, the books are consistent. */
  lemma ReachableConsistent(accounts: map<Id, Account>, settings: Settings, steps: seq<Step>)
    ensures Inv(Run(NewBooks(accounts, settings), steps))
  {
    RunKeeps(NewBooks(accounts, settings), steps);
  }

  /** The database trigger is a second line of defence only: no reachable state makes it refuse a posting. */
  lemma GuardNeverRefuses(b: Books, id: Id, date: int, actor: Option<Id>)
    requires Inv(b)
    ensures Post(b, id, actor) != Err(CheckViolation) && Reverse(b, id, date, actor) != Err(CheckViolation)
  {
    hide ValidateLines;
    if id in b.entries {
      assert EntryOk(b, id);
      BalancedPassesGuard(b.accounts, b.entries[id].lines);
      if ValidateLines(b.accounts, b.entries[id].lines).Err? {
        RefusalIsNotGuard(b.accounts, b.entries[id].lines);
      }
    }
  }

  lemma RefusalIsNotGuard(accounts: map<Id, Account>, lines: seq<Line>)
    requires ValidateLines(accounts, lines).Err?
    ensures ValidateLines(accounts, lines).error == BadRequest
  {
  }

  /** The numbers of the posted and reversed entries are 1 to next - 1, each exactly once; nothing else is numbered. */
  lemma NumbersAreGapless(b: Books)
    requires Inv(b)
    ensures forall id :: id in b.entries ==>
              (if IsPosted(b.entries[id])
               then b.entries[id].number.Some? && 1 <= b.entries[id].number.value < b.nextNumber
               else b.entries[id].number.None?)
    ensures forall n :: 1 <= n < b.nextNumber ==> NumberUsed(b, n)
    ensures forall i, j, n :: HasNumber(b, i, n) && HasNumber(b, j, n) ==> i == j
  {
    forall id | id in b.entries
      ensures if IsPosted(b.entries[id])
              then b.entries[id].number.Some? && 1 <= b.entries[id].number.value < b.nextNumber
              else b.entries[id].number.None?
    {
      assert EntryOk(b, id);
    }
  }

  /** A reversed entry has one posted mirror image dated no earlier, links are inverse to each other, and a
      reversal is never itself reversed. */
  lemma ReversalsPair(b: Books, id: Id, r: Id)
    requires Inv(b) && id in b.entries && r in b.entries
    ensures b.entries[id].reversedBy == Some(r) <==> b.entries[r].reversalOf == Some(id)
    ensures b.entries[id].status == Reversed <==> b.entries[id].reversedBy.Some?
    ensures b.entries[id].reversedBy == Some(r) ==> IsMirror(b, r, id)
    ensures b.entries[id].source == Reversal ==> b.entries[id].status == Posted && b.entries[id].reversedBy.None?
  {
    assert EntryOk(b, id) && EntryOk(b, r);
  }
}

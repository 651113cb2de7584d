/** The accounting and daybook services as they run: rows of four tables and a counter, updated step by step.
    Every method is proved to commit exactly the transaction of module Ledger, or to change nothing. */
module AccountingService {
  import opened Wrappers
  import opened Ledger
  import Money

  class Service {
    var accounts: map<Id, Account>
    var entries: map<Id, Entry>
    var rows: map<Id, Row>
    var nextEntry: Id
    var nextRow: Id
    var nextNumber: int
    var settings: Settings

    function State(): Books
      reads this
    {
      Books(accounts, entries, rows, nextEntry, nextRow, nextNumber, settings)
    }

    constructor (accounts: map<Id, Account>, settings: Settings)
      ensures State() == NewBooks(accounts, settings)
    {
      this.accounts, this.settings := accounts, settings;
      entries, rows := map[], map[];
      nextEntry, nextRow, nextNumber := 0, 0, 1;
    }

    /** Sums both sides, then looks every account up. */
    method ValidateLines(lines: seq<Line>) returns (r: Result<int, Error>)
      ensures r == Ledger.ValidateLines(accounts, lines)
    {
      hide Money.FromUnits, Money.ToUnits;
      var debitUnits, creditUnits := 0, 0;
      var i := |lines|;
      while i > 0
        invariant 0 <= i <= |lines|
        invariant debitUnits == Total(lines[i..], true) && creditUnits == Total(lines[i..], false)
      {
        i := i - 1;
        assert lines[i..][1..] == lines[i + 1..];
        debitUnits, creditUnits := lines[i].debit + debitUnits, lines[i].credit + creditUnits;
      }
      assert lines[0..] == lines;
      var debit, credit := Money.FromUnits(debitUnits), Money.FromUnits(creditUnits);
      if debit != credit { return Err(BadRequest); }
      var total := Money.ToUnits(debit);
      if total.None? || total.value <= 0 { return Err(BadRequest); }
      var inactive := false;
      i := 0;
      while i < |lines|
        invariant 0 <= i <= |lines|
        invariant forall k :: 0 <= k < i ==> lines[k].account in accounts
        invariant inactive <==> exists k :: 0 <= k < i && !accounts[lines[k].account].isActive
      {
        if lines[i].account !in accounts { return Err(BadRequest); }
        if !accounts[lines[i].account].isActive { inactive := true; }
        i := i + 1;
      }
      if inactive { return Err(BadRequest); }
      return Ok(total.value);
    }

    /** What inserting lines checks row by row. */
    method LinesInsertable(lines: seq<Line>) returns (ok: bool)
      ensures ok <==> !exists i :: 0 <= i < |lines| && !LineOk(lines[i])
    {
      for i := 0 to |lines|
        invariant forall k :: 0 <= k < i ==> LineOk(lines[k])
      {
        if !LineOk(lines[i]) { return false; }
      }
      return true;
    }

    /** The transaction committed, or it was rolled back with this error. */
    ghost predicate Outcome(before: Books, spec: Result<Books, Error>, error: Option<Error>)
      reads this
    {
      match spec
      case Ok(after) => error == None && State() == after
      case Err(e) => error == Some(e) && State() == before
    }

    method CreateEntry(actor: Option<Id>, date: int, lines: seq<Line>, source: Source, status: Status)
      returns (error: Option<Error>)
      requires source != Reversal && (status == Draft || status == Pending)
      modifies this
      ensures Outcome(old(State()), Ledger.CreateEntry(old(State()), actor, date, lines, source, status), error)
    {
      hide Ledger.ValidateLines;
      var total := ValidateLines(lines);
      if total.Err? { return Some(total.error); }
      var insertable := LinesInsertable(lines);
      if !insertable { return Some(CheckViolation); }
      entries := entries[nextEntry := Entry(None, date, source, status, total.value, actor, None, [], None, None, 1)];
      entries := entries[nextEntry := entries[nextEntry].(lines := lines)];
      nextEntry := nextEntry + 1;
      return None;
    }

    method UpdateEntry(id: Id, date: int, lines: seq<Line>, version: int) returns (error: Option<Error>)
      modifies this
      ensures Outcome(old(State()), Ledger.UpdateEntry(old(State()), id, date, lines, version), error)
    {
      hide Ledger.ValidateLines;
      if id !in entries { return Some(NotFound); }
      var e := entries[id];
      if e.status != Draft && e.status != Pending { return Some(Conflict); }
      if e.source != Manual { return Some(Conflict); }
      var total := ValidateLines(lines);
      if total.Err? { return Some(total.error); }
      if e.version != version { return Some(VersionConflict); }
      var insertable := LinesInsertable(lines);
      if !insertable { return Some(CheckViolation); }
      entries := entries[id := e.(date := date, total := total.value, status := Draft, version := e.version + 1)];
      entries := entries[id := entries[id].(lines := lines)];
      return None;
    }

    method DeleteEntry(id: Id) returns (error: Option<Error>)
      modifies this
      ensures Outcome(old(State()), Ledger.DeleteEntry(old(State()), id), error)
    {
      if id !in entries { return Some(NotFound); }
      if entries[id].status != Draft && entries[id].status != Pending { return Some(Conflict); }
      if entries[id].source != Manual { return Some(Conflict); }
      entries := entries - {id};
      return None;
    }

    method Submit(id: Id) returns (error: Option<Error>)
      modifies this
      ensures Outcome(old(State()), Ledger.Submit(old(State()), id), error)
    {
      if id !in entries { return Some(NotFound); }
      var e := entries[id];
      if e.status != Draft || Locked(settings, e.date) { return Some(Conflict); }
      entries := entries[id := e.(status := Pending, version := e.version + 1)];
      return None;
    }

    method Approve(id: Id, actor: Option<Id>) returns (error: Option<Error>)
      modifies this
      ensures Outcome(old(State()), Ledger.Approve(old(State()), id, actor), error)
    {
      if id !in entries { return Some(NotFound); }
      var e := entries[id];
      if e.status != Pending || Locked(settings, e.date) { return Some(Conflict); }
      if SegregationBreached(settings, e, actor) { return Some(Forbidden); }
      entries := entries[id := e.(status := Approved, approvedBy := actor, version := e.version + 1)];
      return None;
    }

    method NextNumber() returns (value: int)
      modifies this`nextNumber
      ensures value == old(nextNumber) && nextNumber == value + 1
    {
      nextNumber := nextNumber + 1;
      return nextNumber - 1;
    }

    method SetRowStatus(journal: Id, status: RowStatus)
      modifies this`rows
      ensures rows == MarkRows(old(rows), journal, status)
    {
      rows := MarkRows(rows, journal, status);
    }

    method Post(id: Id, actor: Option<Id>) returns (error: Option<Error>)
      modifies this
      ensures Outcome(old(State()), Ledger.Post(old(State()), id, actor), error)
    {
      hide Ledger.ValidateLines, PostGuard, MarkRows, Total, SegregationBreached, Locked, Postable;
      if id !in entries { return Some(NotFound); }
      var e := entries[id];
      if !Postable(settings, e.status) || Locked(settings, e.date) { return Some(Conflict); }
      if e.status != Approved && SegregationBreached(settings, e, actor) { return Some(Forbidden); }
      var total := ValidateLines(e.lines);
      if total.Err? { return Some(total.error); }
      if !PostGuard(e.lines) { return Some(CheckViolation); }
      var number := NextNumber();
      var approver := if e.approvedBy.Some? then e.approvedBy else actor;
      entries :=
        entries[id := e.(status := Posted, number := Some(number), approvedBy := approver, version := e.version + 1)];
      entries := entries[id := entries[id].(total := Total(e.lines, true))];
      SetRowStatus(id, RowPosted);
      return None;
    }

    method Reverse(id: Id, date: int, actor: Option<Id>) returns (error: Option<Error>)
      requires nextEntry !in entries
      modifies this
      ensures Outcome(old(State()), Ledger.Reverse(old(State()), id, date, actor), error)
    {
      hide PostGuard, MarkRows, Mirrored, Total;
      if id !in entries { return Some(NotFound); }
      var original := entries[id];
      if original.status != Posted || original.source == Reversal { return Some(Conflict); }
      if date < original.date { return Some(BadRequest); }
      if Locked(settings, date) { return Some(Conflict); }
      var lines := Mirrored(original.lines);
      if !PostGuard(lines) { return Some(CheckViolation); }
      var rev := nextEntry;
      nextEntry := nextEntry + 1;
      entries :=
        entries[rev := Entry(None, date, Reversal, Approved, original.total, actor, actor, lines, Some(id), None, 1)];
      var number := NextNumber();
      entries := entries[rev := entries[rev].(status := Posted, number := Some(number), total := Total(lines, true))];
      entries := entries[id := original.(status := Reversed, reversedBy := Some(rev), version := original.version + 1)];
      SetRowStatus(id, RowVoid);
      return None;
    }

    method CreateRow(actor: Option<Id>, mayApprove: bool, input: RowInput, postNow: bool) returns (error: Option<Error>)
      modifies this
      ensures Outcome(old(State()), Ledger.CreateRow(old(State()), actor, mayApprove, input, postNow), error)
    {
      hide Ledger.CreateEntry, Ledger.Post, LinesFor, LinesOfRow, Ledger.ValidateLines, Total;
      if postNow && (!mayApprove || settings.segregation) { return Some(Forbidden); }
      var lines := LinesFor(accounts, input);
      if lines.Err? { return Some(lines.error); }
      var journal := nextEntry;
      var entries0, nextEntry0, rows0, nextRow0 := entries, nextEntry, rows, nextRow;
      error := CreateEntry(actor, input.date, lines.value, FromDaybook, Pending);
      if error.Some? { return; }
      CreatedIsThere(old(State()), actor, input.date, lines.value);
      rows := rows[nextRow := Row(input, RowPending, Some(journal), 1)];
      nextRow := nextRow + 1;
      if postNow {
        entries := entries[journal := entries[journal].(status := Approved, approvedBy := actor)];
        error := Post(journal, actor);
        if error.Some? {
          entries, nextEntry, rows, nextRow := entries0, nextEntry0, rows0, nextRow0;
        }
      }
    }

    method UpdateRow(rid: Id, input: RowInput, version: int) returns (error: Option<Error>)
      modifies this
      ensures Outcome(old(State()), Ledger.UpdateRow(old(State()), rid, input, version), error)
    {
      hide LinesFor;
      if rid !in rows { return Some(NotFound); }
      var row := rows[rid];
      if row.status != RowPending { return Some(Conflict); }
      if row.journal.None? || row.journal.value !in entries { return Some(Conflict); }
      var journal := entries[row.journal.value];
      if journal.status != Draft && journal.status != Pending { return Some(Conflict); }
      var lines := LinesFor(accounts, input);
      if lines.Err? { return Some(lines.error); }
      if row.version != version { return Some(VersionConflict); }
      if input.amount <= 0 { return Some(CheckViolation); }
      rows := rows[rid := row.(input := input, version := row.version + 1)];
      entries := entries[row.journal.value :=
                         journal.(date := input.date, total := input.amount, version := journal.version + 1)];
      entries := entries[row.journal.value := entries[row.journal.value].(lines := lines.value)];
      return None;
    }

    method VoidRow(rid: Id) returns (error: Option<Error>)
      modifies this
      ensures Outcome(old(State()), Ledger.VoidRow(old(State()), rid), error)
    {
      if rid !in rows { return Some(NotFound); }
      var row := rows[rid];
      if row.status == RowVoid { return None; }
      if row.status == RowPosted { return Some(Conflict); }
      rows := rows[rid := row.(status := RowVoid, journal := None)];
      if row.journal.Some? && row.journal.value in entries && !IsPosted(entries[row.journal.value]) {
        if exists r :: r in rows && rows[r].journal == row.journal {
          rows := rows[rid := row];
          return Some(CheckViolation);
        }
        entries := entries - {row.journal.value};
      }
      return None;
    }
  }

  lemma CreatedIsThere(b: Books, actor: Option<Id>, date: int, lines: seq<Line>)
    requires Ledger.CreateEntry(b, actor, date, lines, FromDaybook, Pending).Ok?
    ensures var c := Ledger.CreateEntry(b, actor, date, lines, FromDaybook, Pending).value;
            b.nextEntry in c.entries && c == b.(entries := c.entries, nextEntry := c.nextEntry)
  {
    hide Ledger.ValidateLines;
  }
}

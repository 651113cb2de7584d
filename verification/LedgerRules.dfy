/** When a transaction on the journal or the daybook is accepted, and what a refusal means: the workflow from draft to
    reversed, the lock date, and segregation of duties. */
module LedgerRules {
  import opened Wrappers
  import opened Ledger
  import opened LedgerInvariants
  import Money

  // -------------------------------------------------------------------------
  // Lines
  // -------------------------------------------------------------------------

  /** Debits equal credits, come to something that money can hold, and go to active accounts. */
  predicate LinesFit(accounts: map<Id, Account>, lines: seq<Line>) {
    && Total(lines, true) == Total(lines, false) && 0 < Total(lines, true) < Money.Limit()
    && forall i :: 0 <= i < |lines| ==> lines[i].account in accounts && accounts[lines[i].account].isActive
  }

  lemma LinesAccepted(accounts: map<Id, Account>, lines: seq<Line>)
    ensures ValidateLines(accounts, lines) ==
            if LinesFit(accounts, lines) then Ok(Total(lines, true)) else Err(BadRequest)
  {
    hide Total, Money.FromUnits, Money.ToUnits, Money.Limit;
    Money.CanonicalInjective(Total(lines, true), Total(lines, false));
    Money.MoneyRoundTrip(Total(lines, true));
  }

  // -------------------------------------------------------------------------
  // Journal entries
  // -------------------------------------------------------------------------

  /** The books are open on a date after the lock date. */
  predicate OpenOn(b: Books, date: int) {
    match b.settings.lockDate
    case Some(lock) => date > lock
    case None => true
  }

  /** The setting forbids authors to approve. */
  predicate OwnApproval(b: Books, e: Entry, actor: Option<Id>) {
    b.settings.segregation && e.createdBy.Some? && actor == e.createdBy
  }

  /** Not yet approved: a draft, or waiting for approval. */
  predicate Open(b: Books, id: Id) {
    id in b.entries && (b.entries[id].status == Draft || b.entries[id].status == Pending)
  }

  /** Only open manual entries can be changed or deleted, only drafts submitted, only pending ones approved; under the
      lock neither of the last two, and under segregation no approval by the author. */
  lemma WorkflowBeforePosting(b: Books, id: Id, actor: Option<Id>, date: int, lines: seq<Line>, version: int)
    ensures UpdateEntry(b, id, date, lines, version).Ok? <==>
              && Open(b, id) && b.entries[id].source == Manual && b.entries[id].version == version
              && LinesFit(b.accounts, lines) && forall i :: 0 <= i < |lines| ==> LineOk(lines[i])
    ensures DeleteEntry(b, id).Ok? <==> Open(b, id) && b.entries[id].source == Manual
    ensures Submit(b, id).Ok? <==> id in b.entries && b.entries[id].status == Draft && OpenOn(b, b.entries[id].date)
    ensures Approve(b, id, actor).Ok? <==>
              && id in b.entries && b.entries[id].status == Pending && OpenOn(b, b.entries[id].date)
              && !OwnApproval(b, b.entries[id], actor)
  {
    LinesAccepted(b.accounts, lines);
    hide ValidateLines, LinesFit, LineOk;
  }

  /** An entry is created exactly from fitting lines with one positive side each. */
  lemma WorkflowCreates(b: Books, actor: Option<Id>, date: int, lines: seq<Line>)
    ensures CreateEntry(b, actor, date, lines, Manual, Draft).Ok? <==>
              LinesFit(b.accounts, lines) && forall i :: 0 <= i < |lines| ==> LineOk(lines[i])
  {
    LinesAccepted(b.accounts, lines);
    hide ValidateLines, LinesFit, LineOk;
  }

  /** Whoever posts an entry that is not approved gives the approval, where that is not required to come first. */
  predicate MayPost(b: Books, e: Entry, actor: Option<Id>) {
    e.status == Approved ||
    ((e.status == Draft || e.status == Pending) && !b.settings.requireApproval && !OwnApproval(b, e, actor))
  }

  /** In a consistent state: an entry is posted exactly if it may be, the books are open on its date, and its lines
      still fit; and reversed exactly if it is posted, no reversal itself, and the books are open on a date no
      earlier. */
  lemma WorkflowOfPosting(b: Books, id: Id, actor: Option<Id>, date: int)
    requires Inv(b)
    ensures Post(b, id, actor).Ok? <==>
              && id in b.entries && MayPost(b, b.entries[id], actor) && OpenOn(b, b.entries[id].date)
              && LinesFit(b.accounts, b.entries[id].lines) && |b.entries[id].lines| >= 2
    ensures Reverse(b, id, date, actor).Ok? <==>
              && id in b.entries && b.entries[id].status == Posted && b.entries[id].source != Reversal
              && date >= b.entries[id].date && OpenOn(b, date)
  {
    hide Inv, ValidateLines, MarkRows, Total, PostGuard, Mirrored, LinesFit;
    if id in b.entries {
      LinesAccepted(b.accounts, b.entries[id].lines);
      GuardsHold(b, id);
    }
  }

  lemma GuardsHold(b: Books, id: Id)
    requires Inv(b) && id in b.entries
    ensures PostGuard(b.entries[id].lines) && PostGuard(Mirrored(b.entries[id].lines)) && |b.entries[id].lines| >= 2
  {
    hide RowOk, Gapless, LinkedOnce, Total;
    var lines := b.entries[id].lines;
    assert EntryOk(b, id);
    hide EntryOk, Inv;
    MirroredTotal(lines, true);
    MirroredTotal(lines, false);
    TwoLinesAtLeast(b.accounts, lines);
  }

  /** Balanced lines with one side each are at least two. */
  lemma TwoLinesAtLeast(accounts: map<Id, Account>, lines: seq<Line>)
    requires LinesOk(accounts, lines) && Total(lines, true) == Total(lines, false) && Total(lines, true) > 0
    ensures |lines| >= 2
  {
    if |lines| == 1 {
      OneLineUnbalanced(lines);
    }
  }

  lemma OneLineUnbalanced(lines: seq<Line>)
    requires |lines| == 1
    ensures LineOk(lines[0]) ==> Total(lines, true) != Total(lines, false)
  {
    assert lines[1..] == [];
  }

  /** Missing entries are reported as such; of the other refusals, a version conflict means that all else would have
      been accepted, a bad request the lines or a reversal's date, and a forbidden one the author's own approval. */
  lemma RefusalsMean(b: Books, id: Id, actor: Option<Id>, date: int, lines: seq<Line>, version: int)
    ensures UpdateEntry(b, id, date, lines, version) == Err(NotFound) <==> id !in b.entries
    ensures DeleteEntry(b, id) == Err(NotFound) <==> id !in b.entries
    ensures Submit(b, id) == Err(NotFound) <==> id !in b.entries
    ensures Approve(b, id, actor) == Err(NotFound) <==> id !in b.entries
    ensures Post(b, id, actor) == Err(NotFound) <==> id !in b.entries
    ensures Reverse(b, id, date, actor) == Err(NotFound) <==> id !in b.entries
    ensures UpdateEntry(b, id, date, lines, version) == Err(VersionConflict) <==>
              && Open(b, id) && b.entries[id].source == Manual && LinesFit(b.accounts, lines)
              && b.entries[id].version != version
    ensures UpdateEntry(b, id, date, lines, version) == Err(Conflict) <==>
              id in b.entries && !(Open(b, id) && b.entries[id].source == Manual)
    ensures DeleteEntry(b, id) == Err(Conflict) <==> id in b.entries && !(Open(b, id) && b.entries[id].source == Manual)
    ensures Submit(b, id) == Err(Conflict) <==>
              id in b.entries && !(b.entries[id].status == Draft && OpenOn(b, b.entries[id].date))
    ensures Approve(b, id, actor) == Err(Conflict) <==>
              id in b.entries && !(b.entries[id].status == Pending && OpenOn(b, b.entries[id].date))
    ensures Approve(b, id, actor) == Err(Forbidden) <==>
              && id in b.entries && b.entries[id].status == Pending && OpenOn(b, b.entries[id].date)
              && OwnApproval(b, b.entries[id], actor)
  {
    LinesAccepted(b.accounts, lines);
    hide ValidateLines, LinesFit, LineOk, Total, PostGuard, Mirrored, MarkRows;
    if id in b.entries { hide LinesFit; LinesAccepted(b.accounts, b.entries[id].lines); }
  }

  /** The same of posting and reversing. */
  lemma PostingRefusalsMean(b: Books, id: Id, actor: Option<Id>, date: int)
    requires Inv(b) && id in b.entries
    ensures var e := b.entries[id];
            var ready := e.status == Approved ||
                         ((e.status == Draft || e.status == Pending) && !b.settings.requireApproval);
            && (Post(b, id, actor) == Err(Conflict) <==> !ready || !OpenOn(b, e.date))
            && (Post(b, id, actor) == Err(Forbidden) <==>
                  ready && OpenOn(b, e.date) && e.status != Approved && OwnApproval(b, e, actor))
            && (Reverse(b, id, date, actor) == Err(Conflict) <==>
                  e.status != Posted || e.source == Reversal || (date >= e.date && !OpenOn(b, date)))
            && (Reverse(b, id, date, actor) == Err(BadRequest) <==>
                  e.status == Posted && e.source != Reversal && date < e.date)
  {
    hide Inv, ValidateLines, MarkRows, Total, PostGuard, Mirrored, LinesFit;
    LinesAccepted(b.accounts, b.entries[id].lines);
    GuardsHold(b, id);
  }

  // -------------------------------------------------------------------------
  // Daybook rows
  // -------------------------------------------------------------------------

  /** A money account, and against it an income account for money coming in, an expense account for money going out, or
      another money account for a transfer. */
  predicate RowFits(accounts: map<Id, Account>, input: RowInput) {
    && input.money != input.counter && input.money in accounts && input.counter in accounts
    && (accounts[input.money].subtype == Cash || accounts[input.money].subtype == Bank)
    && match input.kind
       case MoneyIn => accounts[input.counter].kind == Income
       case MoneyOut => accounts[input.counter].kind == Expense
       case Transfer => accounts[input.counter].subtype == Cash || accounts[input.counter].subtype == Bank
  }

  lemma RowAccepted(accounts: map<Id, Account>, input: RowInput)
    ensures LinesFor(accounts, input).Ok? <==> RowFits(accounts, input)
    ensures LinesFor(accounts, input).Err? ==> LinesFor(accounts, input) == Err(BadRequest)
  {
  }

  lemma RowLinesFit(accounts: map<Id, Account>, input: RowInput)
    requires RowFits(accounts, input)
    ensures var lines := LinesOfRow(input);
            && (LinesFit(accounts, lines) <==>
                  0 < input.amount < Money.Limit() && accounts[input.money].isActive &&
                  accounts[input.counter].isActive)
            && |lines| == 2
            && (input.amount > 0 ==> forall i :: 0 <= i < |lines| ==> LineOk(lines[i]))
  {
    hide Money.Limit;
    var lines := LinesOfRow(input);
    TotalOfRow(input);
    assert lines[1..][1..] == [];
    assert Total(lines, false) == Amount(lines[0], false) + (Amount(lines[1], false) + Total([], false));
    assert lines[0].account == input.money || lines[1].account == input.money;
  }

  /** A row is created exactly for fitting accounts in use and a positive amount that money can hold; posted at once
      only with the right to approve, without segregation, and on an open date. */
  lemma RowCreatedExactly(b: Books, actor: Option<Id>, mayApprove: bool, input: RowInput, postNow: bool)
    requires Inv(b)
    ensures CreateRow(b, actor, mayApprove, input, postNow).Ok? <==>
              && RowFits(b.accounts, input) && 0 < input.amount < Money.Limit()
              && b.accounts[input.money].isActive && b.accounts[input.counter].isActive
              && (postNow ==> mayApprove && !b.settings.segregation && OpenOn(b, input.date))
    ensures CreateRow(b, actor, mayApprove, input, postNow) == Err(Forbidden) <==>
              postNow && (!mayApprove || b.settings.segregation)
  {
    RowAccepted(b.accounts, input);
    if RowFits(b.accounts, input) {
      RowLinesFit(b.accounts, input);
      hide Inv, RowFits, LinesFor, LinesOfRow, Money.Limit;
      RowEntryExactly(b, actor, mayApprove, input, postNow);
    }
  }

  lemma RowEntryExactly(b: Books, actor: Option<Id>, mayApprove: bool, input: RowInput, postNow: bool)
    requires Inv(b) && LinesFor(b.accounts, input) == Ok(LinesOfRow(input)) && |LinesOfRow(input)| == 2
    requires LinesFit(b.accounts, LinesOfRow(input)) ==> forall i :: 0 <= i < 2 ==> LineOk(LinesOfRow(input)[i])
    ensures CreateRow(b, actor, mayApprove, input, postNow).Ok? <==>
              && LinesFit(b.accounts, LinesOfRow(input))
              && (postNow ==> mayApprove && !b.settings.segregation && OpenOn(b, input.date))
    ensures CreateRow(b, actor, mayApprove, input, postNow) == Err(Forbidden) <==>
              postNow && (!mayApprove || b.settings.segregation)
  {
    var lines := LinesOfRow(input);
    LinesAccepted(b.accounts, lines);
    hide Inv, LinesFor, LinesOfRow, ValidateLines, LineOk, MarkRows, Money.Limit;
    if LinesFit(b.accounts, lines) {
      assert PostGuard(lines);
    }
    hide LinesFit, PostGuard, Total;
  }

  /** A row is changed exactly while it and its entry are pending, at the version given, with fitting accounts and a
      positive amount; a version conflict means that only the version was wrong. */
  lemma RowUpdatedExactly(b: Books, rid: Id, input: RowInput, version: int)
    requires Inv(b)
    ensures var open := rid in b.rows && b.rows[rid].status == RowPending && b.rows[rid].journal.Some? &&
                        Open(b, b.rows[rid].journal.value);
            && (UpdateRow(b, rid, input, version).Ok? <==>
                  open && RowFits(b.accounts, input) && b.rows[rid].version == version && input.amount > 0)
            && (UpdateRow(b, rid, input, version) == Err(VersionConflict) <==>
                  open && RowFits(b.accounts, input) && b.rows[rid].version != version)
            && (UpdateRow(b, rid, input, version) == Err(NotFound) <==> rid !in b.rows)
            && (UpdateRow(b, rid, input, version) == Err(Conflict) <==> rid in b.rows && !open)
  {
    RowAccepted(b.accounts, input);
    hide Inv, RowFits, LinesFor;
  }

  /** A row can be voided exactly unless it is posted. */
  lemma RowVoidedExactly(b: Books, rid: Id)
    requires Inv(b)
    ensures VoidRow(b, rid).Ok? <==> rid in b.rows && b.rows[rid].status != RowPosted
    ensures VoidRow(b, rid) == Err(NotFound) <==> rid !in b.rows
    ensures VoidRow(b, rid) == Err(Conflict) <==> rid in b.rows && b.rows[rid].status == RowPosted
  {
    hide EntryOk, Gapless, LinesOfRow;
    if rid in b.rows {
      assert RowOk(b, rid);
    }
  }
}

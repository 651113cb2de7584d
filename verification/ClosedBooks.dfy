/** What the past looks like while the books move on: the lock date, and reversals. */
module ClosedBooks {
  import opened Wrappers
  import opened Ledger
  import opened LedgerInvariants
  import opened Reports

  predicate CountsAt(b: Books, id: Id, range: Range) {
    id in b.entries && Counts(b.entries[id], range)
  }

  ghost predicate SamePast(b: Books, c: Books, range: Range) {
    forall id :: (CountsAt(b, id, range) <==> CountsAt(c, id, range)) &&
                 (CountsAt(b, id, range) ==> b.entries[id].lines == c.entries[id].lines)
  }

  lemma {:induction false} SamePastSameSums(b: Books, c: Books, account: Id, range: Range, debit: bool, n: nat)
    requires SamePast(b, c, range)
    ensures SumBelow(b, account, range, debit, n) == SumBelow(c, account, range, debit, n)
  {
    if n > 0 {
      SamePastSameSums(b, c, account, range, debit, n - 1);
      assert CountsAt(b, n - 1, range) <==> CountsAt(c, n - 1, range);
    }
  }

  lemma {:induction false} NothingAboveNext(b: Books, account: Id, range: Range, debit: bool, n: nat)
    requires Inv(b) && n >= b.nextEntry
    ensures SumBelow(b, account, range, debit, n) == AccountSum(b, account, range, debit)
    decreases n
  {
    if n > b.nextEntry {
      NothingAboveNext(b, account, range, debit, n - 1);
      NothingAhead(b);
    }
  }

  ghost predicate LockCovers(b: Books, range: Range) {
    b.settings.lockDate.Some? && range.to <= b.settings.lockDate.value
  }

  lemma PostKeepsPast(b: Books, id: Id, actor: Option<Id>, range: Range)
    requires Inv(b) && LockCovers(b, range) && Post(b, id, actor).Ok?
    ensures SamePast(b, Post(b, id, actor).value, range)
  {
    hide Inv, ValidateLines, PostGuard, Total, MarkRows;
    assert !IsPosted(b.entries[id]);
  }

  lemma ReverseKeepsPast(b: Books, id: Id, date: int, actor: Option<Id>, range: Range)
    requires Inv(b) && LockCovers(b, range) && Reverse(b, id, date, actor).Ok?
    ensures SamePast(b, Reverse(b, id, date, actor).value, range)
  {
    hide Inv, PostGuard, Total, Mirrored, MarkRows;
    NothingAhead(b);
  }

  lemma CreateRowKeepsPast(b: Books, actor: Option<Id>, mayApprove: bool, input: RowInput, postNow: bool, range: Range)
    requires Inv(b) && LockCovers(b, range) && CreateRow(b, actor, mayApprove, input, postNow).Ok?
    ensures SamePast(b, CreateRow(b, actor, mayApprove, input, postNow).value, range)
  {
    hide Inv, ValidateLines, PostGuard, Total, MarkRows, LinesFor, LinesOfRow;
    NothingAhead(b);
  }

  lemma UpdateRowKeepsPast(b: Books, rid: Id, input: RowInput, version: int, range: Range)
    requires UpdateRow(b, rid, input, version).Ok?
    ensures SamePast(b, UpdateRow(b, rid, input, version).value, range)
  {
    hide LinesFor;
  }

  lemma CreateEntryKeepsPast(b: Books, actor: Option<Id>, date: int, lines: seq<Line>, range: Range)
    requires Inv(b) && CreateEntry(b, actor, date, lines, Manual, Draft).Ok?
    ensures SamePast(b, CreateEntry(b, actor, date, lines, Manual, Draft).value, range)
  {
    hide Inv, ValidateLines;
    NothingAhead(b);
  }

  lemma UpdateEntryKeepsPast(b: Books, id: Id, date: int, lines: seq<Line>, version: int, range: Range)
    requires UpdateEntry(b, id, date, lines, version).Ok?
    ensures SamePast(b, UpdateEntry(b, id, date, lines, version).value, range)
  {
    hide ValidateLines;
  }

  lemma NextKeepsPast(b: Books, s: Step, range: Range)
    requires Inv(b) && LockCovers(b, range)
    ensures SamePast(b, Next(b, s), range)
  {
    hide Inv, CreateEntry, UpdateEntry, Post, Reverse, CreateRow, UpdateRow, LockCovers;
    if Apply(b, s).Ok? {
      match s
      case DoCreateEntry(actor, date, lines) => CreateEntryKeepsPast(b, actor, date, lines, range);
      case DoUpdateEntry(id, date, lines, version) => UpdateEntryKeepsPast(b, id, date, lines, version, range);
      case DoPost(id, actor) => PostKeepsPast(b, id, actor, range);
      case DoReverse(id, date, actor) => ReverseKeepsPast(b, id, date, actor, range);
      case DoCreateRow(actor, mayApprove, input, postNow) =>
        CreateRowKeepsPast(b, actor, mayApprove, input, postNow, range);
      case DoUpdateRow(rid, input, version) => UpdateRowKeepsPast(b, rid, input, version, range);
      case _ =>
    }
  }

  /** The lock date stays on or after the end of the range before every transaction of the run. */
  ghost predicate LockHolds(b: Books, steps: seq<Step>, range: Range)
    decreases |steps|
  {
    steps != [] ==> LockCovers(b, range) && LockHolds(Next(b, steps[0]), steps[1..], range)
  }

  /** Closed books stay closed: no run of transactions under the lock, reversals included, changes what any
      account's debits or credits were on any date the lock covers. */
  lemma {:induction false} ClosedBooksStayClosed(b: Books, steps: seq<Step>, account: Id, range: Range, debit: bool)
    requires Inv(b) && LockHolds(b, steps, range)
    ensures AccountSum(Run(b, steps), account, range, debit) == AccountSum(b, account, range, debit)
    decreases |steps|
  {
    if steps != [] {
      var c := Next(b, steps[0]);
      NextKeeps(b, steps[0]);
      NextKeepsPast(b, steps[0], range);
      hide Inv, Next, SumBelow, SamePast;
      ClosedBooksStayClosed(c, steps[1..], account, range, debit);
      var n := if b.nextEntry < c.nextEntry then c.nextEntry else b.nextEntry;
      SamePastSameSums(b, c, account, range, debit, n);
      NothingAboveNext(b, account, range, debit, n);
      NothingAboveNext(c, account, range, debit, n);
    }
  }

  // -------------------------------------------------------------------------
  // Reversals cancel
  // -------------------------------------------------------------------------

  lemma {:induction false} MirroredLineSum(lines: seq<Line>, account: Id, debit: bool)
    ensures LineSum(Mirrored(lines), account, debit) == LineSum(lines, account, !debit)
  {
    if lines != [] {
      assert Mirrored(lines)[1..] == Mirrored(lines[1..]);
      MirroredLineSum(lines[1..], account, debit);
    }
  }

  /** From the mirror's date on, a reversed entry and its mirror add zero to every account; before it, the
      original counts alone. */
  lemma ReversalCancels(b: Books, id: Id, account: Id, asOf: int)
    requires Inv(b) && id in b.entries && b.entries[id].status == Reversed
    ensures b.entries[id].reversedBy.Some?
    ensures var r, range := b.entries[id].reversedBy.value, Range(None, asOf);
            r in b.entries && (asOf >= b.entries[r].date ==>
              Contribution(b, id, account, range, true) + Contribution(b, r, account, range, true) ==
              Contribution(b, id, account, range, false) + Contribution(b, r, account, range, false))
    ensures var r, range := b.entries[id].reversedBy.value, Range(None, asOf);
            asOf < b.entries[r].date ==> forall d :: Contribution(b, r, account, range, d) == 0
  {
    assert EntryOk(b, id);
    var r := b.entries[id].reversedBy.value;
    assert EntryOk(b, r);
    hide Inv, Mirrored, LineSum, EntryOk;
    MirroredLineSum(b.entries[id].lines, account, true);
    MirroredLineSum(b.entries[id].lines, account, false);
  }
}

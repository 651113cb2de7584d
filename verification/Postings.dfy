/** What a transaction does to the totals, and what it can never do to a posted entry. */
module Postings {
  import opened Wrappers
  import opened Ledger
  import opened LedgerInvariants
  import opened Reports
  import opened ClosedBooks

  // -------------------------------------------------------------------------
  // Posted entries are final
  // -------------------------------------------------------------------------

  predicate PostedIn(b: Books, id: Id) {
    id in b.entries && IsPosted(b.entries[id])
  }

  /** The same posted entry: only its status may have become reversed, with the link to the reversal. */
  predicate SamePosted(b: Books, c: Books, id: Id)
    requires id in b.entries
  {
    && PostedIn(c, id)
    && var e, f := b.entries[id], c.entries[id];
       && f.date == e.date && f.lines == e.lines && f.total == e.total && f.number == e.number && f.source == e.source
       && f.reversalOf == e.reversalOf && f.createdBy == e.createdBy && f.approvedBy == e.approvedBy
       && (e.status == Reversed ==> f.status == Reversed && f.reversedBy == e.reversedBy)
  }

  lemma PostKeepsPosted(b: Books, id: Id, actor: Option<Id>, i: Id)
    requires Inv(b) && Post(b, id, actor).Ok? && PostedIn(b, i)
    ensures SamePosted(b, Post(b, id, actor).value, i)
  {
    hide Inv, ValidateLines, PostGuard, Total, MarkRows;
  }

  lemma ReverseKeepsPosted(b: Books, id: Id, date: int, actor: Option<Id>, i: Id)
    requires Inv(b) && Reverse(b, id, date, actor).Ok? && PostedIn(b, i)
    ensures SamePosted(b, Reverse(b, id, date, actor).value, i)
  {
    NothingAhead(b);
    hide Inv, PostGuard, Total, Mirrored, MarkRows;
  }

  lemma CreateRowKeepsPosted(b: Books, actor: Option<Id>, mayApprove: bool, input: RowInput, postNow: bool, i: Id)
    requires Inv(b) && CreateRow(b, actor, mayApprove, input, postNow).Ok? && PostedIn(b, i)
    ensures SamePosted(b, CreateRow(b, actor, mayApprove, input, postNow).value, i)
  {
    NothingAhead(b);
    CreateRowIs(b, actor, mayApprove, input, postNow);
    hide Inv, ValidateLines, PostGuard, Total, MarkRows, LinesFor, CreateRow, LinesOfRow;
  }

  /** Steps that neither post nor reverse leave the posted entries exactly as they are. */
  ghost predicate Quiet(b: Books, c: Books) {
    forall i :: (PostedIn(b, i) <==> PostedIn(c, i)) && (PostedIn(b, i) ==> c.entries[i] == b.entries[i])
  }

  lemma QuietRewrite(b: Books, c: Books, id: Id, e: Entry)
    requires c.entries == b.entries[id := e] && !PostedIn(b, id) && !IsPosted(e)
    ensures Quiet(b, c)
  {
  }

  lemma QuietRemoval(b: Books, c: Books, id: Id)
    requires c.entries == b.entries - {id} && !PostedIn(b, id)
    ensures Quiet(b, c)
  {
  }

  predicate Posts(s: Step) {
    s.DoPost? || s.DoReverse? || s.DoCreateRow?
  }

  lemma CreationQuiet(b: Books, s: Step)
    requires Inv(b) && s.DoCreateEntry? && Apply(b, s).Ok?
    ensures Quiet(b, Next(b, s))
  {
    NothingAhead(b);
    hide Inv, ValidateLines, Quiet;
    QuietRewrite(b, Next(b, s), b.nextEntry, Next(b, s).entries[b.nextEntry]);
  }

  lemma UpdateQuiet(b: Books, s: Step)
    requires s.DoUpdateEntry? && Apply(b, s).Ok?
    ensures Quiet(b, Next(b, s))
  {
    hide ValidateLines, Quiet;
    QuietRewrite(b, Next(b, s), s.id, Next(b, s).entries[s.id]);
  }

  lemma DeletionQuiet(b: Books, s: Step)
    requires s.DoDeleteEntry? && Apply(b, s).Ok?
    ensures Quiet(b, Next(b, s))
  {
    hide Quiet;
    QuietRemoval(b, Next(b, s), s.id);
  }

  lemma RowStepQuiet(b: Books, s: Step)
    requires (s.DoUpdateRow? || s.DoVoidRow?) && Apply(b, s).Ok?
    ensures Quiet(b, Next(b, s))
  {
    hide LinesFor, Quiet;
    var c := Next(b, s);
    var journal := b.rows[s.rid].journal;
    if s.DoUpdateRow? {
      QuietRewrite(b, c, journal.value, c.entries[journal.value]);
    } else if c.entries == b.entries {
      QuietSame(b, c);
    } else {
      QuietRemoval(b, c, journal.value);
    }
  }

  lemma QuietSame(b: Books, c: Books)
    requires c.entries == b.entries
    ensures Quiet(b, c)
  {
  }

  lemma StatusStepQuiet(b: Books, s: Step)
    requires (s.DoSubmit? || s.DoApprove?) && Apply(b, s).Ok?
    ensures Quiet(b, Next(b, s))
  {
    hide Quiet;
    QuietRewrite(b, Next(b, s), s.id, Next(b, s).entries[s.id]);
  }

  lemma OthersQuiet(b: Books, s: Step)
    requires Inv(b) && !Posts(s)
    ensures Quiet(b, Next(b, s))
  {
    hide Inv, Quiet, CreateEntry, UpdateEntry, DeleteEntry, Submit, Approve, Post, Reverse, CreateRow, UpdateRow,
         VoidRow;
    if Apply(b, s).Err? {
      QuietSame(b, b);
    } else if s.DoCreateEntry? {
      CreationQuiet(b, s);
    } else if s.DoUpdateEntry? {
      UpdateQuiet(b, s);
    } else if s.DoDeleteEntry? {
      DeletionQuiet(b, s);
    } else if s.DoUpdateRow? || s.DoVoidRow? {
      RowStepQuiet(b, s);
    } else if s.DoSubmit? || s.DoApprove? {
      StatusStepQuiet(b, s);
    } else {
      QuietSame(b, Next(b, s));
    }
  }

  lemma NextKeepsPosted(b: Books, s: Step, i: Id)
    requires Inv(b) && PostedIn(b, i)
    ensures SamePosted(b, Next(b, s), i)
  {
    if Posts(s) {
      PostsKeepPosted(b, s, i);
    } else {
      OthersQuiet(b, s);
      hide Inv, Next;
    }
  }

  lemma PostsKeepPosted(b: Books, s: Step, i: Id)
    requires Inv(b) && PostedIn(b, i) && Posts(s)
    ensures SamePosted(b, Next(b, s), i)
  {
    hide Inv, SamePosted, Post, Reverse, CreateRow;
    if Apply(b, s).Ok? {
      match s
      case DoPost(id, actor) => PostKeepsPosted(b, id, actor, i);
      case DoReverse(id, date, actor) => ReverseKeepsPosted(b, id, date, actor, i);
      case DoCreateRow(actor, mayApprove, input, postNow) =>
        CreateRowKeepsPosted(b, actor, mayApprove, input, postNow, i);
      case _ =>
    } else {
      StaysPosted(b, i);
    }
  }

  lemma StaysPosted(b: Books, i: Id)
    requires PostedIn(b, i)
    ensures SamePosted(b, b, i)
  {
  }

  /** Posting is final: through any run a posted entry keeps its date, lines, total, number, author and approver; the
      one thing that can happen to it is to be reversed, once. */
  lemma {:induction false} PostedIsFinal(b: Books, steps: seq<Step>, i: Id)
    requires Inv(b) && PostedIn(b, i)
    ensures SamePosted(b, Run(b, steps), i)
    decreases |steps|
  {
    if steps != [] {
      NextKeeps(b, steps[0]);
      NextKeepsPosted(b, steps[0], i);
      hide Inv, Next;
      PostedIsFinal(Next(b, steps[0]), steps[1..], i);
    }
  }

  // -------------------------------------------------------------------------
  // What moves the totals
  // -------------------------------------------------------------------------

  predicate InRange(date: int, range: Range) {
    date <= range.to && (range.from.Some? ==> date >= range.from.value)
  }

  /** How much a transaction adds to one side of an account over a period: the lines it posts, or the mirror of the
      lines it reverses, if their date lies in the period; nothing else adds anything. */
  function Added(b: Books, s: Step, account: Id, range: Range, debit: bool): int {
    if Apply(b, s).Err? then 0
    else match s
         case DoPost(id, _) =>
           if id in b.entries && InRange(b.entries[id].date, range)
           then LineSum(b.entries[id].lines, account, debit) else 0
         case DoReverse(id, date, _) =>
           if id in b.entries && InRange(date, range) then LineSum(b.entries[id].lines, account, !debit) else 0
         case DoCreateRow(_, _, input, postNow) =>
           if postNow && InRange(input.date, range) then LineSum(LinesOfRow(input), account, debit) else 0
         case _ => 0
  }

  /** Apart from entry id, which was not posted before, the same entries are posted, with the same dates and lines. */
  ghost predicate OnlyPosts(b: Books, c: Books, id: Id) {
    && !PostedIn(b, id)
    && (forall i :: i != id ==> (PostedIn(b, i) <==> PostedIn(c, i)))
    && (forall i :: i != id && PostedIn(b, i) ==>
        c.entries[i].date == b.entries[i].date && c.entries[i].lines == b.entries[i].lines)
  }

  lemma {:induction false} SumsDiffer(b: Books, c: Books, id: Id, account: Id, range: Range, debit: bool, n: nat)
    requires OnlyPosts(b, c, id)
    ensures SumBelow(c, account, range, debit, n) ==
            SumBelow(b, account, range, debit, n) + if id < n then Contribution(c, id, account, range, debit) else 0
  {
    if n > 0 {
      SumsDiffer(b, c, id, account, range, debit, n - 1);
      assert n - 1 != id ==> (PostedIn(b, n - 1) <==> PostedIn(c, n - 1));
      hide LineSum;
    }
  }

  lemma TotalsDiffer(b: Books, c: Books, id: Id, account: Id, range: Range, debit: bool)
    requires Inv(b) && Inv(c) && OnlyPosts(b, c, id)
    ensures AccountSum(c, account, range, debit) ==
            AccountSum(b, account, range, debit) + Contribution(c, id, account, range, debit)
  {
    hide OnlyPosts, SumBelow, Contribution;
    var n := b.nextEntry + c.nextEntry + id + 1;
    SumsDiffer(b, c, id, account, range, debit, n);
    NothingAboveNext(b, account, range, debit, n);
    NothingAboveNext(c, account, range, debit, n);
  }

  lemma PostOnlyPosts(b: Books, id: Id, actor: Option<Id>)
    requires Post(b, id, actor).Ok?
    ensures var c := Post(b, id, actor).value;
            && OnlyPosts(b, c, id) && PostedIn(c, id)
            && c.entries[id].date == b.entries[id].date && c.entries[id].lines == b.entries[id].lines
  {
    hide Inv, ValidateLines, PostGuard, Total, MarkRows;
  }

  lemma ReverseOnlyPosts(b: Books, id: Id, date: int, actor: Option<Id>)
    requires Inv(b) && Reverse(b, id, date, actor).Ok?
    ensures var c, m := Reverse(b, id, date, actor).value, b.nextEntry;
            && OnlyPosts(b, c, m) && PostedIn(c, m) && c.entries[m].date == date
            && c.entries[m].lines == Mirrored(b.entries[id].lines)
  {
    NothingAhead(b);
    hide Inv, PostGuard, Total, Mirrored, MarkRows;
  }

  lemma InsertedPostsNothing(b: Books, actor: Option<Id>, input: RowInput)
    requires Inv(b)
    ensures var d, id := InsertedRow(b, actor, input, LinesOfRow(input)), b.nextEntry;
            var approved := d.(entries := d.entries[id := d.entries[id].(status := Approved, approvedBy := actor)]);
            && OnlyPosts(b, d, id) && !PostedIn(d, id) && OnlyPosts(b, approved, id) && !PostedIn(approved, id)
            && approved.entries[id].date == input.date && approved.entries[id].lines == LinesOfRow(input)
  {
    hide Inv, LinesOfRow;
    NothingAhead(b);
  }

  lemma PostsCompose(b: Books, m: Books, c: Books, id: Id)
    requires OnlyPosts(b, m, id) && OnlyPosts(m, c, id)
    ensures OnlyPosts(b, c, id)
  {
  }

  lemma CreateRowOnlyPosts(b: Books, actor: Option<Id>, mayApprove: bool, input: RowInput, postNow: bool)
    requires Inv(b) && CreateRow(b, actor, mayApprove, input, postNow).Ok?
    ensures var c, id := CreateRow(b, actor, mayApprove, input, postNow).value, b.nextEntry;
            && OnlyPosts(b, c, id) && (PostedIn(c, id) <==> postNow)
            && (postNow ==> c.entries[id].date == input.date && c.entries[id].lines == LinesOfRow(input))
  {
    CreateRowIs(b, actor, mayApprove, input, postNow);
    InsertedPostsNothing(b, actor, input);
    hide Inv, OnlyPosts, LinesFor, CreateRow, LinesOfRow, Post;
    if postNow {
      var d, id := InsertedRow(b, actor, input, LinesOfRow(input)), b.nextEntry;
      var approved := d.(entries := d.entries[id := d.entries[id].(status := Approved, approvedBy := actor)]);
      PostOnlyPosts(approved, id, actor);
      PostsCompose(b, approved, CreateRow(b, actor, mayApprove, input, postNow).value, id);
    }
  }

  lemma NothingPosted(b: Books, c: Books, account: Id, range: Range, debit: bool)
    requires Inv(b) && Inv(c) && Quiet(b, c)
    ensures AccountSum(c, account, range, debit) == AccountSum(b, account, range, debit)
  {
    NothingAhead(b);
    NothingAhead(c);
    var far := c.nextEntry + b.nextEntry;
    QuietPostsNothing(b, c, far);
    hide Inv, OnlyPosts, AccountSum, Quiet;
    TotalsDiffer(b, c, far, account, range, debit);
  }

  lemma QuietPostsNothing(b: Books, c: Books, id: Id)
    requires Quiet(b, c) && id !in b.entries
    ensures OnlyPosts(b, c, id)
  {
    hide IsPosted;
  }

  lemma PostMovesTotals(b: Books, id: Id, actor: Option<Id>, account: Id, range: Range, debit: bool)
    requires Inv(b) && Post(b, id, actor).Ok?
    ensures id in b.entries
    ensures AccountSum(Post(b, id, actor).value, account, range, debit) == AccountSum(b, account, range, debit) +
            if InRange(b.entries[id].date, range) then LineSum(b.entries[id].lines, account, debit) else 0
  {
    PostKeeps(b, id, actor);
    PostOnlyPosts(b, id, actor);
    hide Inv, OnlyPosts, AccountSum, Post, LineSum;
    TotalsDiffer(b, Post(b, id, actor).value, id, account, range, debit);
  }

  lemma ReverseMovesTotals(b: Books, id: Id, date: int, actor: Option<Id>, account: Id, range: Range, debit: bool)
    requires Inv(b) && Reverse(b, id, date, actor).Ok?
    ensures id in b.entries
    ensures AccountSum(Reverse(b, id, date, actor).value, account, range, debit) ==
            AccountSum(b, account, range, debit) +
            if InRange(date, range) then LineSum(b.entries[id].lines, account, !debit) else 0
  {
    ReverseKeeps(b, id, date, actor);
    ReverseOnlyPosts(b, id, date, actor);
    MirroredLineSum(b.entries[id].lines, account, debit);
    hide Inv, OnlyPosts, AccountSum, Reverse, LineSum, Mirrored;
    TotalsDiffer(b, Reverse(b, id, date, actor).value, b.nextEntry, account, range, debit);
  }

  lemma CreateRowMovesTotals(b: Books, actor: Option<Id>, mayApprove: bool, input: RowInput, postNow: bool, account: Id,
                             range: Range, debit: bool)
    requires Inv(b) && CreateRow(b, actor, mayApprove, input, postNow).Ok?
    ensures AccountSum(CreateRow(b, actor, mayApprove, input, postNow).value, account, range, debit) ==
            AccountSum(b, account, range, debit) +
            if postNow && InRange(input.date, range) then LineSum(LinesOfRow(input), account, debit) else 0
  {
    CreateRowKeeps(b, actor, mayApprove, input, postNow);
    CreateRowOnlyPosts(b, actor, mayApprove, input, postNow);
    hide Inv, OnlyPosts, AccountSum, CreateRow, LineSum, LinesOfRow;
    TotalsDiffer(b, CreateRow(b, actor, mayApprove, input, postNow).value, b.nextEntry, account, range, debit);
  }

  lemma OthersMoveNothing(b: Books, s: Step, account: Id, range: Range, debit: bool)
    requires Inv(b) && !Posts(s)
    ensures AccountSum(Next(b, s), account, range, debit) == AccountSum(b, account, range, debit)
  {
    hide Inv, AccountSum, Quiet, Next;
    NextKeeps(b, s);
    OthersQuiet(b, s);
    NothingPosted(b, Next(b, s), account, range, debit);
  }

  /** Every transaction moves the totals of every account, over every period, by exactly what it posts. */
  lemma NextMovesTotals(b: Books, s: Step, account: Id, range: Range, debit: bool)
    requires Inv(b)
    ensures AccountSum(Next(b, s), account, range, debit) ==
            AccountSum(b, account, range, debit) + Added(b, s, account, range, debit)
  {
    hide Inv, AccountSum, LineSum, OnlyPosts, CreateEntry, UpdateEntry, DeleteEntry, Submit, Approve, Post, Reverse,
         CreateRow, UpdateRow, VoidRow, LinesOfRow, InRange, CreateAccount, UpdateAccount, UpdateSettings, Quiet;
    if Apply(b, s).Err? { return; }
    match s
    case DoPost(id, actor) => PostMovesTotals(b, id, actor, account, range, debit);
    case DoReverse(id, date, actor) => ReverseMovesTotals(b, id, date, actor, account, range, debit);
    case DoCreateRow(actor, mayApprove, input, postNow) =>
      CreateRowMovesTotals(b, actor, mayApprove, input, postNow, account, range, debit);
    case _ => OthersMoveNothing(b, s, account, range, debit);
  }

  function AddedOver(b: Books, steps: seq<Step>, account: Id, range: Range, debit: bool): int
    decreases |steps|
  {
    if steps == [] then 0
    else Added(b, steps[0], account, range, debit) + AddedOver(Next(b, steps[0]), steps[1..], account, range, debit)
  }

  /** Over any run an account's totals are what they were plus what the run's transactions posted. */
  lemma {:induction false} RunMovesTotals(b: Books, steps: seq<Step>, account: Id, range: Range, debit: bool)
    requires Inv(b)
    ensures AccountSum(Run(b, steps), account, range, debit) ==
            AccountSum(b, account, range, debit) + AddedOver(b, steps, account, range, debit)
    decreases |steps|
  {
    if steps != [] {
      NextKeeps(b, steps[0]);
      NextMovesTotals(b, steps[0], account, range, debit);
      hide Inv, Next, AccountSum, Added;
      RunMovesTotals(Next(b, steps[0]), steps[1..], account, range, debit);
    }
  }
}

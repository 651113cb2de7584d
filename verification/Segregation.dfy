/** Segregation of duties over whole runs. */
module Segregation {
  import opened Wrappers
  import opened Ledger
  import opened LedgerInvariants
  import opened Postings
  import Money

  /** The author is not the approver; a reversal, which is posted at once, is exempt. */
  predicate Apart(e: Entry) {
    e.source != Reversal && e.createdBy.Some? ==> e.approvedBy != e.createdBy
  }

  ghost predicate AllApart(b: Books) {
    forall id :: id in b.entries ==> Apart(b.entries[id])
  }

  /** Besides, whoever approved is on record. */
  predicate Separate(e: Entry) {
    Apart(e) && (e.status == Approved ==> e.approvedBy.Some?)
  }

  ghost predicate AllSeparate(b: Books) {
    forall id :: id in b.entries ==> Separate(b.entries[id])
  }

  /** The setting stays on, and approvals are given by users. */
  ghost predicate Segregated(b: Books, steps: seq<Step>)
    decreases |steps|
  {
    && b.settings.segregation
    && (steps != [] ==> (steps[0].DoApprove? ==> steps[0].actor.Some?) && Segregated(Next(b, steps[0]), steps[1..]))
  }

  lemma PostKeepsSeparate(b: Books, id: Id, actor: Option<Id>)
    requires b.settings.segregation && AllSeparate(b) && Post(b, id, actor).Ok?
    ensures AllSeparate(Post(b, id, actor).value)
  {
    hide ValidateLines, PostGuard, Total, MarkRows;
  }

  lemma CreateRowKeepsSeparate(b: Books, actor: Option<Id>, mayApprove: bool, input: RowInput, postNow: bool)
    requires b.settings.segregation && AllSeparate(b) && CreateRow(b, actor, mayApprove, input, postNow).Ok?
    ensures !postNow && AllSeparate(CreateRow(b, actor, mayApprove, input, postNow).value)
  {
    hide ValidateLines, LinesFor, Post, Total;
  }

  lemma ReverseKeepsSeparate(b: Books, id: Id, date: int, actor: Option<Id>)
    requires AllSeparate(b) && Reverse(b, id, date, actor).Ok?
    ensures AllSeparate(Reverse(b, id, date, actor).value)
  {
    hide PostGuard, Total, Mirrored, MarkRows;
  }

  lemma EntryStepKeepsSeparate(b: Books, s: Step)
    requires b.settings.segregation && AllSeparate(b) && (s.DoApprove? ==> s.actor.Some?)
    requires !(s.DoPost? || s.DoReverse? || s.DoCreateRow?)
    ensures AllSeparate(Next(b, s))
  {
    hide ValidateLines, LinesFor, Post, Reverse, CreateRow, Total;
  }

  lemma NextKeepsSeparate(b: Books, s: Step)
    requires b.settings.segregation && AllSeparate(b) && (s.DoApprove? ==> s.actor.Some?)
    ensures AllSeparate(Next(b, s))
  {
    if Apply(b, s).Err? { return; }
    hide AllSeparate, CreateEntry, UpdateEntry, DeleteEntry, Submit, Approve, Post, Reverse, CreateRow, UpdateRow,
         VoidRow;
    match s
    case DoPost(id, actor) => PostKeepsSeparate(b, id, actor);
    case DoReverse(id, date, actor) => ReverseKeepsSeparate(b, id, date, actor);
    case DoCreateRow(actor, mayApprove, input, postNow) => CreateRowKeepsSeparate(b, actor, mayApprove, input, postNow);
    case _ => EntryStepKeepsSeparate(b, s);
  }

  /** Posting needs a second person too, but that person may have come before: an author posts an entry exactly when
      somebody else has approved it. */
  lemma AuthorPostsWhatOthersApproved(b: Books, id: Id)
    requires b.settings.segregation && AllSeparate(b) && id in b.entries
    requires b.entries[id].source != Reversal && b.entries[id].createdBy.Some?
    requires exists other: Option<Id> :: other != b.entries[id].createdBy && Post(b, id, other).Ok?
    ensures Post(b, id, b.entries[id].createdBy).Ok? <==>
            b.entries[id].approvedBy.Some? && b.entries[id].approvedBy != b.entries[id].createdBy &&
            b.entries[id].status == Approved
  {
    hide ValidateLines, PostGuard, Total, MarkRows;
  }

  /** While segregation of duties stays on and users give the approvals, no entry but a reversal is ever approved by
      its own author, whoever takes which step. */
  lemma {:induction false} AuthorsNeverApprove(b: Books, steps: seq<Step>)
    requires AllSeparate(b) && Segregated(b, steps)
    ensures AllSeparate(Run(b, steps))
    decreases |steps|
  {
    if steps != [] {
      NextKeepsSeparate(b, steps[0]);
      hide AllSeparate, Next;
      AuthorsNeverApprove(Next(b, steps[0]), steps[1..]);
    }
  }

  // -------------------------------------------------------------------------
  // Approvals by actors without a user
  // -------------------------------------------------------------------------

  /** The author posts an entry that was approved by an actor without a user, who left the approver empty. */
  predicate AuthorPostsUnsigned(b: Books, s: Step) {
    && s.DoPost? && Apply(b, s).Ok? && s.id in b.entries
    && var e := b.entries[s.id];
       e.source != Reversal && e.createdBy.Some? && e.createdBy == s.actor && e.status == Approved && e.approvedBy.None?
  }

  /** Posting records the author as the approver exactly then. */
  lemma PostRecordsAuthor(b: Books, id: Id, actor: Option<Id>)
    requires b.settings.segregation && Post(b, id, actor).Ok? && id in b.entries && Apart(b.entries[id])
    ensures id in Post(b, id, actor).value.entries
    ensures !Apart(Post(b, id, actor).value.entries[id]) <==> AuthorPostsUnsigned(b, DoPost(id, actor))
  {
    hide ValidateLines, PostGuard, Total, MarkRows;
  }

  lemma PostKeepsApart(b: Books, id: Id, actor: Option<Id>)
    requires b.settings.segregation && AllApart(b) && Post(b, id, actor).Ok?
    ensures AllApart(Post(b, id, actor).value) <==> !AuthorPostsUnsigned(b, DoPost(id, actor))
    ensures AuthorPostsUnsigned(b, DoPost(id, actor)) ==> BreachPosted(Post(b, id, actor).value, id)
  {
    PostRecordsAuthor(b, id, actor);
    hide ValidateLines, PostGuard, Total, MarkRows, AuthorPostsUnsigned, Apart;
  }

  lemma ReverseKeepsApart(b: Books, id: Id, date: int, actor: Option<Id>)
    requires AllApart(b) && Reverse(b, id, date, actor).Ok?
    ensures AllApart(Reverse(b, id, date, actor).value)
  {
    hide PostGuard, Total, Mirrored, MarkRows;
  }

  lemma CreateRowKeepsApart(b: Books, actor: Option<Id>, mayApprove: bool, input: RowInput, postNow: bool)
    requires b.settings.segregation && AllApart(b) && CreateRow(b, actor, mayApprove, input, postNow).Ok?
    ensures AllApart(CreateRow(b, actor, mayApprove, input, postNow).value)
  {
    hide ValidateLines, LinesFor, Post, Total;
  }

  lemma EntryStepKeepsApart(b: Books, s: Step)
    requires b.settings.segregation && AllApart(b) && !(s.DoPost? || s.DoReverse? || s.DoCreateRow?)
    ensures AllApart(Next(b, s))
  {
    hide ValidateLines, LinesFor, Post, Reverse, CreateRow, Total;
  }

  ghost predicate BreachPosted(b: Books, id: Id) {
    PostedIn(b, id) && !Apart(b.entries[id])
  }

  /** Under the setting a transaction makes an author the approver exactly when it is such a posting. */
  lemma NextApartExactly(b: Books, s: Step)
    requires b.settings.segregation && AllApart(b)
    ensures AllApart(Next(b, s)) <==> !AuthorPostsUnsigned(b, s)
    ensures AuthorPostsUnsigned(b, s) ==> BreachPosted(Next(b, s), s.id)
  {
    hide AllApart, Apart, BreachPosted, CreateEntry, UpdateEntry, DeleteEntry, Submit, Approve, Post, Reverse,
         CreateRow, UpdateRow, VoidRow;
    if Apply(b, s).Ok? {
      match s
      case DoPost(id, actor) => PostKeepsApart(b, id, actor);
      case DoReverse(id, date, actor) => ReverseKeepsApart(b, id, date, actor);
      case DoCreateRow(actor, mayApprove, input, postNow) => CreateRowKeepsApart(b, actor, mayApprove, input, postNow);
      case _ => EntryStepKeepsApart(b, s);
    }
  }

  /** The setting stays on; anybody may approve. */
  ghost predicate StaysOn(b: Books, steps: seq<Step>)
    decreases |steps|
  {
    b.settings.segregation && (steps != [] ==> StaysOn(Next(b, steps[0]), steps[1..]))
  }

  ghost predicate SomeUnsignedPost(b: Books, steps: seq<Step>)
    decreases |steps|
  {
    steps != [] && (AuthorPostsUnsigned(b, steps[0]) || SomeUnsignedPost(Next(b, steps[0]), steps[1..]))
  }

  lemma BreachStays(b: Books, steps: seq<Step>, id: Id)
    requires Inv(b) && BreachPosted(b, id)
    ensures !AllApart(Run(b, steps))
  {
    hide Inv, Run;
    PostedIsFinal(b, steps, id);
  }

  /** Over any run under the setting, whoever gives the approvals: no entry but a reversal carries its author as the
      approver, exactly unless an author posted an entry approved by an actor without a user. */
  lemma {:induction false} AuthorsApproveExactly(b: Books, steps: seq<Step>)
    requires Inv(b) && AllApart(b) && StaysOn(b, steps)
    ensures AllApart(Run(b, steps)) <==> !SomeUnsignedPost(b, steps)
    decreases |steps|
  {
    if steps != [] {
      NextApartExactly(b, steps[0]);
      NextKeeps(b, steps[0]);
      hide Inv, AllApart, Next, AuthorPostsUnsigned, BreachPosted;
      if AuthorPostsUnsigned(b, steps[0]) {
        BreachStays(Next(b, steps[0]), steps[1..], steps[0].id);
      } else {
        AuthorsApproveExactly(Next(b, steps[0]), steps[1..]);
      }
    }
  }

  /** The case occurs: user 7 submits an entry, an API key approves it, and user 7 posts it. */
  lemma AuthorApprovesInTheEnd()
    ensures var account := Account(Asset, Other, true, false, 1);
            var lines := [Line(0, 5_000, 0), Line(1, 0, 5_000)];
            var e := Entry(None, 0, Manual, Pending, 5_000, Some(7), None, lines, None, None, 1);
            var b := Books(map[0 := account, 1 := account], map[0 := e], map[], 1, 0, 1, Settings(None, true, true, 1));
            var c := Run(b, [DoApprove(0, None), DoPost(0, Some(7))]);
            AllApart(b) && 0 in c.entries && c.entries[0].status == Posted && c.entries[0].approvedBy == Some(7)
  {
    var account := Account(Asset, Other, true, false, 1);
    var lines := [Line(0, 5_000, 0), Line(1, 0, 5_000)];
    var e := Entry(None, 0, Manual, Pending, 5_000, Some(7), None, lines, None, None, 1);
    var b := Books(map[0 := account, 1 := account], map[0 := e], map[], 1, 0, 1, Settings(None, true, true, 1));
    TwoLinesValid(b.accounts, lines);
    hide ValidateLines, Total, PostGuard, Run, Next;
    UnsignedApprovalPosts(b, 0);
    TwoSteps(b, DoApprove(0, None), DoPost(0, Some(7)));
  }

  /** A pending entry of valid lines, approved by an actor without a user, can be posted by its author. */
  lemma UnsignedApprovalPosts(b: Books, id: Id)
    requires id in b.entries && b.entries[id].status == Pending && b.entries[id].createdBy.Some?
    requires !Locked(b.settings, b.entries[id].date)
    requires ValidateLines(b.accounts, b.entries[id].lines).Ok? && PostGuard(b.entries[id].lines)
    ensures var c := Next(Next(b, DoApprove(id, None)), DoPost(id, b.entries[id].createdBy));
            id in c.entries && c.entries[id].status == Posted && c.entries[id].approvedBy == b.entries[id].createdBy
  {
    hide ValidateLines, Total, MarkRows, PostGuard;
    var e := b.entries[id];
    var approved := Next(b, DoApprove(id, None));
    var e' := e.(status := Approved, approvedBy := None, version := e.version + 1);
    assert approved == b.(entries := b.entries[id := e']);
    assert Post(approved, id, e.createdBy).Ok?;
  }

  lemma TwoSteps(b: Books, s: Step, t: Step)
    ensures Run(b, [s, t]) == Next(Next(b, s), t)
  {
    hide Next;
    assert [s, t][1..] == [t] && [t][1..] == [];
    assert Run(Next(b, s), [t]) == Run(Next(Next(b, s), t), []);
  }

  lemma TwoLinesValid(accounts: map<Id, Account>, lines: seq<Line>)
    requires lines == [Line(0, 5_000, 0), Line(1, 0, 5_000)]
    requires 0 in accounts && accounts[0].isActive && 1 in accounts && accounts[1].isActive
    ensures ValidateLines(accounts, lines).Ok? && PostGuard(lines)
  {
    TotalOfTwo(lines, true);
    TotalOfTwo(lines, false);
    hide Total, Money.FromUnits, Money.ToUnits;
    Money.MoneyRoundTrip(5_000);
  }

  lemma TotalOfTwo(lines: seq<Line>, debit: bool)
    requires |lines| == 2
    ensures Total(lines, debit) == Amount(lines[0], debit) + Amount(lines[1], debit)
  {
    assert Total(lines[1..], debit) == Amount(lines[1], debit) + Total(lines[1..][1..], debit);
    assert lines[1..][1..] == [];
  }
}

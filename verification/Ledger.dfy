/** The double-entry ledger and the daybook in front of it. Each function is one transaction on the rows of a
    tenant database; an error stands for a rolled-back transaction. Amounts are units of 0.0001. */
module Ledger {
  import opened Wrappers
  import Money

  type Id = nat

  datatype AccountType = Asset | Liability | Equity | Income | Expense

  datatype Subtype = Cash | Bank | RetainedEarnings | Other

  datatype Account = Account(kind: AccountType, subtype: Subtype, isActive: bool, isSystem: bool, version: int)

  datatype Status = Draft | Pending | Approved | Posted | Reversed

  datatype Source = Manual | Opening | FromDaybook | Reversal

  datatype Line = Line(account: Id, debit: int, credit: int)

  datatype Entry = Entry(
    number: Option<int>, date: int, source: Source, status: Status, total: int, createdBy: Option<Id>,
    approvedBy: Option<Id>, lines: seq<Line>, reversalOf: Option<Id>, reversedBy: Option<Id>, version: int)

  /** Money in, money out, or a move between money accounts. */
  datatype Kind = MoneyIn | MoneyOut | Transfer

  datatype RowStatus = RowPending | RowPosted | RowVoid

  datatype RowInput = RowInput(date: int, kind: Kind, amount: int, money: Id, counter: Id)

  datatype Row = Row(input: RowInput, status: RowStatus, journal: Option<Id>, version: int)

  datatype Settings = Settings(lockDate: Option<int>, requireApproval: bool, segregation: bool, version: int)

  /** nextEntry and nextRow stand for fresh identifiers; nextNumber is the journal_entry number sequence. */
  datatype Books = Books(
    accounts: map<Id, Account>, entries: map<Id, Entry>, rows: map<Id, Row>,
    nextEntry: Id, nextRow: Id, nextNumber: int, settings: Settings)

  datatype Error = NotFound | BadRequest | Conflict | Forbidden | VersionConflict | CheckViolation

  // -------------------------------------------------------------------------
  // Lines
  // -------------------------------------------------------------------------

  predicate LineOk(l: Line) {
    l.debit >= 0 && l.credit >= 0 && (l.debit == 0) != (l.credit == 0)
  }

  function Amount(l: Line, debit: bool): int {
    if debit then l.debit else l.credit
  }

  /** The sum of one side of an entry's lines. */
  function Total(lines: seq<Line>, debit: bool): int {
    if lines == [] then 0 else Amount(lines[0], debit) + Total(lines[1..], debit)
  }

  function Mirrored(lines: seq<Line>): seq<Line> {
    seq(|lines|, i requires 0 <= i < |lines| => Line(lines[i].account, lines[i].credit, lines[i].debit))
  }

  predicate LinesOk(accounts: map<Id, Account>, lines: seq<Line>) {
    forall i :: 0 <= i < |lines| ==> LineOk(lines[i]) && lines[i].account in accounts
  }

  /** The total of the lines, or why they are refused: both sides are compared as money strings. */
  function ValidateLines(accounts: map<Id, Account>, lines: seq<Line>): Result<int, Error> {
    var debit, credit := Money.FromUnits(Total(lines, true)), Money.FromUnits(Total(lines, false));
    if debit != credit then Err(BadRequest)
    else if Money.ToUnits(debit).None? then Err(BadRequest)
    else if Money.ToUnits(debit).value <= 0 then Err(BadRequest)
    else if exists i :: 0 <= i < |lines| && lines[i].account !in accounts then Err(BadRequest)
    else if exists i :: 0 <= i < |lines| && !accounts[lines[i].account].isActive then Err(BadRequest)
    else Ok(Money.ToUnits(debit).value)
  }

  predicate Locked(s: Settings, date: int) {
    s.lockDate.Some? && date <= s.lockDate.value
  }

  predicate SegregationBreached(s: Settings, e: Entry, actor: Option<Id>) {
    s.segregation && e.createdBy.Some? && e.createdBy == actor
  }

  // -------------------------------------------------------------------------
  // Journal entries
  // -------------------------------------------------------------------------

  function CreateEntry(b: Books, actor: Option<Id>, date: int, lines: seq<Line>, source: Source,
                       status: Status): Result<Books, Error>
    requires source != Reversal && (status == Draft || status == Pending)
  {
    var total := ValidateLines(b.accounts, lines);
    if total.Err? then Err(total.error)
    else if exists i :: 0 <= i < |lines| && !LineOk(lines[i]) then Err(CheckViolation)
    else
      var e := Entry(None, date, source, status, total.value, actor, None, lines, None, None, 1);
      Ok(b.(entries := b.entries[b.nextEntry := e], nextEntry := b.nextEntry + 1))
  }

  function UpdateEntry(b: Books, id: Id, date: int, lines: seq<Line>, version: int): Result<Books, Error> {
    if id !in b.entries then Err(NotFound)
    else
      var e := b.entries[id];
      if e.status != Draft && e.status != Pending then Err(Conflict)
      else if e.source != Manual then Err(Conflict)
      else
        var total := ValidateLines(b.accounts, lines);
        if total.Err? then Err(total.error)
        else if e.version != version then Err(VersionConflict)
        else if exists i :: 0 <= i < |lines| && !LineOk(lines[i]) then Err(CheckViolation)
        else Ok(b.(entries := b.entries[id := e.(date := date, total := total.value, status := Draft,
                                                 lines := lines, version := e.version + 1)]))
  }

  function DeleteEntry(b: Books, id: Id): Result<Books, Error> {
    if id !in b.entries then Err(NotFound)
    else if b.entries[id].status != Draft && b.entries[id].status != Pending then Err(Conflict)
    else if b.entries[id].source != Manual then Err(Conflict)
    else Ok(b.(entries := b.entries - {id}))
  }

  function Submit(b: Books, id: Id): Result<Books, Error> {
    if id !in b.entries then Err(NotFound)
    else
      var e := b.entries[id];
      if e.status != Draft then Err(Conflict)
      else if Locked(b.settings, e.date) then Err(Conflict)
      else Ok(b.(entries := b.entries[id := e.(status := Pending, version := e.version + 1)]))
  }

  function Approve(b: Books, id: Id, actor: Option<Id>): Result<Books, Error> {
    if id !in b.entries then Err(NotFound)
    else
      var e := b.entries[id];
      if e.status != Pending then Err(Conflict)
      else if Locked(b.settings, e.date) then Err(Conflict)
      else if SegregationBreached(b.settings, e, actor) then Err(Forbidden)
      else Ok(b.(entries := b.entries[id := e.(status := Approved, approvedBy := actor, version := e.version + 1)]))
  }

  /** update daybook_entries set status where journal_entry_id = id */
  function MarkRows(rows: map<Id, Row>, id: Id, status: RowStatus): map<Id, Row> {
    map r | r in rows :: if rows[r].journal == Some(id) then rows[r].(status := status) else rows[r]
  }

  predicate Postable(s: Settings, status: Status) {
    status == Approved || (!s.requireApproval && (status == Draft || status == Pending))
  }

  /** What the database trigger demands of an entry that becomes posted. */
  predicate PostGuard(lines: seq<Line>) {
    |lines| >= 2 && Total(lines, true) == Total(lines, false) && Total(lines, true) > 0
  }

  function Post(b: Books, id: Id, actor: Option<Id>): Result<Books, Error> {
    if id !in b.entries then Err(NotFound)
    else
      var e := b.entries[id];
      if !Postable(b.settings, e.status) then Err(Conflict)
      else if Locked(b.settings, e.date) then Err(Conflict)
      else if e.status != Approved && SegregationBreached(b.settings, e, actor) then Err(Forbidden)
      else
        var total := ValidateLines(b.accounts, e.lines);
        if total.Err? then Err(total.error)
        else if !PostGuard(e.lines) then Err(CheckViolation)
        else
          var e' := e.(status := Posted, number := Some(b.nextNumber), total := Total(e.lines, true),
                       approvedBy := if e.approvedBy.Some? then e.approvedBy else actor, version := e.version + 1);
          Ok(b.(entries := b.entries[id := e'], nextNumber := b.nextNumber + 1,
                rows := MarkRows(b.rows, id, RowPosted)))
  }

  function Reverse(b: Books, id: Id, date: int, actor: Option<Id>): Result<Books, Error> {
    if id !in b.entries then Err(NotFound)
    else
      var e := b.entries[id];
      if e.status != Posted then Err(Conflict)
      else if e.source == Reversal then Err(Conflict)
      else if date < e.date then Err(BadRequest)
      else if Locked(b.settings, date) then Err(Conflict)
      else if !PostGuard(Mirrored(e.lines)) then Err(CheckViolation)
      else
        var mirror := Entry(Some(b.nextNumber), date, Reversal, Posted, Total(Mirrored(e.lines), true), actor, actor,
                            Mirrored(e.lines), Some(id), None, 1);
        var original := e.(status := Reversed, reversedBy := Some(b.nextEntry), version := e.version + 1);
        Ok(b.(entries := b.entries[b.nextEntry := mirror][id := original], nextEntry := b.nextEntry + 1,
              nextNumber := b.nextNumber + 1, rows := MarkRows(b.rows, id, RowVoid)))
  }

  // -------------------------------------------------------------------------
  // Daybook
  // -------------------------------------------------------------------------

  predicate IsMoney(a: Account) {
    a.subtype == Cash || a.subtype == Bank
  }

  function LinesOfRow(input: RowInput): seq<Line> {
    if input.kind == MoneyIn
    then [Line(input.money, input.amount, 0), Line(input.counter, 0, input.amount)]
    else [Line(input.counter, input.amount, 0), Line(input.money, 0, input.amount)]
  }

  function LinesFor(accounts: map<Id, Account>, input: RowInput): Result<seq<Line>, Error> {
    if input.money == input.counter then Err(BadRequest)
    else if input.money !in accounts || input.counter !in accounts then Err(BadRequest)
    else
      var money, counter := accounts[input.money], accounts[input.counter];
      if !IsMoney(money) then Err(BadRequest)
      else if input.kind == MoneyIn && counter.kind != Income then Err(BadRequest)
      else if input.kind == MoneyOut && counter.kind != Expense then Err(BadRequest)
      else if input.kind == Transfer && !IsMoney(counter) then Err(BadRequest)
      else Ok(LinesOfRow(input))
  }

  function CreateRow(b: Books, actor: Option<Id>, mayApprove: bool, input: RowInput, postNow: bool)
    : Result<Books, Error>
  {
    if postNow && !mayApprove then Err(Forbidden)
    else if postNow && b.settings.segregation then Err(Forbidden)
    else
      var lines := LinesFor(b.accounts, input);
      if lines.Err? then Err(lines.error)
      else
        var created := CreateEntry(b, actor, input.date, lines.value, FromDaybook, Pending);
        if created.Err? then created
        else
          var id, c := b.nextEntry, created.value;
          var d := c.(rows := c.rows[c.nextRow := Row(input, RowPending, Some(id), 1)], nextRow := c.nextRow + 1);
          if !postNow then Ok(d)
          else Post(d.(entries := d.entries[id := d.entries[id].(status := Approved, approvedBy := actor)]), id, actor)
  }

  function UpdateRow(b: Books, rid: Id, input: RowInput, version: int): Result<Books, Error> {
    if rid !in b.rows then Err(NotFound)
    else
      var row := b.rows[rid];
      if row.status != RowPending then Err(Conflict)
      else if row.journal.None? || row.journal.value !in b.entries then Err(Conflict)
      else
        var id := row.journal.value;
        var e := b.entries[id];
        if e.status != Draft && e.status != Pending then Err(Conflict)
        else
          var lines := LinesFor(b.accounts, input);
          if lines.Err? then Err(lines.error)
          else if row.version != version then Err(VersionConflict)
          else if input.amount <= 0 then Err(CheckViolation)
          else Ok(b.(rows := b.rows[rid := row.(input := input, version := row.version + 1)],
                     entries := b.entries[id := e.(date := input.date, total := input.amount, lines := lines.value,
                                                   version := e.version + 1)]))
  }

  function VoidRow(b: Books, rid: Id): Result<Books, Error> {
    if rid !in b.rows then Err(NotFound)
    else
      var row := b.rows[rid];
      if row.status == RowVoid then Ok(b)
      else if row.status == RowPosted then Err(Conflict)
      else
        var rows := b.rows[rid := row.(status := RowVoid, journal := None)];
        if row.journal.Some? && row.journal.value in b.entries && !IsPosted(b.entries[row.journal.value])
        then
          if exists r :: r in rows && rows[r].journal == row.journal then Err(CheckViolation)
          else Ok(b.(rows := rows, entries := b.entries - {row.journal.value}))
        else Ok(b.(rows := rows))
  }

  // -------------------------------------------------------------------------
  // Accounts and settings
  // -------------------------------------------------------------------------

  function CreateAccount(b: Books, id: Id, kind: AccountType, subtype: Subtype): Result<Books, Error> {
    if subtype == RetainedEarnings then Err(BadRequest)
    else if id in b.accounts then Err(Conflict)
    else Ok(b.(accounts := b.accounts[id := Account(kind, subtype, true, false, 1)]))
  }

  predicate Used(b: Books, account: Id) {
    exists id :: id in b.entries &&
      exists i :: 0 <= i < |b.entries[id].lines| && b.entries[id].lines[i].account == account
  }

  function UpdateAccount(b: Books, id: Id, kind: AccountType, subtype: Subtype, isActive: bool,
                         version: int): Result<Books, Error> {
    if id !in b.accounts then Err(NotFound)
    else
      var a := b.accounts[id];
      var changing := kind != a.kind || subtype != a.subtype;
      if a.isSystem && (changing || !isActive) then Err(Forbidden)
      else if subtype == RetainedEarnings && a.subtype != RetainedEarnings then Err(BadRequest)
      else if changing && Used(b, id) then Err(Conflict)
      else if a.version != version then Err(VersionConflict)
      else
        var a' := a.(kind := kind, subtype := subtype, isActive := isActive, version := a.version + 1);
        Ok(b.(accounts := b.accounts[id := a']))
  }

  function UpdateSettings(b: Books, lockDate: Option<int>, requireApproval: bool, segregation: bool,
                          version: int): Result<Books, Error> {
    if b.settings.version != version then Err(VersionConflict)
    else Ok(b.(settings := Settings(lockDate, requireApproval, segregation, version + 1)))
  }

  // -------------------------------------------------------------------------
  // Runs
  // -------------------------------------------------------------------------

  datatype Step =
    | DoCreateEntry(actor: Option<Id>, date: int, lines: seq<Line>)
    | DoUpdateEntry(id: Id, date: int, lines: seq<Line>, version: int)
    | DoDeleteEntry(id: Id)
    | DoSubmit(id: Id)
    | DoApprove(id: Id, actor: Option<Id>)
    | DoPost(id: Id, actor: Option<Id>)
    | DoReverse(id: Id, date: int, actor: Option<Id>)
    | DoCreateRow(actor: Option<Id>, mayApprove: bool, input: RowInput, postNow: bool)
    | DoUpdateRow(rid: Id, input: RowInput, version: int)
    | DoVoidRow(rid: Id)
    | DoCreateAccount(id: Id, kind: AccountType, subtype: Subtype)
    | DoUpdateAccount(id: Id, kind: AccountType, subtype: Subtype, isActive: bool, version: int)
    | DoUpdateSettings(lockDate: Option<int>, requireApproval: bool, segregation: bool, version: int)

  function Apply(b: Books, s: Step): Result<Books, Error> {
    match s
    case DoCreateEntry(actor, date, lines) => CreateEntry(b, actor, date, lines, Manual, Draft)
    case DoUpdateEntry(id, date, lines, version) => UpdateEntry(b, id, date, lines, version)
    case DoDeleteEntry(id) => DeleteEntry(b, id)
    case DoSubmit(id) => Submit(b, id)
    case DoApprove(id, actor) => Approve(b, id, actor)
    case DoPost(id, actor) => Post(b, id, actor)
    case DoReverse(id, date, actor) => Reverse(b, id, date, actor)
    case DoCreateRow(actor, mayApprove, input, postNow) => CreateRow(b, actor, mayApprove, input, postNow)
    case DoUpdateRow(rid, input, version) => UpdateRow(b, rid, input, version)
    case DoVoidRow(rid) => VoidRow(b, rid)
    case DoCreateAccount(id, kind, subtype) => CreateAccount(b, id, kind, subtype)
    case DoUpdateAccount(id, kind, subtype, isActive, version) => UpdateAccount(b, id, kind, subtype, isActive, version)
    case DoUpdateSettings(lock, approval, segregation, version) =>
      UpdateSettings(b, lock, approval, segregation, version)
  }

  /** A refused transaction changes nothing. */
  function Next(b: Books, s: Step): Books {
    var r := Apply(b, s);
    if r.Ok? then r.value else b
  }

  function Run(b: Books, steps: seq<Step>): Books
    decreases |steps|
  {
    if steps == [] then b else Run(Next(b, steps[0]), steps[1..])
  }

  /** A new tenant: seeded accounts and settings, nothing recorded. */
  function NewBooks(accounts: map<Id, Account>, settings: Settings): Books {
    Books(accounts, map[], map[], 0, 0, 1, settings)
  }

  // -------------------------------------------------------------------------
  // What holds in every reachable state
  // -------------------------------------------------------------------------

  predicate IsPosted(e: Entry) {
    e.status == Posted || e.status == Reversed
  }

  /** r is the mirror image of entry id. */
  predicate IsMirror(b: Books, r: Id, id: Id) {
    && r in b.entries && id in b.entries && b.entries[r].reversalOf == Some(id)
    && b.entries[r].status == Posted && b.entries[r].date >= b.entries[id].date
    && b.entries[r].lines == Mirrored(b.entries[id].lines)
  }

  /** Entries are balanced; exactly the posted and reversed ones carry a number; reversal links point both ways. */
  predicate EntryOk(b: Books, id: Id)
    requires id in b.entries
  {
    var e := b.entries[id];
    && id < b.nextEntry
    && LinesOk(b.accounts, e.lines) && Total(e.lines, true) == Total(e.lines, false) == e.total && e.total > 0
    && (e.number.Some? <==> IsPosted(e)) && (e.number.Some? ==> 1 <= e.number.value < b.nextNumber)
    && (e.status == Reversed <==> e.reversedBy.Some?) && (e.source == Reversal <==> e.reversalOf.Some?)
    && (e.source == Reversal ==> e.status == Posted)
    && (e.reversedBy.Some? ==> IsMirror(b, e.reversedBy.value, id))
    && (e.reversalOf.Some? ==> e.reversalOf.value in b.entries && b.entries[e.reversalOf.value].reversedBy == Some(id))
  }

  /** A live daybook row agrees with its journal entry; a void one has none, or a reversed one. */
  predicate RowOk(b: Books, rid: Id)
    requires rid in b.rows
  {
    var row := b.rows[rid];
    && rid < b.nextRow
    && (row.journal.Some? ==>
          && row.journal.value in b.entries
          && var e := b.entries[row.journal.value];
             && e.source == FromDaybook && e.date == row.input.date && e.total == row.input.amount
             && e.lines == LinesOfRow(row.input)
             && (row.status == RowPending <==> !IsPosted(e))
             && (row.status == RowPosted <==> e.status == Posted)
             && (row.status == RowVoid <==> e.status == Reversed))
    && (row.status != RowVoid ==> row.journal.Some?)
  }

  predicate HasNumber(b: Books, id: Id, n: int) {
    id in b.entries && b.entries[id].number == Some(n)
  }

  ghost predicate NumberUsed(b: Books, n: int) {
    exists id :: HasNumber(b, id, n)
  }

  ghost predicate Gapless(b: Books) {
    && (forall n :: 1 <= n < b.nextNumber ==> NumberUsed(b, n))
    && (forall id, id', n :: HasNumber(b, id, n) && HasNumber(b, id', n) ==> id == id')
  }

  ghost predicate HasRow(b: Books, id: Id) {
    exists r :: r in b.rows && b.rows[r].journal == Some(id)
  }

  ghost predicate LinkedOnce(b: Books) {
    && (forall r, r' :: r in b.rows && r' in b.rows && b.rows[r].journal.Some? &&
                        b.rows[r].journal == b.rows[r'].journal ==>
          r == r')
    && (forall id :: id in b.entries && b.entries[id].source == FromDaybook ==> HasRow(b, id))
  }

  ghost predicate Inv(b: Books) {
    && b.nextNumber >= 1
    && (forall id :: id in b.entries ==> EntryOk(b, id))
    && (forall rid :: rid in b.rows ==> RowOk(b, rid))
    && Gapless(b)
    && LinkedOnce(b)
  }
}

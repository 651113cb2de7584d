/** The financial reports: sums by account over the posted entries. */
module Reports {
  import opened Wrappers
  import opened Ledger
  import opened LedgerInvariants
  import Money

  datatype Range = Range(from: Option<int>, to: int)

  /** A reversed entry still counts; its reversal offsets it. */
  predicate Counts(e: Entry, range: Range) {
    IsPosted(e) && e.date <= range.to && (range.from.Some? ==> e.date >= range.from.value)
  }

  /** One side of an entry's lines on one account. */
  function LineSum(lines: seq<Line>, account: Id, debit: bool): int {
    if lines == [] then 0
    else (if lines[0].account == account then Amount(lines[0], debit) else 0) + LineSum(lines[1..], account, debit)
  }

  function Contribution(b: Books, id: Id, account: Id, range: Range, debit: bool): int {
    if id in b.entries && Counts(b.entries[id], range) then LineSum(b.entries[id].lines, account, debit) else 0
  }

  /** One side of an account over the entries with identifiers below n. */
  function SumBelow(b: Books, account: Id, range: Range, debit: bool, n: nat): int {
    if n == 0 then 0 else SumBelow(b, account, range, debit, n - 1) + Contribution(b, n - 1, account, range, debit)
  }

  function AccountSum(b: Books, account: Id, range: Range, debit: bool): int {
    SumBelow(b, account, range, debit, b.nextEntry)
  }

  /** The same amounts summed entry by entry. */
  function EntriesBelow(b: Books, range: Range, debit: bool, n: nat): int {
    if n == 0 then 0
    else EntriesBelow(b, range, debit, n - 1) +
         if n - 1 in b.entries && Counts(b.entries[n - 1], range) then Total(b.entries[n - 1].lines, debit) else 0
  }

  /** The chart of accounts in code order: every account once. */
  ghost predicate Lists(order: seq<Id>, accounts: map<Id, Account>) {
    && (forall i :: 0 <= i < |order| ==> order[i] in accounts)
    && (forall a :: a in accounts ==> a in order)
    && (forall i, j :: 0 <= i < j < |order| ==> order[i] != order[j])
  }

  // -------------------------------------------------------------------------
  // Sums by account and sums by entry agree
  // -------------------------------------------------------------------------

  function OverAccounts(b: Books, order: seq<Id>, range: Range, debit: bool, n: nat): int {
    if order == [] then 0 else SumBelow(b, order[0], range, debit, n) + OverAccounts(b, order[1..], range, debit, n)
  }

  function LinesOverAccounts(lines: seq<Line>, order: seq<Id>, debit: bool): int {
    if order == [] then 0 else LineSum(lines, order[0], debit) + LinesOverAccounts(lines, order[1..], debit)
  }

  lemma {:induction false} NoLines(order: seq<Id>, debit: bool)
    ensures LinesOverAccounts([], order, debit) == 0
  {
    if order != [] { NoLines(order[1..], debit); }
  }

  lemma {:induction false} OneMoreLine(lines: seq<Line>, order: seq<Id>, debit: bool)
    requires lines != [] && forall i, j :: 0 <= i < j < |order| ==> order[i] != order[j]
    ensures LinesOverAccounts(lines, order, debit) ==
            LinesOverAccounts(lines[1..], order, debit) +
            if lines[0].account in order then Amount(lines[0], debit) else 0
  {
    if order != [] {
      OneMoreLine(lines, order[1..], debit);
      assert order == [order[0]] + order[1..];
    }
  }

  lemma {:induction false} LinesExchange(lines: seq<Line>, order: seq<Id>, debit: bool)
    requires forall i, j :: 0 <= i < j < |order| ==> order[i] != order[j]
    requires forall i :: 0 <= i < |lines| ==> lines[i].account in order
    ensures LinesOverAccounts(lines, order, debit) == Total(lines, debit)
  {
    if lines == [] {
      NoLines(order, debit);
    } else {
      OneMoreLine(lines, order, debit);
      LinesExchange(lines[1..], order, debit);
    }
  }

  lemma {:induction false} OneMoreEntry(b: Books, order: seq<Id>, range: Range, debit: bool, n: nat)
    ensures OverAccounts(b, order, range, debit, n + 1) == OverAccounts(b, order, range, debit, n) +
            if n in b.entries && Counts(b.entries[n], range)
            then LinesOverAccounts(b.entries[n].lines, order, debit) else 0
  {
    if order != [] { OneMoreEntry(b, order[1..], range, debit, n); }
  }

  lemma {:induction false} NoEntries(b: Books, order: seq<Id>, range: Range, debit: bool)
    ensures OverAccounts(b, order, range, debit, 0) == 0
  {
    if order != [] { NoEntries(b, order[1..], range, debit); }
  }

  lemma EntryExchange(b: Books, order: seq<Id>, debit: bool, id: Id)
    requires Inv(b) && Lists(order, b.accounts) && id in b.entries
    ensures LinesOverAccounts(b.entries[id].lines, order, debit) == Total(b.entries[id].lines, debit)
  {
    hide RowOk, Gapless, LinkedOnce, Total, LinesOverAccounts;
    assert EntryOk(b, id);
    LinesExchange(b.entries[id].lines, order, debit);
  }

  lemma {:induction false} Exchange(b: Books, order: seq<Id>, range: Range, debit: bool, n: nat)
    requires Inv(b) && Lists(order, b.accounts)
    ensures OverAccounts(b, order, range, debit, n) == EntriesBelow(b, range, debit, n)
  {
    hide Inv, AccountSum, Total, LinesOverAccounts, OverAccounts, Lists;
    if n == 0 {
      NoEntries(b, order, range, debit);
    } else {
      Exchange(b, order, range, debit, n - 1);
      OneMoreEntry(b, order, range, debit, n - 1);
      if n - 1 in b.entries { EntryExchange(b, order, debit, n - 1); }
    }
  }

  lemma {:induction false} EntriesBalance(b: Books, range: Range, n: nat)
    requires Inv(b)
    ensures EntriesBelow(b, range, true, n) == EntriesBelow(b, range, false, n)
  {
    if n > 0 {
      EntriesBalance(b, range, n - 1);
      if n - 1 in b.entries { assert EntryOk(b, n - 1); }
    }
  }

  // -------------------------------------------------------------------------
  // Reports
  // -------------------------------------------------------------------------

  datatype AccountTotals = AccountTotals(account: Id, kind: AccountType, debit: int, credit: int)

  function Net(t: AccountTotals): int {
    t.debit - t.credit
  }

  function Canonical(units: int): Option<int> {
    Money.ToUnits(Money.FromUnits(units))
  }

  predicate HasLine(b: Books, id: Id, account: Id) {
    id in b.entries && exists i :: 0 <= i < |b.entries[id].lines| && b.entries[id].lines[i].account == account
  }

  /** The join keeps an account that has no line at all, or a line of an entry that counts. */
  ghost predicate Joined(b: Books, account: Id, range: Range) {
    (forall id :: !HasLine(b, id, account)) || exists id :: HasLine(b, id, account) && Counts(b.entries[id], range)
  }

  /** None where reading a sum back from the database throws. */
  ghost function Totals(b: Books, order: seq<Id>, range: Range): Option<seq<AccountTotals>>
    requires forall i :: 0 <= i < |order| ==> order[i] in b.accounts
  {
    if order == [] then Some([])
    else
      var rest := Totals(b, order[1..], range);
      if !Joined(b, order[0], range) then rest
      else
        var debit, credit := Canonical(AccountSum(b, order[0], range, true)),
                             Canonical(AccountSum(b, order[0], range, false));
        if debit.None? || credit.None? || rest.None? then None
        else Some([AccountTotals(order[0], b.accounts[order[0]].kind, debit.value, credit.value)] + rest.value)
  }

  datatype TrialRow = TrialRow(account: Id, debit: string, credit: string)

  datatype TrialBalance = TrialBalance(rows: seq<TrialRow>, totalDebit: string, totalCredit: string, balanced: bool)

  function TrialRows(totals: seq<AccountTotals>): seq<TrialRow> {
    if totals == [] then []
    else
      var net, rest := Net(totals[0]), TrialRows(totals[1..]);
      if net == 0 then rest
      else [TrialRow(totals[0].account, Money.FromUnits(if net > 0 then net else 0),
                     Money.FromUnits(if net < 0 then -net else 0))] + rest
  }

  function SumColumn(rows: seq<TrialRow>, debit: bool): Option<int> {
    if rows == [] then Some(0)
    else
      var here, rest := Money.ToUnits(if debit then rows[0].debit else rows[0].credit), SumColumn(rows[1..], debit);
      if here.None? || rest.None? then None else Some(here.value + rest.value)
  }

  ghost function TrialBalanceAt(b: Books, order: seq<Id>, asOf: int): Option<TrialBalance>
    requires forall i :: 0 <= i < |order| ==> order[i] in b.accounts
  {
    var totals := Totals(b, order, Range(None, asOf));
    if totals.None? then None
    else
      var rows := TrialRows(totals.value);
      var debit, credit := SumColumn(rows, true), SumColumn(rows, false);
      if debit.None? || credit.None? then None
      else Some(TrialBalance(rows, Money.FromUnits(debit.value), Money.FromUnits(credit.value),
                             debit.value == credit.value))
  }

  function NetOfKind(totals: seq<AccountTotals>, kind: AccountType): int {
    if totals == [] then 0 else (if totals[0].kind == kind then Net(totals[0]) else 0) + NetOfKind(totals[1..], kind)
  }

  predicate DebitNormal(kind: AccountType) {
    kind == Asset || kind == Expense
  }

  /** The total of a statement section, positive in the accounts' normal direction. */
  function SectionTotal(totals: seq<AccountTotals>, kind: AccountType): int {
    if totals == [] then 0
    else
      var units := if totals[0].kind != kind then 0 else if DebitNormal(kind) then Net(totals[0]) else -Net(totals[0]);
      units + SectionTotal(totals[1..], kind)
  }

  datatype BalanceSheet = BalanceSheet(assets: string, liabilities: string, equity: string, earnings: string,
                                       rightSide: string, balanced: bool)

  ghost function BalanceSheetAt(b: Books, order: seq<Id>, asOf: int): Option<BalanceSheet>
    requires forall i :: 0 <= i < |order| ==> order[i] in b.accounts
  {
    var totals := Totals(b, order, Range(None, asOf));
    if totals.None? then None
    else
      var t := totals.value;
      var assets, liabilities := Canonical(SectionTotal(t, Asset)), Canonical(SectionTotal(t, Liability));
      var equity := Canonical(SectionTotal(t, Equity));
      var earnings := -NetOfKind(t, Income) - NetOfKind(t, Expense);
      if assets.None? || liabilities.None? || equity.None? then None
      else
        var right := liabilities.value + equity.value + earnings;
        Some(BalanceSheet(Money.FromUnits(assets.value), Money.FromUnits(liabilities.value),
                          Money.FromUnits(equity.value),
                          Money.FromUnits(earnings), Money.FromUnits(right), assets.value == right))
  }

  ghost function NetIncome(b: Books, order: seq<Id>, from: int, to: int): Option<string>
    requires forall i :: 0 <= i < |order| ==> order[i] in b.accounts
  {
    var totals := Totals(b, order, Range(Some(from), to));
    if totals.None? then None
    else
      var income, expense := Canonical(SectionTotal(totals.value, Income)),
                             Canonical(SectionTotal(totals.value, Expense));
      if income.None? || expense.None? then None
      else Some(Money.FromUnits(income.value - expense.value))
  }

  // -------------------------------------------------------------------------
  // Balance
  // -------------------------------------------------------------------------

  lemma CanonicalKeeps(units: int)
    ensures Canonical(units).Some? ==> Canonical(units).value == units
  {
    Money.MoneyRoundTrip(units);
  }

  lemma {:induction false} NoLineNoSum(lines: seq<Line>, account: Id, debit: bool)
    requires forall i :: 0 <= i < |lines| ==> lines[i].account != account
    ensures LineSum(lines, account, debit) == 0
  {
    if lines != [] { NoLineNoSum(lines[1..], account, debit); }
  }

  lemma {:induction false} UnjoinedIsZero(b: Books, account: Id, range: Range, debit: bool, n: nat)
    requires !Joined(b, account, range)
    ensures SumBelow(b, account, range, debit, n) == 0
  {
    if n > 0 {
      UnjoinedIsZero(b, account, range, debit, n - 1);
      if n - 1 in b.entries && Counts(b.entries[n - 1], range) {
        assert !HasLine(b, n - 1, account);
        NoLineNoSum(b.entries[n - 1].lines, account, debit);
      }
    }
  }

  function SumNets(totals: seq<AccountTotals>): int {
    if totals == [] then 0 else Net(totals[0]) + SumNets(totals[1..])
  }

  /** The account rows carry the exact sums, and leaving out accounts without a matching line loses nothing. */
  lemma {:induction false} TotalsSum(b: Books, order: seq<Id>, range: Range)
    requires forall i :: 0 <= i < |order| ==> order[i] in b.accounts
    requires Totals(b, order, range).Some?
    ensures SumNets(Totals(b, order, range).value) ==
            OverAccounts(b, order, range, true, b.nextEntry) - OverAccounts(b, order, range, false, b.nextEntry)
  {
    if order != [] {
      TotalsSum(b, order[1..], range);
      if Joined(b, order[0], range) {
        CanonicalKeeps(AccountSum(b, order[0], range, true));
        CanonicalKeeps(AccountSum(b, order[0], range, false));
      } else {
        UnjoinedIsZero(b, order[0], range, true, b.nextEntry);
        UnjoinedIsZero(b, order[0], range, false, b.nextEntry);
      }
    }
  }

  lemma NetsVanish(b: Books, order: seq<Id>, range: Range)
    requires Inv(b) && Lists(order, b.accounts) && Totals(b, order, range).Some?
    ensures SumNets(Totals(b, order, range).value) == 0
  {
    hide Inv, Totals;
    TotalsSum(b, order, range);
    Exchange(b, order, range, true, b.nextEntry);
    Exchange(b, order, range, false, b.nextEntry);
    EntriesBalance(b, range, b.nextEntry);
  }

  lemma {:induction false} ColumnsSum(totals: seq<AccountTotals>)
    requires SumColumn(TrialRows(totals), true).Some? && SumColumn(TrialRows(totals), false).Some?
    ensures SumColumn(TrialRows(totals), true).value - SumColumn(TrialRows(totals), false).value == SumNets(totals)
  {
    hide Money.FromUnits, Money.ToUnits;
    if totals != [] {
      var net, rest := Net(totals[0]), TrialRows(totals[1..]);
      if net != 0 {
        Money.MoneyRoundTrip(if net > 0 then net else 0);
        Money.MoneyRoundTrip(if net < 0 then -net else 0);
        assert TrialRows(totals)[1..] == rest;
      }
      ColumnsSum(totals[1..]);
    }
  }

  /** The trial balance built account by account is balanced in every reachable state, for every date. */
  lemma TrialBalanceBalances(accounts: map<Id, Account>, settings: Settings, steps: seq<Step>, order: seq<Id>,
                             asOf: int)
    requires Lists(order, Run(NewBooks(accounts, settings), steps).accounts)
    ensures var report := TrialBalanceAt(Run(NewBooks(accounts, settings), steps), order, asOf);
            report.Some? ==> report.value.balanced && report.value.totalDebit == report.value.totalCredit
  {
    var b := Run(NewBooks(accounts, settings), steps);
    ReachableConsistent(accounts, settings, steps);
    hide Inv, Totals, Run, SumColumn, TrialRows;
    if TrialBalanceAt(b, order, asOf).Some? {
      NetsVanish(b, order, Range(None, asOf));
      ColumnsSum(Totals(b, order, Range(None, asOf)).value);
    }
  }

  lemma {:induction false} SectionIsNet(totals: seq<AccountTotals>, kind: AccountType)
    ensures SectionTotal(totals, kind) ==
            if DebitNormal(kind) then NetOfKind(totals, kind) else -NetOfKind(totals, kind)
  {
    if totals != [] { SectionIsNet(totals[1..], kind); }
  }

  lemma {:induction false} KindsCoverNets(totals: seq<AccountTotals>)
    ensures NetOfKind(totals, Asset) + NetOfKind(totals, Liability) + NetOfKind(totals, Equity) +
            NetOfKind(totals, Income) + NetOfKind(totals, Expense) == SumNets(totals)
  {
    if totals != [] { KindsCoverNets(totals[1..]); }
  }

  /** The balance sheet is balanced in every reachable state, for every date. */
  lemma BalanceSheetBalances(accounts: map<Id, Account>, settings: Settings, steps: seq<Step>, order: seq<Id>,
                             asOf: int)
    requires Lists(order, Run(NewBooks(accounts, settings), steps).accounts)
    ensures var report := BalanceSheetAt(Run(NewBooks(accounts, settings), steps), order, asOf);
            report.Some? ==> report.value.balanced && report.value.assets == report.value.rightSide
  {
    var b := Run(NewBooks(accounts, settings), steps);
    ReachableConsistent(accounts, settings, steps);
    hide Inv, Totals, Run, SectionTotal, NetOfKind, Canonical;
    if BalanceSheetAt(b, order, asOf).Some? {
      var t := Totals(b, order, Range(None, asOf)).value;
      NetsVanish(b, order, Range(None, asOf));
      KindsCoverNets(t);
      SectionIsNet(t, Asset);
      SectionIsNet(t, Liability);
      SectionIsNet(t, Equity);
      CanonicalKeeps(SectionTotal(t, Asset));
      CanonicalKeeps(SectionTotal(t, Liability));
      CanonicalKeeps(SectionTotal(t, Equity));
    }
  }

  // -------------------------------------------------------------------------
  // Periods add up
  // -------------------------------------------------------------------------

  lemma {:induction false} PeriodsAdd(b: Books, account: Id, from: int, to: int, debit: bool, n: nat)
    requires from <= to
    ensures SumBelow(b, account, Range(None, to), debit, n) ==
            SumBelow(b, account, Range(None, from - 1), debit, n) +
            SumBelow(b, account, Range(Some(from), to), debit, n)
  {
    if n > 0 { PeriodsAdd(b, account, from, to, debit, n - 1); }
  }

  /** Net of the accounts of one kind, summed over the chart itself. */
  function ChartNet(b: Books, order: seq<Id>, range: Range, kind: AccountType): int
    requires forall i :: 0 <= i < |order| ==> order[i] in b.accounts
  {
    if order == [] then 0
    else (if b.accounts[order[0]].kind == kind
          then AccountSum(b, order[0], range, true) - AccountSum(b, order[0], range, false) else 0)
         + ChartNet(b, order[1..], range, kind)
  }

  lemma {:induction false} KindNetIsChartNet(b: Books, order: seq<Id>, range: Range, kind: AccountType)
    requires forall i :: 0 <= i < |order| ==> order[i] in b.accounts
    requires Totals(b, order, range).Some?
    ensures NetOfKind(Totals(b, order, range).value, kind) == ChartNet(b, order, range, kind)
  {
    if order != [] {
      KindNetIsChartNet(b, order[1..], range, kind);
      if Joined(b, order[0], range) {
        CanonicalKeeps(AccountSum(b, order[0], range, true));
        CanonicalKeeps(AccountSum(b, order[0], range, false));
      } else {
        UnjoinedIsZero(b, order[0], range, true, b.nextEntry);
        UnjoinedIsZero(b, order[0], range, false, b.nextEntry);
      }
    }
  }

  lemma {:induction false} ChartNetAdds(b: Books, order: seq<Id>, from: int, to: int, kind: AccountType)
    requires from <= to && forall i :: 0 <= i < |order| ==> order[i] in b.accounts
    ensures ChartNet(b, order, Range(None, to), kind) ==
            ChartNet(b, order, Range(None, from - 1), kind) + ChartNet(b, order, Range(Some(from), to), kind)
  {
    if order != [] {
      ChartNetAdds(b, order[1..], from, to, kind);
      PeriodsAdd(b, order[0], from, to, true, b.nextEntry);
      PeriodsAdd(b, order[0], from, to, false, b.nextEntry);
    }
  }

  /** The earnings on the balance sheet grow from the eve of a period to its end by the net income of the period. */
  lemma EarningsGrowByNetIncome(b: Books, order: seq<Id>, from: int, to: int, income: int, opening: int, closing: int)
    requires from <= to && forall i :: 0 <= i < |order| ==> order[i] in b.accounts
    requires NetIncome(b, order, from, to) == Some(Money.FromUnits(income))
    requires BalanceSheetAt(b, order, from - 1).Some?
             && BalanceSheetAt(b, order, from - 1).value.earnings == Money.FromUnits(opening)
    requires BalanceSheetAt(b, order, to).Some?
             && BalanceSheetAt(b, order, to).value.earnings == Money.FromUnits(closing)
    ensures closing == opening + income
  {
    hide Totals, SectionTotal, NetOfKind, Canonical, Money.FromUnits, ChartNet;
    var before, whole, period := Range(None, from - 1), Range(None, to), Range(Some(from), to);
    var p := Totals(b, order, period).value;
    SectionIsNet(p, Income);
    SectionIsNet(p, Expense);
    CanonicalKeeps(SectionTotal(p, Income));
    CanonicalKeeps(SectionTotal(p, Expense));
    EarningsOf(b, order, from - 1, opening);
    EarningsOf(b, order, to, closing);
    Money.CanonicalInjective(income, SectionTotal(p, Income) - SectionTotal(p, Expense));
    KindNetIsChartNet(b, order, period, Income);
    KindNetIsChartNet(b, order, period, Expense);
    ChartNetAdds(b, order, from, to, Income);
    ChartNetAdds(b, order, from, to, Expense);
  }

  lemma EarningsOf(b: Books, order: seq<Id>, asOf: int, earnings: int)
    requires forall i :: 0 <= i < |order| ==> order[i] in b.accounts
    requires BalanceSheetAt(b, order, asOf).Some?
             && BalanceSheetAt(b, order, asOf).value.earnings == Money.FromUnits(earnings)
    ensures earnings == -ChartNet(b, order, Range(None, asOf), Income) - ChartNet(b, order, Range(None, asOf), Expense)
  {
    hide Totals, SectionTotal, NetOfKind, Canonical, Money.FromUnits, ChartNet;
    var t := Totals(b, order, Range(None, asOf)).value;
    Money.CanonicalInjective(earnings, -NetOfKind(t, Income) - NetOfKind(t, Expense));
    KindNetIsChartNet(b, order, Range(None, asOf), Income);
    KindNetIsChartNet(b, order, Range(None, asOf), Expense);
  }

  // -------------------------------------------------------------------------
  // The reports exist
  // -------------------------------------------------------------------------

  lemma {:induction false} LineSumNotNegative(lines: seq<Line>, account: Id, debit: bool)
    requires forall i :: 0 <= i < |lines| ==> LineOk(lines[i])
    ensures LineSum(lines, account, debit) >= 0
  {
    if lines != [] { LineSumNotNegative(lines[1..], account, debit); }
  }

  lemma {:induction false} SumNotNegative(b: Books, account: Id, range: Range, debit: bool, n: nat)
    requires Inv(b)
    ensures SumBelow(b, account, range, debit, n) >= 0
  {
    if n > 0 {
      SumNotNegative(b, account, range, debit, n - 1);
      if n - 1 in b.entries {
        assert EntryOk(b, n - 1);
        LineSumNotNegative(b.entries[n - 1].lines, account, debit);
      }
    }
  }

  /** Both sides of the account have at most fifteen whole digits. */
  predicate Fits(b: Books, account: Id, range: Range) {
    AccountSum(b, account, range, true) < Money.Limit() && AccountSum(b, account, range, false) < Money.Limit()
  }

  predicate AllFit(b: Books, order: seq<Id>, range: Range) {
    forall i :: 0 <= i < |order| ==> Fits(b, order[i], range)
  }

  lemma ReadsBackExactly(b: Books, account: Id, range: Range)
    requires Inv(b)
    ensures Fits(b, account, range) <==>
            && Canonical(AccountSum(b, account, range, true)).Some?
            && Canonical(AccountSum(b, account, range, false)).Some?
  {
    hide Inv, Money.FromUnits, Money.ToUnits, Money.Limit, SumBelow;
    SumNotNegative(b, account, range, true, b.nextEntry);
    SumNotNegative(b, account, range, false, b.nextEntry);
    LimitPositive();
    Money.MoneyRoundTrip(AccountSum(b, account, range, true));
    Money.MoneyRoundTrip(AccountSum(b, account, range, false));
  }

  lemma LimitPositive()
    ensures Money.Limit() > 0
  {
  }

  lemma UnjoinedFits(b: Books, account: Id, range: Range)
    requires !Joined(b, account, range)
    ensures Fits(b, account, range)
  {
    hide Money.Limit, Joined;
    LimitPositive();
    UnjoinedIsZero(b, account, range, true, b.nextEntry);
    UnjoinedIsZero(b, account, range, false, b.nextEntry);
  }

  /** The sums can be read exactly when each of them fits. */
  lemma {:induction false} TotalsExist(b: Books, order: seq<Id>, range: Range)
    requires Inv(b) && forall i :: 0 <= i < |order| ==> order[i] in b.accounts
    ensures Totals(b, order, range).Some? <==> AllFit(b, order, range)
    ensures Totals(b, order, range).Some? ==> NetsFit(Totals(b, order, range).value)
  {
    hide Inv, Money.FromUnits, Money.ToUnits, Money.Limit, Joined, SumBelow, Fits;
    if order != [] {
      TotalsExist(b, order[1..], range);
      assert AllFit(b, order, range) <==> Fits(b, order[0], range) && AllFit(b, order[1..], range) by {
        assert order == [order[0]] + order[1..];
      }
      if Joined(b, order[0], range) {
        ReadsBackExactly(b, order[0], range);
        if Fits(b, order[0], range) { NetFits(b, order[0], range); }
      } else {
        UnjoinedFits(b, order[0], range);
      }
    }
  }

  lemma NetFits(b: Books, account: Id, range: Range)
    requires Inv(b) && Fits(b, account, range)
    ensures var debit, credit := Canonical(AccountSum(b, account, range, true)),
                                 Canonical(AccountSum(b, account, range, false));
            debit.Some? && credit.Some? && -Money.Limit() < debit.value - credit.value < Money.Limit()
  {
    hide Inv, SumBelow, Canonical, Money.Limit;
    SumNotNegative(b, account, range, true, b.nextEntry);
    SumNotNegative(b, account, range, false, b.nextEntry);
    ReadsBackExactly(b, account, range);
    CanonicalKeeps(AccountSum(b, account, range, true));
    CanonicalKeeps(AccountSum(b, account, range, false));
  }

  predicate NetsFit(totals: seq<AccountTotals>) {
    forall i :: 0 <= i < |totals| ==> -Money.Limit() < Net(totals[i]) < Money.Limit()
  }

  lemma {:induction false} ColumnsExist(totals: seq<AccountTotals>, debit: bool)
    requires NetsFit(totals)
    ensures SumColumn(TrialRows(totals), debit).Some?
  {
    hide Money.FromUnits, Money.ToUnits, Money.Limit;
    if totals != [] {
      ColumnsExist(totals[1..], debit);
      var net := Net(totals[0]);
      Money.MoneyRoundTrip(if net > 0 then net else 0);
      Money.MoneyRoundTrip(if net < 0 then -net else 0);
      if net != 0 { assert TrialRows(totals)[1..] == TrialRows(totals[1..]); }
    }
  }

  /** The trial balance is produced exactly while no side of an account needs more than fifteen whole digits. */
  lemma TrialBalanceExists(b: Books, order: seq<Id>, asOf: int)
    requires Inv(b) && forall i :: 0 <= i < |order| ==> order[i] in b.accounts
    ensures TrialBalanceAt(b, order, asOf).Some? <==> AllFit(b, order, Range(None, asOf))
  {
    hide Inv, Totals, SumColumn, TrialRows, NetsFit, AllFit;
    TotalsExist(b, order, Range(None, asOf));
    if AllFit(b, order, Range(None, asOf)) {
      ColumnsExist(Totals(b, order, Range(None, asOf)).value, true);
      ColumnsExist(Totals(b, order, Range(None, asOf)).value, false);
    }
  }

  predicate SectionFits(b: Books, order: seq<Id>, range: Range, kind: AccountType)
    requires forall i :: 0 <= i < |order| ==> order[i] in b.accounts
  {
    -Money.Limit() < ChartNet(b, order, range, kind) < Money.Limit()
  }

  lemma SectionReadsExactly(b: Books, order: seq<Id>, range: Range, kind: AccountType)
    requires forall i :: 0 <= i < |order| ==> order[i] in b.accounts
    requires Totals(b, order, range).Some?
    ensures Canonical(SectionTotal(Totals(b, order, range).value, kind)).Some? <==> SectionFits(b, order, range, kind)
  {
    hide Totals, SectionTotal, NetOfKind, ChartNet, Money.Limit, Money.FromUnits, Money.ToUnits;
    var t := Totals(b, order, range).value;
    SectionIsNet(t, kind);
    KindNetIsChartNet(b, order, range, kind);
    Money.MoneyRoundTrip(SectionTotal(t, kind));
  }

  /** The balance sheet is produced exactly while, besides, the totals of its three sections fit. */
  lemma BalanceSheetExists(b: Books, order: seq<Id>, asOf: int)
    requires Inv(b) && forall i :: 0 <= i < |order| ==> order[i] in b.accounts
    ensures BalanceSheetAt(b, order, asOf).Some? <==>
            && AllFit(b, order, Range(None, asOf))
            && SectionFits(b, order, Range(None, asOf), Asset)
            && SectionFits(b, order, Range(None, asOf), Liability)
            && SectionFits(b, order, Range(None, asOf), Equity)
  {
    hide Inv, Totals, SectionTotal, NetOfKind, Canonical, NetsFit, AllFit, SectionFits;
    var range := Range(None, asOf);
    TotalsExist(b, order, range);
    if AllFit(b, order, range) {
      SectionReadsExactly(b, order, range, Asset);
      SectionReadsExactly(b, order, range, Liability);
      SectionReadsExactly(b, order, range, Equity);
    }
  }
}

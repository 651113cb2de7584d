/** What the reports show, account by account and section by section, in terms of the balances of the accounts. */
module ReportContents {
  import opened Wrappers
  import opened Ledger
  import opened Reports
  import Money

  /** An account's balance over a period: debit minus credit of the lines that count. */
  function Balance(b: Books, account: Id, range: Range): int {
    AccountSum(b, account, range, true) - AccountSum(b, account, range, false)
  }

  /** The totals come account by account: those left out have no balance. */
  lemma {:induction false} TotalsAre(b: Books, order: seq<Id>, range: Range, a: Id, net: int)
    requires forall i :: 0 <= i < |order| ==> order[i] in b.accounts
    requires Totals(b, order, range).Some? && net != 0
    ensures (exists t :: t in Totals(b, order, range).value && t.account == a && Net(t) == net) <==>
            a in order && Balance(b, a, range) == net
  {
    hide AccountSum, Canonical, Joined;
    if order != [] {
      TotalsAre(b, order[1..], range, a, net);
      assert a in order <==> a == order[0] || a in order[1..];
      var t, rest := Totals(b, order, range).value, Totals(b, order[1..], range).value;
      if Joined(b, order[0], range) {
        CanonicalKeeps(AccountSum(b, order[0], range, true));
        CanonicalKeeps(AccountSum(b, order[0], range, false));
        assert t == [t[0]] + rest && t[0].account == order[0] && Net(t[0]) == Balance(b, order[0], range);
        assert forall x :: x in t <==> x == t[0] || x in rest;
      } else {
        NoBalance(b, order[0], range);
      }
    }
  }

  lemma NoBalance(b: Books, account: Id, range: Range)
    requires !Joined(b, account, range)
    ensures Balance(b, account, range) == 0
  {
    hide Joined;
    UnjoinedIsZero(b, account, range, true, b.nextEntry);
    UnjoinedIsZero(b, account, range, false, b.nextEntry);
  }

  /** What a trial balance prints for a balance. */
  function RowFor(account: Id, balance: int): TrialRow {
    TrialRow(account, Money.FromUnits(if balance > 0 then balance else 0),
             Money.FromUnits(if balance > 0 then 0 else -balance))
  }

  lemma {:induction false} TrialRowsAre(totals: seq<AccountTotals>, row: TrialRow)
    ensures row in TrialRows(totals) <==>
            exists t :: t in totals && Net(t) != 0 && row == RowFor(t.account, Net(t))
  {
    hide Money.FromUnits;
    if totals != [] {
      TrialRowsAre(totals[1..], row);
      assert forall t :: t in totals <==> t == totals[0] || t in totals[1..];
    }
  }

  /** The trial balance shows exactly the accounts with a balance: a positive one as debit, a negative one as credit,
      the other column zero. */
  lemma TrialBalanceShows(b: Books, order: seq<Id>, asOf: int, row: TrialRow)
    requires forall i :: 0 <= i < |order| ==> order[i] in b.accounts
    requires TrialBalanceAt(b, order, asOf).Some?
    ensures var balance := Balance(b, row.account, Range(None, asOf));
            row in TrialBalanceAt(b, order, asOf).value.rows <==>
              row.account in order && balance != 0 && row == RowFor(row.account, balance)
  {
    hide Totals, TrialRows, SumColumn, AccountSum, Money.FromUnits, Balance, RowFor;
    var range := Range(None, asOf);
    var totals := Totals(b, order, range).value;
    var balance := Balance(b, row.account, range);
    TrialRowsAre(totals, row);
    RowForIs(row.account, balance);
    if balance != 0 { TotalsAre(b, order, range, row.account, balance); }
    if row in TrialRows(totals) {
      var t :| t in totals && Net(t) != 0 && row == RowFor(t.account, Net(t));
      RowForIs(t.account, Net(t));
      TotalsAre(b, order, range, t.account, Net(t));
    }
  }

  lemma RowForIs(account: Id, balance: int)
    ensures RowFor(account, balance).account == account
  {
  }

  /** The sum of one side of the balances: the positive ones, or the negative ones with their sign turned. */
  function SideTotal(b: Books, order: seq<Id>, range: Range, debit: bool): int {
    if order == [] then 0
    else
      var balance := if debit then Balance(b, order[0], range) else -Balance(b, order[0], range);
      (if balance > 0 then balance else 0) + SideTotal(b, order[1..], range, debit)
  }

  lemma {:induction false} ColumnIsSide(b: Books, order: seq<Id>, range: Range, debit: bool)
    requires forall i :: 0 <= i < |order| ==> order[i] in b.accounts
    requires Totals(b, order, range).Some?
    requires SumColumn(TrialRows(Totals(b, order, range).value), debit).Some?
    ensures SumColumn(TrialRows(Totals(b, order, range).value), debit).value == SideTotal(b, order, range, debit)
  {
    hide AccountSum, Canonical, Joined, Money.FromUnits, Money.ToUnits;
    if order != [] {
      if Joined(b, order[0], range) {
        CanonicalKeeps(AccountSum(b, order[0], range, true));
        CanonicalKeeps(AccountSum(b, order[0], range, false));
        var t := Totals(b, order, range).value;
        assert t[1..] == Totals(b, order[1..], range).value;
        var net := Net(t[0]);
        Money.MoneyRoundTrip(if net > 0 then net else 0);
        Money.MoneyRoundTrip(if net < 0 then -net else 0);
        if net != 0 { assert TrialRows(t)[1..] == TrialRows(t[1..]); }
      } else {
        NoBalance(b, order[0], range);
      }
      ColumnIsSide(b, order[1..], range, debit);
    }
  }

  /** Its totals are the sums of the positive and of the negative balances of the chart. */
  lemma TrialBalanceTotals(b: Books, order: seq<Id>, asOf: int)
    requires forall i :: 0 <= i < |order| ==> order[i] in b.accounts
    requires TrialBalanceAt(b, order, asOf).Some?
    ensures var report := TrialBalanceAt(b, order, asOf).value;
            && report.totalDebit == Money.FromUnits(SideTotal(b, order, Range(None, asOf), true))
            && report.totalCredit == Money.FromUnits(SideTotal(b, order, Range(None, asOf), false))
  {
    hide Totals, TrialRows, SumColumn, SideTotal, Money.FromUnits;
    ColumnIsSide(b, order, Range(None, asOf), true);
    ColumnIsSide(b, order, Range(None, asOf), false);
  }

  /** Assets are shown as the debit balance of the asset accounts; liabilities, equity and earnings as credit balances
      of theirs; and the right side is the sum of these three. */
  lemma BalanceSheetShows(b: Books, order: seq<Id>, asOf: int)
    requires forall i :: 0 <= i < |order| ==> order[i] in b.accounts
    requires BalanceSheetAt(b, order, asOf).Some?
    ensures var r, range := BalanceSheetAt(b, order, asOf).value, Range(None, asOf);
            var liabilities, equity := -ChartNet(b, order, range, Liability), -ChartNet(b, order, range, Equity);
            var earnings := -ChartNet(b, order, range, Income) - ChartNet(b, order, range, Expense);
            && r.assets == Money.FromUnits(ChartNet(b, order, range, Asset))
            && r.liabilities == Money.FromUnits(liabilities) && r.equity == Money.FromUnits(equity)
            && r.earnings == Money.FromUnits(earnings)
            && r.rightSide == Money.FromUnits(liabilities + equity + earnings)
            && (r.balanced <==> ChartNet(b, order, range, Asset) == liabilities + equity + earnings)
  {
    hide Totals, SectionTotal, NetOfKind, Canonical, Money.FromUnits, ChartNet;
    var range := Range(None, asOf);
    SectionShows(b, order, range, Asset);
    SectionShows(b, order, range, Liability);
    SectionShows(b, order, range, Equity);
    KindNetIsChartNet(b, order, range, Income);
    KindNetIsChartNet(b, order, range, Expense);
  }

  lemma SectionShows(b: Books, order: seq<Id>, range: Range, kind: AccountType)
    requires forall i :: 0 <= i < |order| ==> order[i] in b.accounts
    requires Totals(b, order, range).Some?
    ensures var section := Canonical(SectionTotal(Totals(b, order, range).value, kind));
            section.Some? ==>
              section.value == if kind == Asset || kind == Expense then ChartNet(b, order, range, kind)
                               else -ChartNet(b, order, range, kind)
  {
    hide Totals, SectionTotal, NetOfKind, Canonical, ChartNet;
    var t := Totals(b, order, range).value;
    SectionIsNet(t, kind);
    KindNetIsChartNet(b, order, range, kind);
    CanonicalKeeps(SectionTotal(t, kind));
  }

  /** Net income is the credit balance of the income accounts over the period less the debit balance of the expenses. */
  lemma NetIncomeShows(b: Books, order: seq<Id>, from: int, to: int)
    requires forall i :: 0 <= i < |order| ==> order[i] in b.accounts
    requires NetIncome(b, order, from, to).Some?
    ensures var range := Range(Some(from), to);
            NetIncome(b, order, from, to).value ==
            Money.FromUnits(-ChartNet(b, order, range, Income) - ChartNet(b, order, range, Expense))
  {
    hide Totals, SectionTotal, Canonical, Money.FromUnits, ChartNet;
    SectionShows(b, order, Range(Some(from), to), Income);
    SectionShows(b, order, Range(Some(from), to), Expense);
  }
}

/** The ledger of one account: opening balance, a running balance over its posted lines, closing balance. */
module GeneralLedger {
  import opened Wrappers
  import opened Ledger
  import opened Reports
  import Money

  function OnAccount(lines: seq<Line>, account: Id): seq<Line> {
    if lines == [] then []
    else (if lines[0].account == account then [lines[0]] else []) + OnAccount(lines[1..], account)
  }

  /** The account's lines of the entries that count, in identifier order. */
  function PostedLines(b: Books, account: Id, range: Range, n: nat): seq<Line> {
    if n == 0 then []
    else PostedLines(b, account, range, n - 1) +
         if n - 1 in b.entries && Counts(b.entries[n - 1], range)
         then OnAccount(b.entries[n - 1].lines, account) else []
  }

  function NetOf(lines: seq<Line>): int {
    if lines == [] then 0 else NetOf(lines[..|lines| - 1]) + lines[|lines| - 1].debit - lines[|lines| - 1].credit
  }

  function AccountNet(b: Books, account: Id, range: Range): int {
    AccountSum(b, account, range, true) - AccountSum(b, account, range, false)
  }

  lemma {:induction false} NetOfConcat(x: seq<Line>, y: seq<Line>)
    ensures NetOf(x + y) == NetOf(x) + NetOf(y)
  {
    if y == [] {
      assert x + y == x;
    } else {
      assert (x + y)[..|x + y| - 1] == x + y[..|y| - 1];
      NetOfConcat(x, y[..|y| - 1]);
    }
  }

  lemma {:induction false} NetOnAccount(lines: seq<Line>, account: Id)
    ensures NetOf(OnAccount(lines, account)) == LineSum(lines, account, true) - LineSum(lines, account, false)
  {
    if lines != [] {
      NetOnAccount(lines[1..], account);
      var here := if lines[0].account == account then [lines[0]] else [];
      NetOfConcat(here, OnAccount(lines[1..], account));
      assert here != [] ==> here[..0] == [];
    }
  }

  lemma {:induction false} PostedLinesNet(b: Books, account: Id, range: Range, n: nat)
    ensures NetOf(PostedLines(b, account, range, n)) ==
            SumBelow(b, account, range, true, n) - SumBelow(b, account, range, false, n)
  {
    if n > 0 {
      PostedLinesNet(b, account, range, n - 1);
      if n - 1 in b.entries && Counts(b.entries[n - 1], range) {
        NetOnAccount(b.entries[n - 1].lines, account);
        NetOfConcat(PostedLines(b, account, range, n - 1), OnAccount(b.entries[n - 1].lines, account));
      } else {
        assert PostedLines(b, account, range, n) == PostedLines(b, account, range, n - 1);
      }
    }
  }

  lemma NetOfRemoved(y: seq<Line>, i: nat)
    requires i < |y|
    ensures NetOf(y) == NetOf(y[..i] + y[i + 1..]) + NetOf([y[i]])
  {
    hide NetOf;
    assert y == y[..i] + y[i..] && y[i..] == [y[i]] + y[i + 1..];
    NetOfConcat(y[..i], y[i..]);
    NetOfConcat([y[i]], y[i + 1..]);
    NetOfConcat(y[..i], y[i + 1..]);
  }

  lemma MultisetRemoved(y: seq<Line>, i: nat)
    requires i < |y|
    ensures multiset(y[..i] + y[i + 1..]) == multiset(y) - multiset{y[i]}
  {
    assert y == y[..i] + [y[i]] + y[i + 1..];
  }

  /** The order of the lines does not matter to their net amount. */
  lemma {:induction false} NetOfPermutation(x: seq<Line>, y: seq<Line>)
    requires multiset(x) == multiset(y)
    ensures NetOf(x) == NetOf(y)
    decreases |x|
  {
    if x == [] {
      assert |multiset(y)| == 0;
    } else {
      var end := |x| - 1;
      assert x[end] in multiset(y);
      var i :| 0 <= i < |y| && y[i] == x[end];
      MultisetRemoved(x, end);
      MultisetRemoved(y, i);
      NetOfPermutation(x[..end] + x[end + 1..], y[..i] + y[i + 1..]);
      NetOfRemoved(x, end);
      NetOfRemoved(y, i);
    }
  }

  function Signed(kind: AccountType, net: int): int {
    if DebitNormal(kind) then net else -net
  }

  /** `lines` is what the query returns: the account's lines of the period, in whatever order it sorts them.
      Each line shows the balance after it, and the closing balance is the account's balance at the end of the
      period, computed from nothing but the opening balance and these lines. */
  method LedgerReport(b: Books, account: Id, from: int, to: int, lines: seq<Line>)
    returns (opening: string, balances: seq<string>, closing: string)
    requires account in b.accounts && from <= to
    requires multiset(lines) == multiset(PostedLines(b, account, Range(Some(from), to), b.nextEntry))
    ensures opening == Money.FromUnits(Signed(b.accounts[account].kind, AccountNet(b, account, Range(None, from - 1))))
    ensures closing == Money.FromUnits(Signed(b.accounts[account].kind, AccountNet(b, account, Range(None, to))))
    ensures |balances| == |lines|
    ensures forall k :: 0 <= k < |lines| ==>
              balances[k] == Money.FromUnits(Signed(b.accounts[account].kind,
                                                    AccountNet(b, account, Range(None, from - 1)) +
                                                    NetOf(lines[..k + 1])))
  {
    hide Money.FromUnits;
    var kind := b.accounts[account].kind;
    var sign := if DebitNormal(kind) then 1 else -1;
    var before := Range(None, from - 1);
    var balance := sign * (AccountSum(b, account, before, true) - AccountSum(b, account, before, false));
    opening := Money.FromUnits(balance);
    balances := [];
    for i := 0 to |lines|
      invariant balance == Signed(kind, AccountNet(b, account, before) + NetOf(lines[..i]))
      invariant |balances| == i
      invariant forall k :: 0 <= k < i ==>
                  balances[k] == Money.FromUnits(Signed(kind, AccountNet(b, account, before) + NetOf(lines[..k + 1])))
    {
      assert lines[..i + 1][..i] == lines[..i];
      balance := balance + sign * (lines[i].debit - lines[i].credit);
      balances := balances + [Money.FromUnits(balance)];
    }
    assert lines[..|lines|] == lines;
    closing := Money.FromUnits(balance);
    var period := Range(Some(from), to);
    NetOfPermutation(lines, PostedLines(b, account, period, b.nextEntry));
    PostedLinesNet(b, account, period, b.nextEntry);
    PeriodsAdd(b, account, from, to, true, b.nextEntry);
    PeriodsAdd(b, account, from, to, false, b.nextEntry);
  }
}

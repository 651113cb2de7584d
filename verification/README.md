# Verified model of a business platform's stateful core

The platform keeps calendars, a double-entry ledger, task boards, a file library, an offline queue, reminders, and
one database per tenant. Each of these is a small state machine over rows. This project models them in Dafny and
proves what they promise over every input, every run and every reachable state.

- **Recurring events** (`Calendar`, `CalendarFacts`, `Zone`, `Recurrence`, `RRuleText`, `RRuleForms`,
  `EventCalendar`): Gregorian calendar arithmetic, the fixpoint search from wall-clock time to an instant, lazy
  expansion of a series inside a window, and the RRULE subset of RFC 5545, section 3.3.10, as text.
- **Ledger, daybook and reports** (`Decimal`, `Money`, `Ledger`, `LedgerInvariants`, `LedgerEffects`, `LedgerRules`,
  `Triggers`, `JournalNumbers`, `Postings`, `Segregation`, `ClosedBooks`, `Reports`, `ReportContents`, `GeneralLedger`,
  `AccountingService`): journal entries from draft to reversed, what each transaction does and when it is accepted, the
  database triggers behind them, gapless numbers, the lock date, segregation of duties, the daybook kept in step with
  the journal, and reports by account.
- **Exactly-once sync** (`CanonicalJson`, `JsonTexts`, `OfflineQueue`, `ExactlyOnce`, `Retries`, `Interceptor`): the
  client's queue, the server's idempotency keys, the network between them, and what trying again comes to.
- **Board** (`Board`, `BoardDrops`, `BoardEffects`, `PlannerService`): numeric positions that stand for plain lists of
  tasks, what a drop anywhere else than between neighbours does to them, and the versions of the tasks.
- **File library** (`Library`, `LibraryEffects`, `FolderRaces`, `FilesService`): a forest of folders with moves, trash,
  restore and purge, and what moves and creations do when other requests come between their checks and their writes.
- **Reminders** (`Reminders`, `RollForward`, `ReminderService`): the search for the next lead time and the
  roll-forward of a reminder by concurrent, failing workers.
- **Tenant pools** (`Pools`, `ConnectionManager`) and **lifecycle jobs** (`Jobs`, `JobRunner`).

Two kinds of module appear side by side. Value modules define each transaction, or each segment between two awaits, as
a function on the state, and prove invariants over all runs, when an operation is accepted, and what it does to the item
it is about and to no other. Service modules hold the same state in the fields of a class, follow the source's
statements and loops, and are proved to do exactly what those functions say. Where steps interleave (sync, reminders,
pools, jobs), the service method is proved to take the steps of the protocol in order when nothing interrupts it, and
the protocol is proved for every interleaving.

Amounts are integers in units of 0.0001, instants are milliseconds since 1970, board positions are integers in units of
1e-10 (the scale of the column), and a time zone is its offset as a function of the instant. Identifiers are natural
numbers. `dafny verify dfyconfig.toml` checks the project.

## Model

| member | source | states |
|---|---|---|
| Calendar.DayNumberIncreases | packages/shared/src/recurrence.ts:137-142 | day numbers order real dates exactly as the calendar does |
| Calendar.CivilRoundTrip | packages/shared/src/recurrence.ts:138-141 | the UTC accessors undo Date.UTC on every real date |
| Calendar.ClockRoundTrip | packages/shared/src/recurrence.ts:123-128 | reading a clock and passing it to Date.UTC gives back the whole second, from year 100 on |
| Calendar.AddDaysAdds | packages/shared/src/recurrence.ts:138-141 | adding n days gives the date whose day number is n higher, over month and year ends, for the year the helper means: Date.UTC re-reads 0 to 99 as 1900 to 1999 |
| Calendar.DaysInMonthIsLength | packages/shared/src/recurrence.ts:142 | asking for day 0 of the next month gives the length of this one, of the year as re-read |
| CalendarFacts.KnownDays | packages/shared/src/recurrence.ts:137-141 | day 0 is Thursday, 1 January 1970; 8 March 2026 is the Sunday it was |
| CalendarFacts.FourCenturies | packages/shared/src/recurrence.ts:138-142 | four hundred years are 146,097 days, a whole number of weeks |
| CalendarFacts.TwoDigitYears | packages/shared/src/recurrence.ts:125 | Date.UTC takes the years 0 to 99 for 1900 to 1999 |
| CalendarFacts.WeeksBeginOnMonday | packages/shared/src/recurrence.ts:137-196 | the weeks a weekly rule counts begin on Monday |
| Zone.ZonedToUtc | packages/shared/src/recurrence.ts:123-135 | the loop computes three applications of the settling step with its early exit |
| Zone.SettleClosed | packages/shared/src/recurrence.ts:126-133 | the search applies the offset of the previous guess three times |
| Zone.LocalTimeResolved | packages/shared/src/recurrence.ts:122-135 | near at most one offset change the result reads the requested time whenever some instant does; a skipped time comes out displaced by exactly the gap width |
| Zone.ZonedTimeResolved | packages/shared/src/recurrence.ts:122-135 | the same for the wall clock and Date.UTC of the zone itself |
| Zone.SkippedLocalTime | packages/shared/src/recurrence.ts:125-133 | the skipped case occurs: 02:30 on a New York spring-forward night comes out as 03:30 |
| Zone.SearchLeadsBack | packages/shared/src/recurrence.ts:123-135 | near at most one offset change, searching for what the clock shows at an instant finds that instant again if and only if the local time is not repeated or the instant is on the side of the change that the local time itself, taken as an instant, is on |
| Zone.NextDayIsLater | packages/shared/src/recurrence.ts:123-135 | when no change within three days moves the clocks forward by a day or more, the same time on the next day is a later instant |
| Zone.LaterDayIsLater | packages/shared/src/recurrence.ts:123-135 | the same for any later day |
| Zone.SingleChangeInOrder | packages/shared/src/recurrence.ts:123-135 | for a zone with a single change, every day comes later than the one before if and only if that change moves the clocks forward by less than a day |
| Zone.DayLongJumpCollides | packages/shared/src/recurrence.ts:123-135 | the failing case occurs: over the day Samoa skipped, two consecutive days come out as one instant |
| Recurrence.StepNames | packages/shared/src/recurrence.ts:186-212 | the dates one loop step tries are exactly the dates RFC 5545 names in the period that step stands for |
| Recurrence.DatesNamed | packages/shared/src/recurrence.ts:185-212 | all steps together try exactly the dates the rule names, up to the step cap |
| Recurrence.DatesOrdered | packages/shared/src/recurrence.ts:185-212 | the dates tried are strictly increasing, across steps and weekdays |
| Recurrence.StartsFollowDates | packages/shared/src/recurrence.ts:172-173 | later dates start later, in any steady zone |
| Recurrence.ExpandOccurrences | packages/shared/src/recurrence.ts:160-214 | the nested loops with their early exits return the scan of the candidate starts, and so the first `limit` members of the series that overlap the window |
| Recurrence.ScanFindsWindow | packages/shared/src/recurrence.ts:171-183 | on increasing starts the early exits lose nothing: the scan equals filtering the whole list by UNTIL, COUNT, window and limit |
| Recurrence.ExpansionIsWindowOfSeries | packages/shared/src/recurrence.ts:156-214 | expanding over any window yields the overlapping members of one fixed, window-independent list |
| Recurrence.KeptIsNamed | packages/shared/src/recurrence.ts:160-214 | that list, before COUNT, holds exactly the starts of the named dates from the series' start to UNTIL |
| Recurrence.SeriesIncreases | packages/shared/src/recurrence.ts:160-214 | the list is strictly increasing and starts no earlier than the series |
| Recurrence.ExpansionExact | packages/shared/src/recurrence.ts:156-214 | below the limit, an occurrence is returned if and only if it belongs to the series and overlaps the window, in increasing order |
| Recurrence.StepCapIsEnough | packages/shared/src/recurrence.ts:185 | once a date within the cap starts past the window, a higher cap changes nothing |
| Recurrence.SeriesEnd | packages/shared/src/recurrence.ts:217-223 | null for open-ended series, else the end of the last expanded occurrence, else the first end |
| Recurrence.SeriesEndBounds | packages/shared/src/recurrence.ts:216-223 | the stored end bounds every occurrence if and only if there are at most 1000, which COUNT guarantees and UNTIL does not |
| Recurrence.StoredEndIs | packages/shared/src/recurrence.ts:217-223 | the stored end is the event's own without a rule, none for an open-ended one, else the end of the last of the first thousand occurrences |
| Recurrence.StartLeadsBack | packages/shared/src/recurrence.ts:166-173 | near at most one offset change, the first date comes out as the series' own start under exactly that condition |
| Recurrence.StartBelongs | packages/shared/src/recurrence.ts:160-214 | so the start is one of its series' occurrences under exactly that condition, for a rule that selects its date and an UNTIL no earlier |
| Recurrence.SecondHourDropsStart | packages/shared/src/recurrence.ts:167-174 | against the comment that the first occurrence equals the start exactly: a daily event that starts at the second 01:30 of New York's autumn night does not contain its own start |
| RRuleText.SplitJoin | packages/shared/src/recurrence.ts:29-33 | splitting at a separator undoes joining with it |
| RRuleText.PrintedFieldsRead | packages/shared/src/recurrence.ts:25-37 | parsing printed key=value parts reads exactly the table of their fields |
| RRuleText.UntilReads | packages/shared/src/recurrence.ts:50-52 | a printed UNTIL reads back if and only if it is a whole second of the years 100 to 9999 |
| RRuleText.ByDayReads | packages/shared/src/recurrence.ts:55-60 | a printed BYDAY list reads back, and sorting without repeats leaves it as it is |
| RRuleText.DaysBelowAre | packages/shared/src/recurrence.ts:59 | the stored weekdays are in the week's order, each once, and exactly the given ones |
| RRuleText.PrintedRuleParses | packages/shared/src/recurrence.ts:25-71 | for every valid rule, parsing the printed rule gives it back if and only if UNTIL is such an instant |
| RRuleText.ParsedRuleIsValid | packages/shared/src/recurrence.ts:25-62 | every accepted text gives a rule within all bounds, UNTIL on a whole second |
| RRuleText.CanonicalRule | packages/shared/src/recurrence.ts:25-71 | printing what was parsed gives a stable canonical text, exactly for UNTIL in the years 100 to 9999 |
| RRuleForms.DateUntilIncludesItsDay | packages/shared/src/recurrence.ts:49-53 | an UNTIL that is a date alone includes its whole day: a whole second is not after it if and only if its UTC date is not later |
| RRuleForms.TimedUntilIsUtc | packages/shared/src/recurrence.ts:49-53 | an UNTIL with a time is that wall clock of UTC, with or without the Z |
| RRuleForms.PrefixIgnored | packages/shared/src/recurrence.ts:28 | one RRULE prefix is taken off, in whatever case it is written, and changes nothing |
| RRuleForms.CaseIgnored | packages/shared/src/recurrence.ts:25-37 | texts that differ only in the case of letters parse to the same rule or the same error |
| RRuleForms.IntervalsAccepted | packages/shared/src/recurrence.ts:41-42 | an interval is accepted, and read as written, if and only if it is 1 to 366 |
| RRuleForms.CountsAccepted | packages/shared/src/recurrence.ts:44-47 | a count if and only if it is 1 to 1000 |
| EventCalendar.Occurrences | apps/api/src/modules/events/events.service.ts:69-128 | what the query lets through is expanded over the widened window, and the loop shows the rows that survive cancellation and overlap the window after changes |
| EventCalendar.ShownExactly | apps/api/src/modules/events/events.service.ts:72-107 | while the expansion stays within its limit, an occurrence is shown if and only if its changed times overlap the window, its original ones the widened window, the series starts before the window ends, and the stored end, if any, lies after the window's start |
| EventCalendar.SmallMoveShown | apps/api/src/modules/events/events.service.ts:72-107 | so a move of at most two weeks that stays between the series' start and its stored end is always found |
| EventCalendar.UnmovedShown | apps/api/src/modules/events/events.service.ts:72-107 | an unmoved occurrence is shown if and only if it overlaps the window and the stored end lies after the window's start, which holds for every series of at most 1000 occurrences |
| EventCalendar.MovedBeforeStartIsMissed | apps/api/src/modules/events/events.service.ts:308-330 | moving does not update the columns the query reads: a first occurrence brought forward by three days is not shown in its new week |
| EventCalendar.RowsTell | apps/api/src/modules/events/events.service.ts:100-128 | every row shown tells of an occurrence of the series in its changed times, which overlap the window; a cancelled one is shown only on request |
| EventCalendar.ChangedShown | apps/api/src/modules/events/events.service.ts:72-128 | within the bounds of the query and the widened window, a changed occurrence is shown with its changed times exactly when these overlap the window, a cancelled one exactly on request |
| Decimal.ValueOfPrint | packages/shared/src/accounting.ts:21-27 | reading a printed number gives it back |
| Decimal.PaddedPrint | apps/api/src/modules/accounting/accounting.service.ts:409 | padding keeps the number, for numbers of any size and any width |
| Decimal.PaddedLength | apps/api/src/modules/accounting/accounting.service.ts:409 | padding reaches the width, and cuts nothing off a longer number |
| Decimal.PrintLength | packages/shared/src/accounting.ts:13-27 | a printed number has at most k digits if and only if it is below 10^k |
| Money.MoneyRoundTrip | packages/shared/src/accounting.ts:9-27 | reading a printed amount gives it back if and only if its whole part has at most fifteen digits; otherwise reading throws |
| Money.UnitsOfPrinted | packages/shared/src/accounting.ts:13-27 | printed amounts of any size denote their units |
| Money.CanonicalInjective | packages/shared/src/accounting.ts:21-27 | two canonical strings are equal if and only if the amounts are |
| Money.NormalizeKeepsAmount | packages/shared/src/accounting.ts:29-32 | normalizing keeps the amount and is idempotent |
| Money.SumOfPrinted | packages/shared/src/accounting.ts:34-36 | the sum of printed amounts prints their exact sum |
| Money.EqualTotalsEqualSums | packages/shared/src/accounting.ts:34-36 | comparing the printed totals of two lists decides whether the lists add up to the same amount |
| Money.UnitsOfAmount | packages/shared/src/accounting.ts:13-19 | a text with k fraction digits denotes whole * 10^4 + fraction * 10^(4-k) units, negative with a sign |
| Money.ReadExactly | packages/shared/src/accounting.ts:11-14 | a text is read if and only if it is a sign or none, one to fifteen digits, and perhaps a dot and one to four digits |
| LedgerInvariants.ValidatedLines | apps/api/src/modules/accounting/accounting.service.ts:261-272 | accepted lines balance exactly, total more than zero, and name existing active accounts |
| LedgerInvariants.BalancedPassesGuard | apps/api/migrations/tenant/0003_accounting_integrity.sql:34-48 | what validation accepts the database trigger accepts, mirror images included |
| LedgerInvariants.CreateEntryKeeps | apps/api/src/modules/accounting/accounting.service.ts:281-313 | creating an entry keeps the consistency of the books |
| LedgerInvariants.UpdateEntryKeeps | apps/api/src/modules/accounting/accounting.service.ts:315-344 | so does updating one |
| LedgerInvariants.DeleteEntryKeeps | apps/api/src/modules/accounting/accounting.service.ts:346-359 | so does deleting one |
| LedgerInvariants.SubmitKeeps | apps/api/src/modules/accounting/accounting.service.ts:361-383 | so does submitting |
| LedgerInvariants.ApproveKeeps | apps/api/src/modules/accounting/accounting.service.ts:385-393 | so does approving |
| LedgerInvariants.PostKeeps | apps/api/src/modules/accounting/accounting.service.ts:413-449 | so does posting, number and daybook row included |
| LedgerInvariants.ReverseKeeps | apps/api/src/modules/accounting/accounting.service.ts:460-501 | so does reversing, with the mirror entry, the links and the daybook row |
| LedgerInvariants.CreateRowKeeps | apps/api/src/modules/accounting/daybook.service.ts:67-113 | so does a daybook row, posted at once or not |
| LedgerInvariants.UpdateRowKeeps | apps/api/src/modules/accounting/daybook.service.ts:115-150 | so does changing a pending row and its entry |
| LedgerInvariants.VoidRowKeeps | apps/api/src/modules/accounting/daybook.service.ts:152-165 | so does voiding a row and dropping its entry |
| LedgerInvariants.NextKeeps | apps/api/src/modules/accounting/accounting.service.ts:261-504 | every transaction keeps the books consistent |
| LedgerInvariants.RunKeeps | apps/api/src/modules/accounting/accounting.service.ts:261-504 | every interleaved run of ledger and daybook transactions does |
| LedgerInvariants.ReachableConsistent | apps/api/src/modules/accounting/daybook.service.ts:67-165 | from a new tenant on, entries are balanced, numbered and linked, and each daybook row agrees with its entry: pending with unposted, posted with posted, void with none or a reversed one |
| LedgerInvariants.GuardNeverRefuses | apps/api/migrations/tenant/0003_accounting_integrity.sql:34-48 | in a reachable state the trigger's balance check accepts every posting and every mirror entry |
| Triggers.TriggersNeverRefuse | apps/api/migrations/tenant/0003_accounting_integrity.sql:8-94 | in a reachable state every statement of every transaction passes the insert, update, delete and line triggers, the step from posted to reversed included, and together they write exactly the transaction's entries |
| LedgerInvariants.VoidNeverBlocked | apps/api/src/modules/accounting/daybook.service.ts:152-165 | in a reachable state the foreign key never blocks voiding a row |
| LedgerInvariants.NumbersAreGapless | apps/api/src/modules/accounting/accounting.service.ts:401-446 | posted and reversed entries carry exactly the numbers 1 to next - 1, once each; nothing else carries one |
| LedgerInvariants.ReversalsPair | apps/api/src/modules/accounting/accounting.service.ts:460-504 | reversal links are inverse to each other, a reversed entry has one posted mirror dated no earlier, and no reversal is reversed |
| JournalNumbers.NumberTextsDiffer | apps/api/src/modules/accounting/accounting.service.ts:401-410 | no two posted entries carry the same number text, however far the numbers outgrow the padding |
| LedgerEffects.RowsAreBooked | apps/api/src/modules/accounting/daybook.service.ts:48-64 | in every consistent state a row's entry has its date and amount and nets to +amount on the money account for income, -amount for expenses and transfers, the opposite on the other account and nothing elsewhere |
| LedgerEffects.RowCreated | apps/api/src/modules/accounting/daybook.service.ts:67-113 | a new row has its input and a new entry of its author that books it so, pending or posted; nothing else changes |
| LedgerEffects.RowUpdated | apps/api/src/modules/accounting/daybook.service.ts:115-150 | an accepted change is in the row and, booked so, in its entry, both at the next version; nothing else changes |
| LedgerEffects.CreatedRowMoves | apps/api/src/modules/accounting/daybook.service.ts:67-113 | a row posted at once moves exactly its two accounts by those amounts from its date on; a pending one moves nothing |
| LedgerEffects.UpdatedRowMoves | apps/api/src/modules/accounting/daybook.service.ts:115-150 | a change of a pending row moves no account |
| LedgerEffects.PostedRowMoves | apps/api/src/modules/accounting/accounting.service.ts:413-449 | a row's entry posted later moves the accounts as the row says at that time, and the row is posted |
| LedgerEffects.RowVoided | apps/api/src/modules/accounting/daybook.service.ts:152-165 | voiding drops the link and the unposted entry and nothing else |
| LedgerEffects.EntryCreated | apps/api/src/modules/accounting/accounting.service.ts:281-313 | a new entry is a draft of its author with the given date and lines and their total |
| LedgerEffects.EntryUpdated | apps/api/src/modules/accounting/accounting.service.ts:315-344 | a changed entry has the given date and lines, is a draft again, and at its next version |
| LedgerEffects.PostTouches | apps/api/src/modules/accounting/accounting.service.ts:413-449 | posting gives the next number and an approver, keeps the rest of the entry, and marks its row only |
| LedgerEffects.ReverseTouches | apps/api/src/modules/accounting/accounting.service.ts:460-501 | reversing keeps the entry but for status and link, adds the mirror at the given date with the sides of every line exchanged, and voids its row only |
| LedgerEffects.SameVersionSameEntry | apps/api/src/modules/accounting/accounting.service.ts:281-501 | over every run an entry at the same version is the same entry, and no version comes back |
| LedgerEffects.OneEditPerVersion | apps/api/src/modules/accounting/accounting.service.ts:315-344 | of the changes sent with one version of an entry at most one is accepted, over every run |
| LedgerEffects.OneRowEditPerVersion | apps/api/src/modules/accounting/daybook.service.ts:115-150 | the same of daybook rows |
| LedgerRules.LinesAccepted | apps/api/src/modules/accounting/accounting.service.ts:261-272 | lines are accepted if and only if debits equal credits, come to more than zero and at most fifteen whole digits, and go to active accounts |
| LedgerRules.WorkflowBeforePosting | apps/api/src/modules/accounting/accounting.service.ts:315-399 | exactly when an entry can be changed, deleted, submitted and approved |
| LedgerRules.WorkflowOfPosting | apps/api/src/modules/accounting/accounting.service.ts:413-501 | exactly when a consistent entry can be posted and reversed |
| LedgerRules.RefusalsMean | apps/api/src/modules/accounting/accounting.service.ts:315-399 | what each refusal of a change, deletion, submission or approval says about the entry |
| LedgerRules.PostingRefusalsMean | apps/api/src/modules/accounting/accounting.service.ts:413-480 | what each refusal of a posting or a reversal says |
| LedgerRules.RowCreatedExactly | apps/api/src/modules/accounting/daybook.service.ts:36-113 | exactly for which accounts, amounts, permissions and dates a row is created |
| LedgerRules.RowUpdatedExactly | apps/api/src/modules/accounting/daybook.service.ts:115-150 | exactly when a row can be changed, and what its refusals say |
| LedgerRules.RowVoidedExactly | apps/api/src/modules/accounting/daybook.service.ts:152-165 | a row can be voided if and only if it is not posted |
| ClosedBooks.NextKeepsPast | apps/api/src/modules/accounting/accounting.service.ts:274-278 | under the lock no transaction changes which lines count on or before the lock date |
| ClosedBooks.ClosedBooksStayClosed | apps/api/src/modules/accounting/accounting.service.ts:274-504 | no run under the lock, reversals and daybook included, changes any account's totals as of a covered date |
| ClosedBooks.ReversalCancels | apps/api/src/modules/accounting/accounting.service.ts:460-504 | from the mirror's date on, a reversed entry and its mirror add zero to every account |
| Segregation.AuthorsNeverApprove | apps/api/src/modules/accounting/accounting.service.ts:385-439 | while segregation of duties stays on and users give the approvals, over every run no entry but a reversal is approved by its own author |
| Segregation.AuthorsApproveExactly | apps/api/src/modules/accounting/accounting.service.ts:385-439 | over every run under the setting, whoever approves: no entry but a reversal carries its author as the approver, if and only if no author posted an entry approved by an actor without a user |
| Segregation.PostRecordsAuthor | apps/api/src/modules/accounting/accounting.service.ts:425-439 | under the setting, posting makes the author the approver if and only if the entry is approved with no approver on record and the author posts it |
| Segregation.UnsignedApprovalPosts | apps/api/src/modules/accounting/accounting.service.ts:38-439 | every valid pending entry approved by an actor without a user can be posted by its author, who is then on record as the approver |
| Segregation.AuthorApprovesInTheEnd | apps/api/src/modules/accounting/accounting.service.ts:38-439 | the failing case occurs, with the setting on |
| Segregation.AuthorPostsWhatOthersApproved | apps/api/src/modules/accounting/accounting.service.ts:425 | posting checks the author only while there is no approval: an author can post an entry that others could post if and only if somebody else has approved it |
| Segregation.NextKeepsSeparate | apps/api/src/modules/accounting/accounting.service.ts:395-399 | no single transaction breaks that separation, a daybook row posted on creation included |
| Postings.PostedIsFinal | apps/api/migrations/tenant/0003_accounting_integrity.sql:21-32 | through any run a posted entry keeps its date, lines, total, number, author and approver; all that can happen to it is one reversal |
| Postings.NextMovesTotals | apps/api/src/modules/accounting/accounting.service.ts:413-501 | a transaction moves every account's totals by exactly the lines it posts or mirrors; all others move nothing |
| Postings.RunMovesTotals | apps/api/src/modules/accounting/accounting.service.ts:413-501 | over any run totals are what they were plus what the run posted |
| Reports.Exchange | apps/api/src/modules/accounting/reports.service.ts:38-66 | sums over accounts of sums over entries equal sums over entries of their totals |
| Reports.EntriesBalance | apps/api/src/modules/accounting/reports.service.ts:38-66 | in a consistent state the counted entries have equal debits and credits |
| Reports.TotalsSum | apps/api/src/modules/accounting/reports.service.ts:38-66 | the rows the query returns net to the difference of the sums over all accounts |
| Reports.TrialBalanceBalances | apps/api/src/modules/accounting/reports.service.ts:68-78 | the trial balance is balanced in every reachable state for every date |
| Reports.BalanceSheetBalances | apps/api/src/modules/accounting/reports.service.ts:151-167 | the balance sheet is balanced in every reachable state for every date |
| Reports.TrialBalanceExists | apps/api/src/modules/accounting/reports.service.ts:68-78 | the report is produced if and only if both sides of every account stay within fifteen whole digits |
| Reports.BalanceSheetExists | apps/api/src/modules/accounting/reports.service.ts:151-167 | the balance sheet is produced if and only if, besides, the totals of its three sections do |
| Reports.PeriodsAdd | apps/api/src/modules/accounting/reports.service.ts:38-66 | an account's sums up to a date are those up to the eve of a period plus those of the period |
| Reports.EarningsGrowByNetIncome | apps/api/src/modules/accounting/reports.service.ts:144-167 | earnings on the balance sheet grow over a period by the net income of the period |
| ReportContents.TrialBalanceShows | apps/api/src/modules/accounting/reports.service.ts:68-78 | the trial balance has exactly the accounts with a balance, a positive one as debit, a negative one as credit |
| ReportContents.TrialBalanceTotals | apps/api/src/modules/accounting/reports.service.ts:68-78 | its totals are the sums of the positive and of the negative balances |
| ReportContents.BalanceSheetShows | apps/api/src/modules/accounting/reports.service.ts:133-167 | each section is the balance of the accounts of its own type, in their normal direction; the right side is liabilities, equity and earnings together |
| ReportContents.NetIncomeShows | apps/api/src/modules/accounting/reports.service.ts:144-149 | net income is the credit balance of the income accounts less the debit balance of the expense accounts, over the period |
| GeneralLedger.LedgerReport | apps/api/src/modules/accounting/reports.service.ts:80-131 | the running balance loop shows the right balance after every line and closes at the account's balance at the end of the period, in whatever order the lines come |
| GeneralLedger.PostedLinesNet | apps/api/src/modules/accounting/reports.service.ts:80-131 | the lines of a period net to the account's movement in it |
| GeneralLedger.NetOfPermutation | apps/api/src/modules/accounting/reports.service.ts:96-106 | the order of the lines does not matter to their net amount |
| AccountingService.Service.ValidateLines | apps/api/src/modules/accounting/accounting.service.ts:261-272 | the checks in order, with the error of the first that fails |
| AccountingService.Service.CreateEntry | apps/api/src/modules/accounting/accounting.service.ts:281-313 | rows after the call are those of the transaction, or unchanged with its error |
| AccountingService.Service.UpdateEntry | apps/api/src/modules/accounting/accounting.service.ts:315-344 | likewise |
| AccountingService.Service.DeleteEntry | apps/api/src/modules/accounting/accounting.service.ts:346-359 | likewise |
| AccountingService.Service.Submit | apps/api/src/modules/accounting/accounting.service.ts:361-383 | likewise |
| AccountingService.Service.Approve | apps/api/src/modules/accounting/accounting.service.ts:385-393 | likewise, with segregation of duties |
| AccountingService.Service.NextNumber | apps/api/src/modules/accounting/accounting.service.ts:401-410 | returns the counter's value and advances it by one |
| AccountingService.Service.Post | apps/api/src/modules/accounting/accounting.service.ts:413-449 | likewise; the number is taken after the last check |
| AccountingService.Service.Reverse | apps/api/src/modules/accounting/accounting.service.ts:460-501 | likewise |
| AccountingService.Service.CreateRow | apps/api/src/modules/accounting/daybook.service.ts:67-113 | likewise |
| AccountingService.Service.UpdateRow | apps/api/src/modules/accounting/daybook.service.ts:115-150 | likewise |
| AccountingService.Service.VoidRow | apps/api/src/modules/accounting/daybook.service.ts:152-165 | likewise |
| CanonicalJson.SortedUnique | apps/api/src/common/http/idempotency.interceptor.ts:19-21 | a set of entries has one sorted listing |
| CanonicalJson.QuotedPrefix | apps/api/src/common/http/idempotency.interceptor.ts:17-22 | quoting a string is injective even with text following it |
| CanonicalJson.PrintPrefix | apps/api/src/common/http/idempotency.interceptor.ts:16-23 | canonical texts followed by equal rests come from equal values, up to key order |
| CanonicalJson.CanonicalText | apps/api/src/common/http/idempotency.interceptor.ts:15-23 | two JSON values have the same canonical text if and only if they are equal up to object key order |
| CanonicalJson.RequestTextInjective | apps/api/src/common/http/idempotency.interceptor.ts:49 | equal hashed request text means equal route, path and body |
| JsonTexts.Words | apps/api/src/common/http/idempotency.interceptor.ts:14-23 | null, true, false, and the empty array and object |
| JsonTexts.UnitWritten | apps/api/src/common/http/idempotency.interceptor.ts:14-23 | which characters of a string are escaped, and how: by a backslash, by a letter, by the four hexadecimal digits of their number, or not at all |
| JsonTexts.StringWritten | apps/api/src/common/http/idempotency.interceptor.ts:14-23 | a string is written unit by unit between quotes, a surrogate escaped if and only if its other half is not next to it |
| JsonTexts.FieldsWritten | apps/api/src/common/http/idempotency.interceptor.ts:14-23 | two fields are written in the order of their keys, whatever order they were given in |
| OfflineQueue.ReplayAccountsForEveryOp | apps/web/src/offline/queue.ts:155-206 | after a replay every operation tried is settled by its own outcome and every other one is as it was |
| OfflineQueue.MergedEditSurvives | apps/web/src/offline/queue.ts:71-206 | an edit merged, at any point of a replay, into an operation not yet settled is still queued at the end if and only if the connection broke before that operation was settled, or it was refused and the edit changed nothing; otherwise the copy read at the start is what is settled |
| OfflineQueue.ReplayInTwoParts | apps/web/src/offline/queue.ts:173-206 | a replay taken up after any number of attempts is the rest of the same replay |
| OfflineQueue.AttemptsAreLocal | apps/web/src/offline/queue.ts:173-198 | attempts change nothing but their own operations |
| OfflineQueue.AttemptsPlace | apps/web/src/offline/queue.ts:173-198 | after a sequence of attempts each operation tried is where its own outcome puts it |
| OfflineQueue.QueueStore.Enqueue | apps/web/src/offline/queue.ts:71-111 | a task update is folded into the waiting one of its task, anything else is added; at most one update of a task keeps waiting |
| OfflineQueue.QueueStore.Pending | apps/web/src/offline/queue.ts:163-165 | exactly the waiting operations, oldest first |
| OfflineQueue.QueueStore.DoReplay | apps/web/src/offline/queue.ts:155-206 | the loop settles operations in order up to the first network error and reports the right connectivity |
| OfflineQueue.QueueStore.MarkWaiting | apps/web/src/offline/queue.ts:208-211 | marking an operation keeps one waiting update per task if and only if no other one of its task waits already |
| OfflineQueue.QueueStore.RetryOp | apps/web/src/offline/queue.ts:208-213 | marks the operation and replays: everything waiting then, oldest first, is settled by its outcome |
| OfflineQueue.QueueStore.DiscardOp | apps/web/src/offline/queue.ts:215-220 | drops one operation; the sync error clears only when no errored operation is left |
| OfflineQueue.EnqueuedLeaves | apps/web/src/offline/queue.ts:71-111 | a new operation is queued as given; a folded edit changes only the patch of the waiting one, field by field; all others are untouched |
| ExactlyOnce.NextKeeps | apps/api/src/common/http/idempotency.interceptor.ts:52-91 | every step of client, network and server, requests that reuse a key with another body included, keeps the protocol's invariant |
| ExactlyOnce.RunKeeps | apps/api/src/common/http/idempotency.interceptor.ts:52-91 | so does every run |
| ExactlyOnce.ExactlyOnceSync | apps/api/src/common/http/idempotency.interceptor.ts:52-91 | over any run of losses, duplicates, retries, crashes and keys reused with other bodies: while a key lives at most one request with it takes effect and all success replies are that one's; success replies, and leaving the queue as sent, mean that the operation took effect with its own body, also after the key expired if it was not reused |
| ExactlyOnce.SentStaysTrue | apps/web/src/offline/queue.ts:113-206 | an operation that left the queue as sent while its key lived took effect with its own body, whatever happens to the key later |
| ExactlyOnce.LateStoreMisleads | apps/api/src/common/http/idempotency.interceptor.ts:65-72 | an expired key that is reused cannot be trusted: the row is updated by key alone, so a late response is stored for the other body and answers it without an effect |
| ExactlyOnce.LateStoreReached | apps/api/src/common/http/idempotency.interceptor.ts:52-72 | such a state is reached from the empty server, for every key, body and response |
| ExactlyOnce.FailedStoreRunsTwice | apps/api/src/common/http/idempotency.interceptor.ts:65-78 | storing must not fail: whenever it does, one more delivery makes the operation take effect again |
| Retries.FailureFreesKey | apps/api/src/common/http/idempotency.interceptor.ts:71-76 | a failed request gives its key back without an effect, and the next request with it, whatever its body and whatever others do in between, runs its handler and takes effect |
| Retries.StoreThenAnswer | apps/api/src/common/http/idempotency.interceptor.ts:62-70 | a living key's response is stored for its own body and given as the answer |
| Retries.RetryIsAnswered | apps/api/src/common/http/idempotency.interceptor.ts:79-90 | from then on every request with that key is answered without an effect: with that response for the same body, with a rejection for another |
| Retries.RequestEnds | apps/api/src/common/http/idempotency.interceptor.ts:52-91 | after its reply, or a crash, a request takes no further step |
| Retries.ReceivedIsSent | apps/web/src/offline/queue.ts:173-176 | a success reply takes the operation out of the queue as sent; discarding takes it out without that |
| Retries.StaysQueued | apps/web/src/offline/queue.ts:113-220 | otherwise an operation stays in the queue, waiting or for the user to look at |
| Interceptor.Idempotency.InsertKey | apps/api/src/common/http/idempotency.interceptor.ts:52-58 | the unique index lets one request insert the key |
| Interceptor.Idempotency.Intercept | apps/api/src/common/http/idempotency.interceptor.ts:52-91 | an uninterrupted request takes the protocol's steps in order; with a free key it replies as the handler does, storing the response or leaving rows and effects as they were; otherwise it replies as stored for the same body, or rejects |
| Board.CreateRefines | apps/api/src/modules/planner/tasks.service.ts:214-240 | creating a task appends it to its column's list |
| Board.UpdateRefines | apps/api/src/modules/planner/tasks.service.ts:266-282 | a status change moves the task to the end of the other list; other updates change no list |
| Board.MidpointBetween | apps/api/src/modules/planner/tasks.service.ts:325 | between positions 5e-7 apart the rounded midpoint lies strictly between, and 5e-7 from both when they are 1e-6 apart |
| Board.RenumberShows | apps/api/src/modules/planner/tasks.service.ts:345-352 | renumbering changes no order and restores the room |
| Board.MoveRefines | apps/api/src/modules/planner/tasks.service.ts:310-353 | a drop next to its neighbours gives exactly the list with the task at that place |
| Board.RemoveRefines | apps/api/src/modules/planner/tasks.service.ts:360-364 | removing a task takes it and its subtasks out of the lists |
| BoardDrops.DropExactly | apps/api/src/modules/planner/tasks.service.ts:310-353 | an accepted drop with any neighbours leaves distinct places if and only if it renumbers or no other task of the column lies within 5e-7 of the new position; without renumbering the task joins the list at the place of that position |
| BoardDrops.DropAfterOnly | apps/api/src/modules/planner/tasks.service.ts:326 | for a drop that names only the upper neighbour: if and only if no other task lies within 5e-7 of one step below it; and it lands right below that neighbour if and only if no other task lies on the way |
| Board.NextRefines | apps/api/src/modules/planner/tasks.service.ts:203-371 | every operation is the list operation and keeps positions at least 5e-7 apart |
| Board.RunRefines | apps/api/src/modules/planner/tasks.service.ts:203-371 | so is every run |
| Board.NextNumbered | apps/api/src/modules/planner/tasks.service.ts:215-219 | no two tasks of a project share a number, and the counter stays ahead |
| Board.RunNumbered | apps/api/src/modules/planner/tasks.service.ts:215-219 | over every run |
| BoardEffects.TaskCreated | apps/api/src/modules/planner/tasks.service.ts:203-237 | a new task has the given column and parent, the next number and version 1; nothing else changes |
| BoardEffects.TaskUpdated | apps/api/src/modules/planner/tasks.service.ts:250-288 | an accepted update with version v leaves the task at v + 1, in the status asked for, and every other task as it was |
| BoardEffects.TaskMoved | apps/api/src/modules/planner/tasks.service.ts:310-353 | so does an accepted move; renumbering changes positions in that column and nothing else of any other task |
| BoardEffects.SameVersionSameColumn | apps/api/src/modules/planner/tasks.service.ts:203-371 | over every run a task at the same version has the same number, column and parent |
| BoardEffects.OneChangePerVersion | apps/api/src/modules/planner/tasks.service.ts:277-344 | of the updates and moves sent with one version of a task at most one is accepted, over every run |
| BoardEffects.RunNested | apps/api/src/modules/planner/tasks.service.ts:208-212 | over every run subtasks are one level deep, in their parent's project, and removed with it |
| BoardEffects.AcceptedExactly | apps/api/src/modules/planner/tasks.service.ts:203-364 | exactly when each operation is accepted, and what its refusals say |
| BoardEffects.MidpointRounds | apps/api/src/modules/planner/tasks.service.ts:325 | a midpoint is exact to the last decimal, a half rounded away from zero |
| BoardEffects.DropLands | apps/api/src/modules/planner/tasks.service.ts:310-353 | where a drop puts the task, and that the column is renumbered exactly when the neighbours are less than 1e-6 apart |
| PlannerService.Service.TopPosition | apps/api/src/modules/planner/tasks.service.ts:220-224 | the highest position in the column, 0 for an empty one |
| PlannerService.Service.Ordered | apps/api/src/modules/planner/tasks.service.ts:346-350 | the column's tasks, each once, by position |
| PlannerService.Service.Create | apps/api/src/modules/planner/tasks.service.ts:203-237 | rows and counter after the call are those of the board operation, or unchanged with its error |
| PlannerService.Service.Update | apps/api/src/modules/planner/tasks.service.ts:250-288 | likewise, with the version check |
| PlannerService.Service.Renumber | apps/api/src/modules/planner/tasks.service.ts:351 | the loop gives the listed tasks the positions STEP, 2 STEP, ... and changes nothing else |
| PlannerService.Service.Move | apps/api/src/modules/planner/tasks.service.ts:310-353 | likewise, with neighbours, midpoint, version check and renumbering |
| PlannerService.Service.Remove | apps/api/src/modules/planner/tasks.service.ts:360-364 | likewise |
| Library.MoveStaysAcyclic | apps/api/src/modules/files/files.service.ts:360-369 | a move that the ancestor walk allows creates no cycle |
| Library.TrashFolderKeeps | apps/api/src/modules/files/files.service.ts:397-408 | trashing a folder keeps the library's invariant |
| Library.RestoreFolderKeeps | apps/api/src/modules/files/files.service.ts:690-703 | so does restoring one, to the top when its parent is gone |
| Library.PurgeFolderKeeps | apps/api/src/modules/files/files.service.ts:716-727 | so does purging one |
| Library.MoveFolderKeeps | apps/api/src/modules/files/files.service.ts:351-385 | so does moving one |
| Library.NextKeeps | apps/api/src/modules/files/files.service.ts:332-729 | so does every operation, file operations and quarantine included |
| Library.RunKeeps | apps/api/src/modules/files/files.service.ts:332-729 | so does every run |
| Library.LiveNeverUnderTrashed | apps/api/src/modules/files/files.service.ts:397-410 | over every run the folders stay acyclic and no live folder or file lies below a trashed folder, at any depth |
| Library.RestoreUndoesTrash | apps/api/src/modules/files/files.service.ts:690-703 | restoring a just-trashed folder gives back exactly the previous tree, leaving earlier-trashed items trashed |
| Library.TrashTakesTree | apps/api/src/modules/files/files.service.ts:397-408 | trashing takes exactly the live folders and files of the tree out of sight and moves nothing |
| Library.PurgeTakesTrashedTree | apps/api/src/modules/files/files.service.ts:716-727 | purging takes exactly the tree and its files, leaves the rest unchanged, and destroys nothing that was live |
| Library.OneUploadPerCount | apps/api/src/modules/files/files.service.ts:489-494 | of the uploads that read the same number of versions at most one is stored, whatever happens in between |
| LibraryEffects.FolderCreated | apps/api/src/modules/files/files.service.ts:332-345 | a folder is created in the requested place if and only if that is live; nothing else changes |
| LibraryEffects.FileCreated | apps/api/src/modules/files/files.service.ts:465-496 | so is a file |
| LibraryEffects.FolderMoved | apps/api/src/modules/files/files.service.ts:351-385 | an accepted move puts exactly that folder into exactly the requested place, live as before, at its next version |
| LibraryEffects.FileMoved | apps/api/src/modules/files/files.service.ts:579-598 | so does an accepted move of a file, which keeps its stored versions |
| LibraryEffects.FolderMovedExactly | apps/api/src/modules/files/files.service.ts:351-385 | exactly when a folder can be moved, and what a refusal says |
| LibraryEffects.FileMovedExactly | apps/api/src/modules/files/files.service.ts:579-598 | the same of a file |
| LibraryEffects.FileTrashedAndRestored | apps/api/src/modules/files/files.service.ts:641-688 | exactly when a file is trashed and restored; it comes back into its own folder, or to the top if that is in the trash |
| LibraryEffects.RestoreUndoesTrashFile | apps/api/src/modules/files/files.service.ts:641-688 | restoring a just-trashed file gives back the library there was |
| LibraryEffects.FolderRestored | apps/api/src/modules/files/files.service.ts:690-703 | restoring a folder brings back, in place, only what was trashed together with it, and the folder to the top if its parent is in the trash |
| LibraryEffects.FileRefusalsMean | apps/api/src/modules/files/files.service.ts:476-727 | what the refusals of file operations say; storing a version changes its own file only |
| LibraryEffects.OneFolderMovePerVersion | apps/api/src/modules/files/files.service.ts:373-384 | of the moves sent with one version of a folder at most one is accepted, over every run |
| LibraryEffects.OneFileMovePerVersion | apps/api/src/modules/files/files.service.ts:589-598 | the same of a file |
| LibraryEffects.QuarantineHolds | apps/api/src/modules/files/files.service.ts:526-530 | over every run, what the scan condemned stays in the trash until a new version is stored |
| FolderRaces.UninterruptedMove | apps/api/src/modules/files/files.service.ts:351-377 | checks and update of a move with nothing in between are the move |
| FolderRaces.ForestKeptExactly | apps/api/src/modules/files/files.service.ts:371-377 | the update of a move keeps the folders a forest if and only if the new parent is not below the folder at that moment |
| FolderRaces.InterruptedMove | apps/api/src/modules/files/files.service.ts:351-377 | whatever happens between checks and update, the update keeps the library's invariant if and only if, besides, the new parent is live then or went to the trash no earlier than the folder |
| FolderRaces.CrossedMoves | apps/api/src/modules/files/files.service.ts:360-377 | two folders moved into each other at once pass both checks and form a cycle |
| FolderRaces.InterruptedCreation | apps/api/src/modules/files/files.service.ts:332-340 | a folder or file created while its place is trashed keeps the invariant if and only if the place is still live at the insert |
| FilesService.WorklistComplete | apps/api/src/modules/files/files.service.ts:389-395 | a finished worklist is exactly the root and its descendants |
| FilesService.NoChildLeft | apps/api/src/modules/files/files.service.ts:725 | deleting from the back, no remaining folder is a child of the one deleted |
| FilesService.Service.CollectSubtree | apps/api/src/modules/files/files.service.ts:389-395 | the growing worklist ends with the root and exactly its descendants, each once, parents first |
| FilesService.Service.CreateFolder | apps/api/src/modules/files/files.service.ts:332-345 | rows after the call are those of the operation, or unchanged with its error |
| FilesService.Service.MoveFolder | apps/api/src/modules/files/files.service.ts:351-385 | likewise; the ancestor walk ends and refuses exactly the folder's own subtree |
| FilesService.Service.TrashFolder | apps/api/src/modules/files/files.service.ts:397-408 | likewise |
| FilesService.Service.RestoreFolder | apps/api/src/modules/files/files.service.ts:690-703 | likewise, by three updates |
| FilesService.Service.DeleteFolders | apps/api/src/modules/files/files.service.ts:725 | deleting a worklist in reverse meets every foreign key and removes exactly the list |
| FilesService.Service.PurgeFolder | apps/api/src/modules/files/files.service.ts:707-727 | likewise, files first |
| FilesService.Service.CreateFile | apps/api/src/modules/files/files.service.ts:466-496 | the first upload of a file: a new live file in a live folder, or an error |
| FilesService.Service.StoreVersion | apps/api/src/modules/files/files.service.ts:476-496 | the transaction of a later upload stores the version if and only if no other was stored since the count was read; a file trashed in between stays in the trash |
| FilesService.Service.UploadVersion | apps/api/src/modules/files/files.service.ts:457-496 | an upload that nothing comes between is stored for every live file |
| FilesService.Service.MoveFile | apps/api/src/modules/files/files.service.ts:579-598 | likewise |
| FilesService.Service.TrashFile | apps/api/src/modules/files/files.service.ts:641-646 | likewise |
| FilesService.Service.RestoreFile | apps/api/src/modules/files/files.service.ts:680-688 | likewise; quarantined files are refused |
| FilesService.Service.Quarantine | apps/api/src/modules/files/files.service.ts:526-530 | likewise |
| FilesService.Service.PurgeFile | apps/api/src/modules/files/files.service.ts:712-726 | likewise |
| Reminders.NextReminderTime | apps/api/src/modules/events/events.service.ts:231-245 | the loop returns the first suitable entry of the scanned expansion |
| Reminders.NextIsNext | apps/api/src/modules/events/events.service.ts:231-245 | without moved occurrences, what is found is the next lead time of an uncancelled occurrence, with none in between |
| Reminders.NoneIsNone | apps/api/src/modules/events/events.service.ts:231-245 | with at most fifty overlapping occurrences, nothing is found if and only if no lead time comes within 400 days |
| Reminders.FoundExactly | apps/api/src/modules/events/events.service.ts:231-245 | in general something is found if and only if one of the first fifty is uncancelled and still to come |
| Reminders.RemindersVisitLeadTimes | apps/api/src/modules/events/reminders.service.ts:109-151 | over every run of concurrent firings, errors, crashes and rebuilds, notifications visit the lead times of uncancelled occurrences strictly in order, once each, none skipped, none more than a second early; and a reminder is finished only when, after its last notice, none of the fifty occurrences scanned is uncancelled and still to come |
| Reminders.FinishedExactly | apps/api/src/modules/events/events.service.ts:231-245 | the search ends a reminder if and only if that is so; where it sees all occurrences, if and only if no lead time comes within 400 days |
| Reminders.NotFinishedEarly | apps/api/src/modules/events/reminders.service.ts:140-151 | one uncancelled occurrence still to come among those fifty keeps the reminder going, in every run |
| Reminders.FoundAsMoved | apps/api/src/modules/events/events.service.ts:231-245 | with moved occurrences too, the time found is the start of the first suitable occurrence scanned, as moved, less the lead |
| RollForward.NextKeeps | apps/api/src/modules/events/reminders.service.ts:109-164 | every step of any worker keeps the roll-forward invariant |
| RollForward.NoticesFollowChain | apps/api/src/modules/events/reminders.service.ts:109-151 | the notifications are the chain of next times without gaps or repetitions |
| RollForward.ErrorComesBack | apps/api/src/modules/events/reminders.service.ts:109-122 | an error at any stage puts the entry back for a minute later and leaves row and notices alone |
| RollForward.DueFires | apps/api/src/modules/events/reminders.service.ts:133-151 | a due reminder makes its notice once and waits for the next time, or is finished |
| RollForward.FailedFiresLater | apps/api/src/modules/events/reminders.service.ts:109-151 | so a firing that failed is made up for a minute later |
| ReminderService.ReminderIndex.ClaimDue | apps/api/src/modules/events/reminder-index.ts:24-35 | claims the earliest due members up to the limit, each once, and removes exactly those |
| ReminderService.Reminder.Fire | apps/api/src/modules/events/reminders.service.ts:124-151 | an uninterrupted firing takes the steps of the protocol in order |
| Pools.NextKeeps | apps/api/src/database/tenant/tenant-connection-manager.ts:60-145 | every segment between awaits keeps the invariant of the pool map |
| Pools.PoolsAreAccountedFor | apps/api/src/database/tenant/tenant-connection-manager.ts:60-136 | under every interleaving the cap holds, the map is ordered by last use with one pool per tenant, and every pool opened is in the map or closing, never both |
| Pools.HandedOwnPool | apps/api/src/database/tenant/tenant-connection-manager.ts:60-75 | a call is only handed a pool opened for its own tenant; on a hit, one that is not closing |
| Pools.HandedClosingExactly | apps/api/src/database/tenant/tenant-connection-manager.ts:60-75 | in every run, the pool a call is handed at once or at the moment its opening ends is closing if and only if the map holds none for its tenant any more |
| Pools.WaiterHandedClosingExactly | apps/api/src/database/tenant/tenant-connection-manager.ts:69-74 | a waiting call is handed, at any time after its opening ended, a pool of its own tenant, which is closing if and only if the map does not hold that pool any more |
| Pools.WaiterMayBeHandedClosingPool | apps/api/src/database/tenant/tenant-connection-manager.ts:69-74 | a waiting call has no such guarantee: a concrete interleaving |
| Pools.HitMovesToEnd | apps/api/src/database/tenant/tenant-connection-manager.ts:60-67 | a hit makes the tenant's pool the last one, used now, and keeps the order of the others |
| Pools.LeastRecentCloses | apps/api/src/database/tenant/tenant-connection-manager.ts:112-116 | making room closes exactly one pool, the least recently used |
| Pools.ClosedInOrder | apps/api/src/database/tenant/tenant-connection-manager.ts:110-127 | whatever is opened, pools are closed in the order of their last use, the one just hit after every other |
| ConnectionManager.TenantConnectionManager.Get | apps/api/src/database/tenant/tenant-connection-manager.ts:60-73 | up to its first await, the step of the protocol, and the pool it returns |
| ConnectionManager.TenantConnectionManager.Evict | apps/api/src/database/tenant/tenant-connection-manager.ts:130-134 | the step of the protocol |
| ConnectionManager.TenantConnectionManager.Open | apps/api/src/database/tenant/tenant-connection-manager.ts:110-127 | the loop closes exactly as many least recently used pools as needed, then opens one; the protocol's steps in order |
| ConnectionManager.TenantConnectionManager.SweepIdle | apps/api/src/database/tenant/tenant-connection-manager.ts:138-145 | the loop keeps exactly the pools that are recent or busy, in order, and starts closing the others |
| ConnectionManager.SweptKeeps | apps/api/src/database/tenant/tenant-connection-manager.ts:140-142 | a pool survives a sweep if and only if it was used since the cutoff or is busy |
| Jobs.NextKeeps | apps/api/src/modules/platform/provisioning.service.ts:316-386 | every step, error and crash keeps the job resumable |
| Jobs.SucceededMeansRunInOrder | apps/api/src/modules/platform/provisioning.service.ts:316-386 | at every point the saved done steps are a prefix; a job that succeeded leaves the world of one uninterrupted run in order |
| Jobs.SucceededStays | apps/api/src/modules/platform/provisioning.service.ts:319 | after success nothing changes the world or the row |
| Jobs.DoneGrows | apps/api/src/modules/platform/provisioning.service.ts:338-349 | done steps stay done through every step, error and crash |
| Jobs.ClosingSaveReopens | apps/api/src/modules/platform/provisioning.service.ts:344-360 | the closing save of an error takes a done step back if and only if the save of that step had landed though it failed, and only that one step |
| Jobs.OneTurn | apps/api/src/modules/platform/provisioning.service.ts:338-349 | a turn of the loop saves the step as running, handles it, and saves it as done |
| Jobs.TakenUpAgainSucceeds | apps/api/src/modules/platform/provisioning.service.ts:316-356 | whatever errors and crashes lie behind it, a job succeeds in one run that nothing interrupts, with every step done |
| Jobs.ErrorLeaves | apps/api/src/modules/platform/provisioning.service.ts:344-360 | what an error leaves of row, step and status, with and without its saves landing |
| JobRunner.Worker.RunJob | apps/api/src/modules/platform/provisioning.service.ts:316-386 | one attempt, with any handler failing, takes the steps of the protocol; it throws unless the job succeeded, and leaves it failed or queued by the final-attempt flag |

## Left out

- Transactions and row locks are atomic steps; retries of a serialization failure, and reads made before a transaction
  begins (settings, the folder index), belong to the same step, except where FolderRaces and StoreVersion take them
  apart.
- Dates beyond the range of JavaScript's Date, and `Intl` time-zone data: a zone is an arbitrary offset function in whole
  seconds below a day. Series that begin before year 100 are outside the expansion theorems, since Date.UTC re-reads
  two-digit years.
- Recurrence.StartBelongs: covers zones with at most one change, on a whole second, within two days of the start.
- RRULE numerals outside plain decimal digits (signs, exponents, spaces, hexadecimal), which JavaScript's `Number` also
  accepts, and upper-casing of letters outside ASCII.
- Locale formatting of rules, money and dates, and `describeRRule`.
- EventCalendar.Occurrences: covers one event that is neither deleted nor cancelled, and leaves out the limit of 2000
  events, the final sort by the text of the start, visibility and attendee fields.
- `sumMoney` throws beyond fifteen whole digits; ledger lines are held as amounts that were already read.
- GeneralLedger.LedgerReport: the limit of 5000 lines and the sort by date and number text are not modelled; the result
  is proved for any order of the lines.
- Segregation.AuthorsNeverApprove: covers approvals given by users; Segregation.AuthorsApproveExactly covers all. Who
  posted is a column of its own, which is not part of the model.
- Triggers.TriggersNeverRefuse: descriptions and the time of posting, which the step from posted to reversed must leave
  alone, are not part of the model; no transaction writes them there.
- Parent accounts, account codes, descriptions, memos, the daybook summary, audit records and permissions.
- Board positions: JavaScript computes midpoints in floating point; the model computes them exactly and rounds to the
  column's ten decimals, an exact half away from zero.
- Labels, assignees, archived projects, comments and attachments of tasks.
- ExactlyOnce.ExactlyOnceSync: assumes that a handler that reports failure had no effect, that storing the response
  succeeds, and that different request texts have different hashes. One caller's keys are modelled.
- Task updates carry no idempotency key and rely on the version check. `keepServer` and `applyMineAgain` are not
  modelled.
- File names, types and their uniqueness, the contents of stored versions, quotas, shares and access levels, copies, and
  the purge of expired trash. Two operations on the library never share a clock time.
- FolderRaces.InterruptedMove: the update sets the version to one more than the version read with the checks; the model
  adds one to the version it matches, which differs only for a client that sends a version newer than the row read.
- FilesService.Service.StoreVersion: storing a version of a file purged meanwhile is refused by the foreign key of the
  versions table; the model gives it the same error as a version count that has moved on.
- Reminders.RemindersVisitLeadTimes: assumes that the event and its exceptions do not change during the run and that no
  occurrence was moved; editing or rescheduling a reminder starts a new chain.
- Delivery of notifications by mail or push; a notification is the row with its dedupe key. No row is made for an
  inactive user or one who muted every channel (apps/api/src/modules/notifications/notifications.service.ts:72-81); the
  notices of the model are those of an active user with a channel left.
- Pools: the clock never runs backwards. Closing a pool is recorded when it starts. Draining at shutdown, credentials
  and their decryption are not modelled.
- Jobs.SucceededMeansRunInOrder: assumes handlers that come to the same when run again after being cut short, one runner
  at a time and an unexpired lock. Cancelling a decommission, tenant status changes and the lock itself are not modelled.

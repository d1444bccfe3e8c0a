# FinancialOS verification

A Dafny model of the deterministic core of FinancialOS, with proofs about whole runs of it. `dafny verify dfyconfig.toml` checks everything.

The modules follow the program:

- **Debt payoff** (`DebtPlan`, `DebtLedger`, `DebtPriority`, `DebtMonotone`, `DebtTwoRuns`, `DebtSchedule`, `DebtTotals`, `DebtAvalanche`, `DebtHalting`, `DebtAnnuity`, `DebtCards`, `DebtBooks`, `DebtSimulator`, `DebtReport`, `DebtStrategies`, `DebtExamples`, `Calendar`). `DebtPlan.After` says what the debts look like after n months, on sequences in priority order. `DebtSimulator.Simulate` is the program's loop over its dictionaries and is proved to produce exactly that plan. Everything else is proved about the plan: conservation, order of payments, rollover, comparison of two runs and of two orders, a halting bound, agreement with the closed-form annuity, and what becomes of a card left to its minimum.
- **JSON in model answers** (`JsonScanner`, `JsonGrammar`, `JsonEnvelope`, `JsonFences`). The five-variable brace scanner, the grammar of RFC 8259 (sections 2 to 5 and 7), and the choice among candidates.
- **Call quota** (`QuotaProtocol`, `QuotaCap`, `QuotaMidnight`, `QuotaRows`, `QuotaLog`). Reservation as atomic steps of any number of calls, and the same operations on a log for one client.
- **Printed amounts** (`MoneyText`, `MoneyReaders`, `Grounding`). The Turkish number printer, the two readers that must undo it, and the decision whether an answer's amounts are grounded.
- **Cash-flow forecast** (`CashflowDates`, `Forecast`, `CashflowItems`, `CashflowDays`, `CashflowProjection`). Month stepping, the daily table, what is collected, what each day comes to, and the whole projection.
- **Pending actions and balances** (`PendingActions`, `PendingProgress`, `ActionExecutor`, `Balances`). Approving and rejecting under interleaving and crashes; what transactions and card payments do to accounts and net worth.
- **Savings goals** (`GoalProgress`, `Goals`, `GoalBook`). Rule evaluation, allocations and the progress cache.
- **Chat history** (`ChatHistory`, `ChatPairs`). Shortening, trimming and conversion of stored messages.

Debt amounts and rates are `real`; forecast, balance and goal amounts are whole cents. Clocks, identifiers of new rows, failures of the database and the JSON parser are parameters.

## Where the code and its descriptions differ

- A payment must leave less than one cent to be rounded up, and a debt is open only above one cent. A remainder of exactly one cent is therefore never paid and its instalment is never freed. More extra money can then be worse (`DebtExamples.MoreExtraCanBeWorse`); `DebtTwoRuns.MoreExtraNeverWorse` gives the exact condition. The example is exact arithmetic: with binary floating point that remainder is just above a cent and is paid the month after. The program's own case is a remainder equal to its constant, such as 0.02 paid down by 0.01.
- Paying the dearest debt first is described as the cheapest plan. As long as every loan is still open under both orders, no order owes less or has cost less interest than the avalanche, and from the second month on the order that starts with the dearer loan is the only one that does (`DebtAvalanche.AvalancheOwesLeast`, `DebtAvalanche.DearerFirstOwesLess`). Once a loan is cleared the rollover counts too, and the avalanche can be slower and dearer than paying the smallest first (`DebtExamples.DearestFirstCanCostMore`).
- A plan that ends in exactly the last permitted month has no payoff date, like one that never ends (`DebtStrategies.DatedIff`, `DebtStrategies.LastMonthLosesItsDate`).
- The annuity formula ignores a positive rate up to 0.000001 percent that the simulation still charges (`DebtAnnuity.NegligibleRateStillAccrues`).
- `cikar` promises the first candidate that is not empty. It holds back only one empty container, so a second one hides everything after it (`JsonEnvelope.ChoiceMeetsPromise`, `JsonEnvelope.TwoEmptyObjectsHideTheRest`).
- The daily quota counts from the start of the day on which the count runs. A call counted on a later day than its row's is always accepted, so any number of calls inserted before midnight and counted after it pass (`QuotaMidnight.AcceptedIff`, `QuotaMidnight.MidnightLetsMoreThrough`).
- `reject_pending_action` writes without a condition, so a late rejection overwrites `executed` (`PendingActions.LateRejectionHidesExecution`); `PendingActions.RejectionIsFinalIff` and `PendingActions.RejectedThoughAppliedIff` give the exact conditions. Handlers commit their own work, so a failure after that commit is recorded as `failed` although the work was done (`PendingActions.FailureHidesExecution`); `PendingActions.StatusTellsTruth` says exactly when.
- The reader of a proposal's summary takes a lone point for the decimal one unless three digits follow it. A plain amount with three decimals therefore reads a thousand times too high, and no other does (`MoneyReaders.PlainReadsBackIff`).
- A card payment drawn on an investment, loan or card account changes net worth (`Balances.PaymentNeutralIff`).
- The inline sign rule of `add_transaction` differs from `balance_delta` on loan incomes and on investment accounts (`Balances.InlineAgreesIff`).
- A goal is called achieved at 100 percent, which progress shows from 99.995 percent on (`GoalProgress.FullFrom`).
- Both readers of printed amounts drop the sign (`MoneyReaders.SignIsLost`, `MoneyReaders.SignIsLostInGrounding`).
- The unused `_advance_month` drifts for days after the 28th (`CashflowDates.DriftFreeIffSmallDay`).

## Model

| member | source | states |
|---|---|---|
| Calendar.AddMonths | app/debt_strategy.py:183-192 | the result is the same day of the month that many months later, moved back to that month's last day |
| Calendar.MonthLengths | app/debt_strategy.py:189-192 | 31 and 30 days alternate with a break between July and August, and a year has 365 days or one more |
| Calendar.LeapYears | app/debt_strategy.py:189-192 | February has 29 days every fourth year, but of the centuries only in every fourth |
| Calendar.OrdinalOrders | app/cashflow.py:361-375 | day numbers order dates and no two dates share one, so grouping by day is grouping by date |
| DebtPlan.MonthsUnique | app/debt_strategy.py:223-224 | the first month without an open debt, or the cap of 600, is where the run stops |
| DebtLedger.EachDebtConserved | app/debt_strategy.py:223-304 | for each debt, at every month end: balance + paid = starting balance + interest |
| DebtLedger.TotalConserved | app/debt_strategy.py:223-304 | the same in total |
| DebtLedger.BalanceRange | app/debt_strategy.py:262-296 | a balance is zero, at least one cent, or as it started; never negative |
| DebtLedger.FinishedRunPaysPrincipalAndInterest | app/debt_strategy.py:223-327 | a finished run paid exactly principal plus interest if and only if nothing is left, and all it can leave on a debt is one frozen cent or a start of at most a cent |
| DebtPriority.ZeroEverAfter | app/debt_strategy.py:271-296 | from its payoff on, a debt's balance is exactly zero |
| DebtPriority.PaidOffOnce | app/debt_strategy.py:271-296 | no debt is paid off in two months |
| DebtPriority.RecordedMonth | app/debt_strategy.py:274-275 | the recorded payoff month is m exactly when the debt was paid off in month m |
| DebtPriority.RecordedIffZero | app/debt_strategy.py:271-296 | a debt is recorded as paid off exactly when its balance is zero |
| DebtPriority.WorkingExtra | app/debt_strategy.py:306-310 | the extra at work is always the starting extra plus the last minimum of every debt paid off so far, once each |
| DebtPriority.ExtraInPriorityOrder | app/debt_strategy.py:277-296 | extra money reaches a debt only if every earlier one ends the month at or below a cent |
| DebtPriority.OpenDebtExhaustsExtra | app/debt_strategy.py:277-296 | a debt still open at month end means at most a cent of the extra is unused |
| DebtPriority.MonthBudget | app/debt_strategy.py:239-296 | a month pays at most open minimums + extra + one cent for each open debt and one more |
| DebtPriority.BudgetCounts | app/debt_strategy.py:239-258 | the budget counts exactly the debts open once interest is added, and sums what each of them is asked for |
| DebtTwoRuns.MoreExtraNeverWorse | app/debt_strategy.py:223-310 | with fixed instalments, more extra leaves no balance higher in any month up to n, if and only if at month n no debt stands at one cent that less extra has cleared |
| DebtTwoRuns.NoCentMeansNoneLost | app/debt_strategy.py:265-266 | it is enough that the richer run ends without a balance of exactly one cent |
| DebtTwoRuns.MoreExtraFinishesNoLater | app/debt_strategy.py:223-327 | then it is debt-free no later and pays no more interest in total |
| DebtHalting.FallsEveryMonth | app/debt_strategy.py:223-275 | when every instalment exceeds the first month's interest by delta, no balance ever rises and an open one has fallen by delta a month |
| DebtHalting.EndsInTime | app/debt_strategy.py:223-275 | the run then ends within the largest balance over delta, rounded up |
| DebtAnnuity.OwedClosedForm | app/debt_strategy.py:464-467 | the present value of j instalments times (1+r)^j r is the instalment times (1+r)^j - 1 |
| DebtAnnuity.InstalmentRepaysPrincipal | app/debt_strategy.py:452-469 | the annuity instalment is the one whose whole term is worth the principal |
| DebtAnnuity.AtMostSchedule | app/debt_strategy.py:223-275 | rounding up last payments never leaves more than the schedule |
| DebtAnnuity.AnnuityAgreesWithSimulation | app/debt_strategy.py:223-327 | a loan at its annuity instalment runs exactly its term, ends at zero and costs term times instalment less principal, if and only if instalment/(1+r) exceeds a cent |
| DebtAnnuity.LongTermHitsCap | app/debt_strategy.py:223 | a term beyond the cap is cut off with the rest of the schedule still owed |
| DebtAnnuity.NegligibleRateStillAccrues | app/debt_strategy.py:456-460 | below the negligible rate the simulation charges interest the formula leaves out |
| DebtCards.CardMonth | app/debt_strategy.py:229-275 | in any month without extra to spend, a card's minimum is the share of the balance owed that month, interest included, or 50 if that is more; less than a cent is never left |
| DebtCards.LoanMonth | app/debt_strategy.py:229-275 | a loan's is its instalment, or the whole rest |
| DebtCards.FirstTakesExtra | app/debt_strategy.py:277-296 | the first debt takes the whole extra on top of its minimum, or all it still owes |
| DebtCards.LastMinimumAsked | app/debt_strategy.py:247-260 | the amount a debt will free is the minimum last asked of it: for a card the share of that month, not of the start |
| DebtCards.ShareShrinks | app/debt_strategy.py:223-275 | as long as a card's share is at least 50, n months leave the n-th power of (1 + rate)(1 - ratio) of it |
| DebtCards.EndsLikeLoan | app/debt_strategy.py:223-275 | once share and interest are down to 50, a card's balances are month by month those of a loan of 50 |
| DebtBooks.MonthFollows | app/debt_strategy.py:239-296 | the month's two loops over the dictionaries end where the plan does, for every account |
| DebtBooks.MonthFrees | app/debt_strategy.py:306-310 | the listed payoffs free exactly what the plan rolls over |
| DebtBooks.MonthPays | app/debt_strategy.py:268-288 | the running total grows by what the plan pays in the month |
| DebtSimulator.InterestInAnyOrder | app/debt_strategy.py:230-237 | the interest total does not depend on the order of the accounts |
| DebtSimulator.AccrueInterest | app/debt_strategy.py:229-237 | interest is added to open accounts only, and recorded for exactly those |
| DebtSimulator.PayMinimums | app/debt_strategy.py:239-275 | the minimum loop turns the books into those of the specification |
| DebtSimulator.PayExtra | app/debt_strategy.py:277-296 | the waterfall loop with its early exit does the same as going through every debt |
| DebtSimulator.RollOver | app/debt_strategy.py:306-310 | the next month's extra is this month's plus the last minimums of the debts listed as paid off |
| DebtSimulator.RunMonth | app/debt_strategy.py:223-310 | one month of the loop is one step of the plan, with its snapshot |
| DebtSimulator.Simulate | app/debt_strategy.py:195-327 | the simulation returns the plan's months, totals, schedule, payoff months and date, for any debts and order |
| DebtReport.BalancesAddUp | app/debt_strategy.py:298-304 | every reported balance is the one reported the month before (or the starting one) plus the month's reported interest less its reported payments |
| DebtReport.PayoffsAgree | app/debt_strategy.py:271-304 | an account is on the payoff list of exactly the month recorded for it, once, and on none without a record; lists hold only accounts of the debts |
| DebtReport.TotalsAddUp | app/debt_strategy.py:230-327 | total paid and total interest are the sums of what the months report |
| DebtStrategies.OrderIsUnique | app/debt_strategy.py:334-352 | each strategy's order is determined by the debts alone |
| DebtStrategies.CollectionOrderIrrelevant | app/debt_strategy.py:336-351 | the order in which accounts were read from the database does not influence the plan |
| DebtStrategies.SortedByKey | app/debt_strategy.py:339-351 | snowball never goes to a smaller balance, avalanche never to a higher rate; among equals the smaller account id is first |
| DebtStrategies.CalcStrategy | app/debt_strategy.py:334-352 | the reported order lists every account once, by balance upwards or by rate downwards and then by id, and the rest is the simulation in that order |
| DebtSchedule.OpenRun | app/debt_strategy.py:223-310 | while every loan is open, each owes its schedule of instalments, and the first also less what the extra paid so far has grown to |
| DebtTotals.TotalsWhileOpen | app/debt_strategy.py:223-310 | what is owed and what interest has accrued in total then: sums over the loans that no order changes, less what the extra has grown to at the first loan's rate |
| DebtAvalanche.DearerFirstOwesLess | app/debt_strategy.py:195-327 | two orders of the same loans, all open after n months under both: the one starting with the dearer loan owes no more and has accrued no more interest; from the second month on, with extra to spend, exactly that one |
| DebtAvalanche.AvalancheOwesLeast | app/debt_strategy.py:345-352 | so while every loan is open no order owes less than the avalanche |
| DebtStrategies.DatedIff | app/debt_strategy.py:312-316 | for any debts and extra there is a payoff date exactly when a month before the cap ends with nothing open, and it is the first such month |
| DebtStrategies.LastMonthLosesItsDate | app/debt_strategy.py:312-316 | a loan at its annuity instalment has a payoff date exactly when its term is below the cap, though it is cleared at the cap too |
| DebtExamples.MoreExtraCanBeWorse | app/debt_strategy.py:242-266 | two loans on which, in exact arithmetic, 10.59 more a month leaves one balance higher |
| DebtExamples.DearestFirstCanCostMore | app/debt_strategy.py:355-450 | two loans on which the avalanche is slower and dearer than the snowball once one is cleared |
| JsonScanner.BalancedBlocks | app/llm_json.py:56-82 | the loop yields the blocks of the specification |
| JsonScanner.SpansAreTheBlocks | app/llm_json.py:56-82 | for every text: a span is yielded exactly when it starts at an unquoted outermost brace and ends where the depth first returns to zero |
| JsonScanner.SpansInOrder | app/llm_json.py:56-82 | blocks come in reading order and do not overlap |
| JsonScanner.RescanIsIdentity | app/llm_json.py:56-82 | a block scanned alone is one block, the whole of it |
| JsonGrammar.StringPasses | app/llm_json.py:64-71 | a string literal, whatever braces and escapes it holds, leaves the scanner where it was |
| JsonGrammar.ValuePasses | app/llm_json.py:64-82 | so does every JSON value inside an object, by mutual induction over the grammar |
| JsonGrammar.ObjectYielded | app/llm_json.py:73-82 | a JSON object met outside every other is yielded whole as one block |
| JsonEnvelope.EveryObjectFound | app/llm_json.py:56-82 | from objects separated by prose exactly those objects are found, in order |
| JsonEnvelope.FoundIffNothingOpen | app/llm_json.py:56-82 | after any text at all an object is found where it stands if and only if no brace and no quote is open there |
| JsonEnvelope.FoundIffQuotesPair | app/llm_json.py:64-71 | after text without opening braces, and without quotes or without backslashes, that is if and only if its quotes pair up |
| JsonEnvelope.Candidates | app/llm_json.py:85-97 | candidates are the stripped text, the insides of its fences, then the blocks |
| JsonEnvelope.FencedObjectIsTried | app/llm_json.py:49-95 | an object in a fence, with or without language tag or closing mark, is among the candidates tried before the blocks |
| JsonFences.EveryFenceIsTried | app/llm_json.py:49-95 | with any number of fences, the inside of every one is tried, in order, after the whole text and before the blocks; only empty ones are left out |
| JsonFences.StripIs | app/llm_json.py:88 | stripping takes the blanks off both ends and nothing else |
| JsonEnvelope.Extract | app/llm_json.py:100-116 | the loop over candidates returns the choice of the specification |
| JsonEnvelope.ParsedAre | app/llm_json.py:105-109 | the values chosen from are those of the candidates that parse, in the candidates' order |
| JsonEnvelope.ChoiceIs | app/llm_json.py:103-116 | the choice is the first value, or the second, whatever it is, when the first is empty and another follows |
| JsonEnvelope.ChoiceMeetsPromise | app/llm_json.py:100-116 | the choice is the first non-empty value, or else the first, if and only if fewer than two empty ones lead (or nothing follows and the first two are equal) |
| JsonEnvelope.EnvelopeOpened | app/llm_json.py:85-116 | an object wrapped in prose or fences comes out, as long as earlier candidates parse to nothing else |
| JsonEnvelope.TwoEmptyObjectsHideTheRest | app/llm_json.py:103-116 | after two empty objects any third object is never returned |
| QuotaProtocol.EveryRunKeeps | app/llm_quota.py:243-293 | in every interleaving: a call under way owns its row, ranks never rise above the rank at insertion, and only ranks over the cap are refused |
| QuotaProtocol.RankNeverRises | app/llm_quota.py:266-272 | later rows and deletions never raise a row's rank |
| QuotaProtocol.WithinAtEntryIsAccepted | app/llm_quota.py:265-278 | a row within the cap at insertion is accepted whenever it is counted |
| QuotaProtocol.RefusalMeansFull | app/llm_quota.py:265-277 | a refusal means at least cap live rows with lower ids when it counted |
| QuotaCap.NeverRefusedWithinCap | app/llm_quota.py:243-278 | over any run, every refused call had a rank above the cap at insertion |
| QuotaCap.CapHolds | app/llm_quota.py:243-293 | over any run, the live reservations of a user and day that were counted on that day never exceed the cap |
| QuotaCap.NoMoreThanCap | app/llm_quota.py:243-278 | however they are picked, reservations held by one user on one day and counted on it are no more than the cap |
| QuotaMidnight.AcceptedIff | app/llm_quota.py:265-278 | in every run a count under a cap accepts exactly when it runs on a later day than the row's own or the row's rank on its own day is within the cap |
| QuotaMidnight.CapHoldsButForLateCounts | app/llm_quota.py:243-293 | over any run, a day's live reservations exceed the cap by at most those counted on another day |
| QuotaMidnight.MidnightLetsMoreThrough | app/llm_quota.py:265-272 | for every n, a run in which n calls of one day pass a cap of one |
| QuotaRows.LogIsExact | app/llm_quota.py:243-293 | in any run without settlements, deaths and failed deletes the log holds exactly one row for each call under way or accepted: refusals and cancellations leave nothing behind |
| QuotaRows.SettledRowsCount | app/llm_quota.py:206-240 | a settlement's rows are the user's and today's, and the next call ranks behind every one of them |
| QuotaRows.CallsGoForward | app/llm_quota.py:243-293 | a call's own steps lead forward only, no step moves another call, and only an accepted one settles |
| QuotaRows.CallCanGoOn | app/llm_quota.py:243-293 | a call is finished exactly when refused, cancelled or dead, and can die at any moment before its verdict takes effect |
| QuotaLog.CallLog.Reserve | app/llm_quota.py:243-278 | alone, a reservation is granted exactly when fewer than cap calls are on today's log, and a refused one leaves no row unless its delete fails |
| QuotaLog.CallLog.Cancel | app/llm_quota.py:281-293 | the row goes unless the delete fails |
| QuotaLog.CallLog.Reconcile | app/llm_quota.py:206-240 | all new rows are committed or none; one row for each request, the first on the reservation |
| QuotaLog.FilledOneForOne | app/llm_quota.py:228-235 | every new row carries its own request and no other row is touched |
| QuotaLog.SettledUse | app/llm_quota.py:206-278 | a reservation and its settlement add one row for each request sent |
| QuotaLog.Tally | app/llm_quota.py:182-187 | a provider is listed exactly when it was called, with its number of requests |
| MoneyText.WritesTurkish | app/money_format.py:141-142 | swapping the marks of the English form through a third character writes points between thousands and a decimal comma, behind the sign |
| MoneyText.ReadsBack | app/grounding.py:159-163 | deleting the separators and turning the comma into a point reads every printed amount back exactly |
| MoneyReaders.MatchedInFull | app/grounding.py:81-82 | the numeral pattern takes every printed amount in full, whatever non-numeral follows |
| MoneyReaders.MatchedIsNumeral | app/grounding.py:81-82 | in any text, what the pattern takes is a numeral: digits, groups of three behind at most three of them, comma and digits; and it takes something exactly where a digit stands |
| MoneyReaders.GroundingReadsBack | app/grounding.py:81-163 | matched and read, a printed amount gives itself, at any number of decimals |
| MoneyReaders.PriceReadsBack | app/money_format.py:145-162 | so does a full price with its currency label |
| Grounding.Nearest | app/grounding.py:259-263 | the nearest allowed value within tolerance, in whatever order the set is walked, or none exactly when no value is near |
| Grounding.Check | app/grounding.py:240-331 | unverified and untagged are exactly the amounts large enough to be checked and near no value; every checked amount is verified or unverified; each basis is nearest, and the program's own value where it is one |
| Grounding.NearIff | app/grounding.py:259-263 | near is within 1 or within two percent of the value |
| Grounding.WeakIff | app/grounding.py:265-276 | a match is weak exactly when it is off by more than a two-hundredth of the value |
| Grounding.CheckedIsSplit | app/grounding.py:240-276 | every amount of at least 100 is listed as often as it occurs, among the verified or the unverified, and no smaller one is |
| Grounding.PassesIff | app/grounding.py:240-331 | an answer passes exactly when each amount is small or near a value |
| Grounding.MoreEvidenceNeverHurts | app/grounding.py:219-240 | further allowed values never turn a pass into a failure |
| Grounding.ExactBasis | app/grounding.py:255-276 | for an allowed value any basis the check picks is that value itself, never a weak match, and marked as the program's own exactly when it is |
| Grounding.PrintedValuePasses | app/grounding.py:81-331 | an allowed value that is printed and read back is read as itself and passes |
| MoneyReaders.NumbersInSummary | app/action_schema.py:215-230 | the loop returns the readings of all runs |
| MoneyReaders.LonePointIsThousands | app/action_schema.py:222-225 | a grouped amount with one point is never taken for a decimal |
| MoneyReaders.RunReadsBack | app/action_schema.py:218-229 | a printed amount with the sentence's points and commas behind it reads back exactly |
| MoneyReaders.PlainReadsBackIff | app/action_schema.py:215-230 | the plain form with a decimal point is the same number as the Turkish one if and only if it does not have three decimals, or is zero |
| MoneyReaders.SummaryReadsBack | app/action_schema.py:215-230 | from a text with any number of printed amounts the reader takes exactly those, in order |
| MoneyReaders.SummaryVerdict | app/action_schema.py:233-251 | no amount field passes; otherwise no number, a number within a cent, or a mismatch |
| MoneyReaders.OneAmountChecked | app/action_schema.py:233-251 | with one printed amount the check passes exactly when it is within a cent of the payload |
| MoneyReaders.SignIsLost | app/money_format.py:127-142 | in a summary a printed amount reads back as its size, so as itself exactly when it is not negative |
| MoneyReaders.SignIsLostInGrounding | app/grounding.py:81-163 | of a negative amount the numeral pattern takes nothing at the sign and the size behind it |
| CashflowDates.MonthOccurrences | app/cashflow.py:83-93 | the dates are strictly increasing and exactly the clamped day of each month that lies in the window |
| CashflowDates.OccurrencesExact | app/cashflow.py:83-93 | from any month on, the occurrences are the clamped days in the window, each once and in order |
| CashflowDates.HorizonIsExact | app/cashflow.py:185-197 | the dates within the horizon are the first ones, and their number has a closed form |
| CashflowDates.LoanPayments | app/cashflow.py:150-198 | the k-th instalment is k months after the first, and there are as many as remain or as fit the horizon, whichever is fewer |
| CashflowDates.DriftFreeIffSmallDay | app/cashflow.py:142-147 | stepping from the previous date never drifts if and only if the day is at most 28 |
| Forecast.OneMoreDay | app/cashflow.py:361-375 | the window one day longer adds exactly that day's events |
| Forecast.OnItsDay | app/cashflow.py:349-351 | an event appears on the row of its date as often as it was collected, and on no other row |
| Forecast.Generate | app/cashflow.py:348-408 | every row opens and closes at opening plus all events dated so far; the lowest balance is the least of opening and closings, at its first day; net flow is the sum of all events |
| Forecast.CrunchExactly | app/cashflow.py:378-380 | the crunch days are exactly the days closing below the threshold, in order |
| Forecast.LastBalance | app/cashflow.py:348-408 | with every event in the window the last day closes at opening plus net flow |
| Forecast.FlowsSigned | app/cashflow.py:366-375 | inflows add up what comes in and only that, outflows the rest |
| CashflowItems.Repeating | app/cashflow.py:96-111 | every occurrence of every recurring item is collected once, and nothing outside the window |
| CashflowItems.Repaying | app/cashflow.py:150-198 | every expected instalment of every loan is collected once, and nothing outside the window |
| CashflowDays.NetFlow | app/cashflow.py:259-408 | what is collected adds up to incomes less expenses, each as often as its day occurs, less the expected instalments, plus the personal debts due in the window |
| CashflowDays.DayFlow | app/cashflow.py:259-408 | from one closing to the next the balance moves by the incomes of that day less its expenses and instalments, plus the debts due then |
| CashflowProjection.Project | app/cashflow.py:259-408 | end to end: every day's row moves by what falls on that day, read off the items with their signs, and lists each of them; net flow is what the window comes to; the last day closes at opening plus net flow |
| PendingActions.AtMostOnce | app/action_executor.py:534-653 | over every interleaving and crash the handler runs at most once, under the one claim, and executed stands only after one successful run |
| PendingActions.PendingOnlyAtFirst | app/action_executor.py:534-691 | the status never returns to pending |
| PendingActions.RunKeeps | app/action_executor.py:534-691 | at most one request holds the action, and what each position implies about the handler |
| PendingActions.BrokeIff | app/action_executor.py:601-653 | the record of a failure after a commit is exactly whether a step of the run was one |
| PendingActions.StatusTellsTruth | app/action_executor.py:534-691 | executed means applied, pending not applied, and failed not applied exactly when no step failed after a handler's own commit |
| PendingActions.FailureHidesExecution | app/action_executor.py:600-653 | a run that ends failed although the action was applied |
| PendingActions.RejectedThoughAppliedIff | app/action_executor.py:656-683 | an action can stand as rejected with its work done if and only if, when the rejection is written, the work is done or somebody is about to run the handler |
| PendingActions.RejectionStopsHandlerIff | app/action_executor.py:656-683 | the handler never runs in any continuation if and only if it has not run and nobody is about to run it when the rejection is written |
| PendingActions.RejectionIsFinalIff | app/action_executor.py:656-683 | the status stays rejected in every continuation if and only if no request holds the claim when the rejection is written |
| PendingActions.PromptRejectionIsFinal | app/action_executor.py:656-683 | a rejection written while the action is pending stays, and the handler never runs |
| PendingActions.LateRejectionHidesExecution | app/action_executor.py:656-683 | a run that ends rejected although the action was applied |
| PendingProgress.RunsEnd | app/action_executor.py:534-691 | without deaths a run is over after five steps an approving and two steps a rejecting request |
| PendingProgress.CanGoOn | app/action_executor.py:534-691 | a request can go on until it is over, and can die before every step |
| PendingProgress.LateApprovalIsHarmless | app/action_executor.py:562-567 | an approval that finds the action no longer pending ends there and never touches it in any continuation |
| PendingProgress.LostClaimIsHarmless | app/action_executor.py:574-581 | so does one that loses the claim to another request |
| PendingProgress.LateLookNeverWrites | app/action_executor.py:656-683 | a rejection that finds the action no longer pending never writes |
| PendingProgress.SettledInTheEnd | app/action_executor.py:534-691 | when all requests have ended and none has died, the action is executed, failed or, if anybody asked, rejected: never left pending or approved |
| ActionExecutor.Action.Execute | app/action_executor.py:534-653 | a pending action ends executed or failed and its handler runs only if it is usable; any other action is left alone |
| ActionExecutor.Action.Reject | app/action_executor.py:656-683 | only a pending action becomes rejected |
| ActionExecutor.TraceEnds | app/action_executor.py:534-653 | without rivals the interleaved protocol ends where the sequential call does |
| Balances.InlineAgreesIff | app/action_executor.py:802-823 | the inline sign rule equals the shared one exactly on cash, cards, transfers and loan expenses |
| Balances.NetWorthMoves | app/balance_rules.py:51-53 | changing one account moves net worth by that account's own change |
| Balances.NetWorthCounts | app/balance_rules.py:51-53 | cash counts for, cards and loans against; of an investment its price counts and not its balance, and neither if it is held in trust |
| Balances.Bank.AddTransaction | app/action_executor.py:740-830 | refused exactly for a bad type, amount or account, and then nothing changes; otherwise recorded, and only the account named moves: up for an income, down for an expense, the other way round on a card |
| Balances.Bank.PayCreditCard | app/action_executor.py:892-940 | refused exactly for a bad amount, card or source, and then nothing changes; otherwise card and source each fall by the amount, the source being the account named or else the first cash account not held in trust, and every other account is as before |
| Balances.DefaultCash | app/account_rules.py:32-49 | the default source is the first cash account that is not held in trust |
| Balances.BalanceIsFold | app/balance_rules.py:27-48 | over any run a cash or card balance is its opening plus every transaction's shared-rule delta and payment leg |
| Balances.NetWorthIsFlow | app/balance_rules.py:27-53 | over any run on cash and card accounts with cards paid from cash, net worth moves by exactly incomes minus expenses |
| Balances.PaymentNeutralIff | app/action_executor.py:933-940 | a card payment leaves net worth alone if and only if it is drawn on a cash account |
| Balances.TransactionFlowsIff | app/action_executor.py:802-823 | a transaction moves net worth by its own flow if and only if it is on a cash or card account |
| GoalProgress.FullFrom | app/goal_engine.py:165-176 | progress shows 100 percent if and only if at least 99.995 percent of the target is there |
| GoalProgress.ProgressGrows | app/goal_engine.py:165-176 | more saved never shows as less progress |
| GoalProgress.ProgressIsNear | app/goal_engine.py:165-176 | progress is nothing without savings, all of it from the target on, and between them the share to the nearest hundredth of a percent |
| Goals.OnlyExpensesWithdraw | app/goal_rules.py:166-197 | an allocation is negative only for an expense and positive only for anything else |
| Goals.EachCriterionAlone | app/goal_rules.py:118-163 | a transaction matches exactly when it meets each criterion given on its own; without criteria everything matches |
| Goals.CriterionHolds | app/goal_rules.py:118-163 | what each one asks: the kind, bounds with their ends included, the account, an account of one of the types, the text somewhere in the description |
| Goals.GivenIsSized | app/goal_rules.py:166-197 | the size is the whole transaction, its percentage rounded half up to the cent, or the fixed value; nothing without a value |
| Goals.GrantedByRule | app/goal_rules.py:77-110 | every allocation created comes from an active matching rule and has the size that rule gives |
| Goals.OneAllocationPerGoal | app/goal_rules.py:77-110 | a goal without one gets exactly the allocation of its first rule that matches with a non-zero amount; any other goal gets none |
| Goals.GetsOneIff | app/goal_rules.py:77-110 | a goal gets one allocation if and only if it has none of this transaction and one of its rules asks |
| GoalBook.BestRuleWins | app/goal_rules.py:67-110 | what a goal is given comes from the first of all its asking rules, by priority and then by id |
| Goals.SecondTimeNothing | app/goal_rules.py:77-110 | evaluating the transaction again creates nothing |
| Goals.GrantedUnique | app/goal_rules.py:91-110 | no goal and transaction are ever linked twice |
| Goals.AchievedIff | app/goal_engine.py:266-272 | a refresh turns a goal to achieved if and only if it is active and at least 99.995 percent of its target is there |
| Goals.LinkUnlink | app/goal_engine.py:252-274 | two refreshes, with an amount and without it again, restore amount and progress, and the status exactly when the target was not passed |
| GoalBook.LinkThenUnlink | app/goal_engine.py:277-342 | on the tables: linking a transaction and unlinking that row restores the allocations and every goal's amount and progress, and the status exactly when neither refresh saw the goal full |
| GoalBook.Book.Refresh | app/goal_engine.py:252-274 | the cache is written from the allocation table |
| GoalBook.Book.Link | app/goal_engine.py:277-302 | a pair already linked is refused and nothing changes; otherwise the row is added and every cache still agrees with the table |
| GoalBook.Book.Unlink | app/goal_engine.py:305-342 | the row goes and every cache still agrees with the table |
| GoalBook.Book.Evaluate | app/goal_rules.py:49-115 | what the rules grant is added, each allocation from an active matching rule, to an active goal and of that rule's size, and from no other than its goal's first such rule by priority and id; the goals touched are refreshed, and every cache still agrees with the table |
| ChatHistory.ShortKeeps | app/coach.py:2455-2466 | a long assistant message becomes its first 1000 characters, the mark and its last 300; nothing else of any message changes |
| ChatHistory.Shortened | app/coach.py:2455-2466 | only long assistant messages change, to at most 1500 characters with both ends kept |
| ChatHistory.History.Trim | app/coach.py:2469-2495 | the list becomes its longest suffix that starts at a permitted place and fits, or has at most one message; after a drop it never starts with a tool result |
| ChatHistory.LoadHistory | app/coach.py:2925-2944 | the window is the longest admissible suffix of the last rows, each shortened |
| ChatPairs.ToOpenAi | app/coach.py:625-680 | the two loops return the conversion of the specification |
| ChatPairs.CallsSent | app/coach.py:660-671 | every call sent has a name and an id, its own or one made from its place, and none with a name is lost |
| ChatPairs.MessageArrives | app/coach.py:645-678 | any message, well formed or not, arrives once with role and content, but for results whose call is not in the window; it carries calls exactly when one has a name |
| ChatPairs.Memory.Save | app/coach.py:3512-3540 | an exchange adds the question, the reply with one call for each action, and behind it one result for each, its payload and summary under one id |
| ChatPairs.LogDistinct | app/coach.py:3516-3540 | stored calls have distinct ids exactly when the actions behind them do |
| ChatPairs.SuffixOfBlocks | app/coach.py:2925-2944 | a window of a log is results cut off from their calls, then whole exchanges |
| ChatPairs.WindowConverts | app/coach.py:625-680 | converting any window drops exactly those results, and every call is followed at once by its answers |
| ChatPairs.HistoryForProvider | app/coach.py:2925-2944 | end to end, for any log and limit: the trimmed window arrives one for one, but for results at its start whose call lies before it, and calls and results are paired |
| ChatPairs.PairedMeans | app/coach.py:625-680 | paired means: behind each message with calls stand the results of all of them in order, and each result stands behind its own call with only results between |

## Left out

- Rounding to two decimals in reports (`round(x, 2)`), and binary floating point as such: statements are about the unrounded values.
- `_annuity_payment` in the branch that catches an overflow of `(1 + r) ** n`, which unbounded numbers never reach; rates between zero and the negligible rate agree with the simulation only as `DebtAnnuity.NegligibleRateStillAccrues` says.
- `collect_debts`, `compare_strategies`, the consolidation and opportunity-cost helpers: reading accounts and packaging results.
- QuotaCap.CapHolds: speaks of reservations counted on the day they were inserted, because across midnight the cap does not hold.
- Costs, tokens, durations and status columns of the call log; the shared provider quota.
- Digits outside ASCII, and the text around a numeral in the grounding patterns (lookbehind, currency names, unit words): the amounts found in an answer and the numbers of the cockpit are parameters.
- Negative zero, missing and non-numeric values in the printer, which print a dash.
- Sorting of one day's forecast events by size (their sum does not depend on it), the Sankey diagram, card limits.
- Forecast.Generate: takes amounts in whole cents, so the rounding of the shown columns is the identity.
- The proposal of actions, user rules, recurring markers and the other handlers; a handler is known by its outcome only.
- Balances.Bank.AddTransaction: dates, categories, workspaces and an account id of zero (treated as none by the program) are not modelled.
- Debt-freedom goals, projected completion dates and goal ownership. Transaction amounts in goals are whole cents; the database would round finer ones.
- Goals.Matches: descriptions and needles are compared as lowered texts; the lowering is not modelled.
- ChatPairs.HistoryForProvider: one writer at a time; two chats of one user saving at once could interleave their rows. The Anthropic adapter is not modelled.
- Authentication, web routes, scheduling, prompts, evaluation and everything else around the core.

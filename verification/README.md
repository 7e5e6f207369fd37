# FinPilot verification

Dafny models of FinPilot's deterministic engines, with proofs of what they promise. Every module
follows one source file (or one class of it): loops that update variables are methods proved
against specification functions, objects whose methods update fields are classes, and the promises
are lemmas about the specification functions, stated for every input, every run or every reachable
state.

- **Money.dfy** rounding and the largest-remainder split.
- **Allocator.dfy**, **AllocatorLaws.dfy**, **AllocatorMonth.dfy**, **AllocatorDeadlines.dfy**,
  **AllocatorPrecedence.dfy**, **AllocatorFloor.dfy**, **AllocatorSpread.dfy**, **AllocatorCash.dfy**,
  **AllocatorTurns.dfy** the four-pass paycheck allocator, the month loop over one shared ledger,
  conservation, deadlines, precedence, the checking floor, the even spread, when cash suffices, and every
  row of a paycheck with its place, read off its target.
- **Debt.dfy**, **DebtLaws.dfy**, **DebtBounds.dfy**, **DebtChoices.dfy**, **DebtOrders.dfy**,
  **DebtPromotions.dfy**, **DebtBenchmark.dfy**, **DebtPremiums.dfy**, **DebtStrategies.dfy**,
  **RunOff.dfy** the debt simulator, its accounts, the payoff bound, which debt each strategy pays first,
  which orders are best and when promotional zeros spoil one, HIGHEST_RATE as the cheapest of all
  strategies over whole runs, and mortgage run-off.
- **Calendar.dfy**, **Civil.dfy**, **UsCalendar.dfy**, **UsObserved.dfy** business-day arithmetic, civil
  months, the United States holidays and their observed days.
- **Schedule.dfy**, **Semimonthly.dfy**, **SemimonthlyWindows.dfy**, **Occurrences.dfy** recurrence
  generation, cadence by cadence.
- **Roadmap.dfy** the dependency-cycle check and the actionable selection.
- **Facts.dfy**, **FactsLaws.dfy**, **FactsReading.dfy**, **FigureScanner.dfy** figure tokens, their round
  trip and safety, what counts as a token or a number word, and one concrete scanner.
- **OrderedDict.dfy**, **WordingCache.dfy** the bounded cache with a time limit.
- **Ledger.dfy** the cash forecast and the spending allowance.
- **Mandate.dfy**, **MandateRooms.dfy**, **MandateCaps.dfy** payment mandates and when their caps hold.
- **PolicyFunding.dfy** month-by-month policy funding.
- **Runtime.dfy**, **RuntimeLaws.dfy**, **RuntimePages.dfy**, **RuntimeCaches.dfy** optimistic transactions
  and the caches of each process, as a state machine over the steps of any number of concurrent requests.
- **Projection.dfy** the incremental SQL projection of transactions.
- **Prelude.dfy** options, sums and a stable sort.

Check everything with `dafny verify dfyconfig.toml`.

## Where the code differs from what it promises

The model keeps the code's behaviour. Each difference has a concrete input, and its exact
condition or the bound it stays within.

- A negative total loses its remainder in the split (`Money.NegativeTotalLosesItsCent`); its shares add up
  exactly when rounding them down drops less than half a cent in all (`Money.NegativeSumExactly`).
- Required obligations and protected reserves come before optional percentage rules within one deposit
  (`AllocatorPrecedence.Precedence`), but not over the month: what waits for a later deposit is not set
  aside, and a percentage rule takes the cash (`AllocatorPrecedence.RulePaidBillShort`). A target keeps its
  precedence exactly when, if a rule was paid earlier, its own last deposit covers the claims up to and
  including its own (`AllocatorPrecedence.DatedFirstExactly`, `AllocatorPrecedence.RequiredFirstExactly`,
  `AllocatorPrecedence.ReserveFirstExactly`).
- The register is meant for an unfunded protected floor too, but the floor's row is always marked funded
  and never enters it (`AllocatorFloor.FloorNeverListed`, `AllocatorFloor.MissingFloorUnlisted`). The
  floor is short exactly when what the urgent claims leave of the deposit is less than it
  (`AllocatorFloor.FloorLacksExactly`, `AllocatorFloor.FloorGapRegisteredExactly`).
- HIGHEST_RATE orders promotional zeros by their contract rate (`DebtPromotions.PromotionalZeroCosts`). It
  is the best order for every budget exactly when no listed promotional zero precedes a debt that accrues
  (`DebtPromotions.PromotionalZeros`), and best for one month exactly when that month's money does not
  reach a promotional zero while it leaves an accruing debt uncleared
  (`DebtPromotions.PromotionalZerosThisMonth`).
- HIGHEST_RATE is called the lowest cost. A promotional zero can make it dearer than another order
  (`DebtPremiums.PromotionCostsMore`), and so can a rounded cent (`DebtPremiums.RoundingCostsMore`); when
  every promotional zero has a lower contract rate than every debt that accrues, it exceeds no strategy by
  more than a cent a debt each month, compounded (`DebtBenchmark.PremiumWithinRounding`).
- SEMIMONTHLY misses a date that rolls in from the month before the window
  (`Semimonthly.FirstOfMayIsMissed`) and repeats a date on which its two days meet
  (`Semimonthly.FebruaryRepeats`); the list is complete, each date once, exactly when neither happens
  (`Semimonthly.SemimonthlyExactly`). Its dates split with the window exactly when nothing rolls onto the
  split (`Occurrences.DatesSplitExactly`, `SemimonthlyWindows.AprilAndMay`).
- An observed holiday is open exactly when it is New Year's Day on a Saturday, observed in the year before
  (`UsObserved.ObservedOpensExactly`, `UsObserved.NewYearOfYearFive`).
- A text with more than 999 distinct figures, or with a number word that only shows once figures are
  replaced, does not survive the token round trip (`FigureScanner.FiveTwoIsRefused`); every other text
  does (`FactsLaws.RoundTripExactly`).
- A mandate starts its monthly usage again from zero on every visit to a month, and never adds up payments
  without a date (`MandateCaps.ReturnToMay`, `MandateCaps.TwoUndated`). Its cap holds on every run over a
  list of scheduled months exactly when it pays at most once or no month has room for more than the cap in
  all its visits (`MandateCaps.CapHoldsExactly`), and for undated payments exactly when it pays at most once
  or the most one can take times their number is within the cap (`MandateCaps.UndatedCapExactly`). Where no
  cap per payment binds, that is when no month is returned to, and when at most one payment is undated
  (`MandateCaps.NoReturnExactly`, `MandateCaps.OneUndatedExactly`); the demo household's 2500 a payment and
  7000 a month stand one return but not every one (`MandateCaps.DemoMandate`).
- Recording a later month drops a month that only the older single-month record held
  (`PolicyFunding.OlderRecordDropped`). While that record has no month of its own, its amount belongs to
  whatever month the day of the reading is in, so it moves when the month turns, and a first event applies
  to it or not by the day of its call (`PolicyFunding.MayTurnsToJune`, `PolicyFunding.SameReadingExactly`).
  After every event a month holds the sum of its own events exactly when neither happens to it
  (`PolicyFunding.FundingLostExactly`).
- A page request that crosses midnight between its start and its read is cached under the wrong day
  (`RuntimeLaws.MidnightMixesDays`); a request, computed or answered from the cache, gets the page of its
  own day exactly when the read its page comes from saw that day's household date
  (`RuntimePages.ReplyForItsDayExactly`).

## Model

| member | source | states |
|---|---|---|
| Money.HandOut | finpilot/money.py:195-196 | the in-place hand-out loop leaves the array equal to the floors bumped round the order, one unit a turn |
| Money.Allocate | finpilot/money.py:176-197 | the split computed step by step is `Split`, including the empty list and the zero weight sum |
| Money.StepsReachOnlyLosers | finpilot/money.py:191-196 | the number of leftover units is between zero and the number of shares, and only shares that lost a fraction get one |
| Money.SplitSum | finpilot/money.py:176-197 | the shares add up to the rounded total |
| Money.SplitSumExactly | finpilot/money.py:191-196 | for any total, negative ones included, the shares add up if and only if the hand-out count is not negative |
| Money.NegativeSumExactly | finpilot/money.py:189-196 | for a negative total the shares add up if and only if rounding the exact shares down drops less than half a cent in all |
| Money.WholeNegativeSumExactly | finpilot/money.py:189-196 | for a negative whole total, if and only if every exact share is whole |
| Money.NegativeTotalLosesItsCent | finpilot/money.py:190-196 | a concrete negative total whose cent disappears |
| Money.SplitNearExact | finpilot/money.py:189-196 | every share is within one unit of its exact share, never negative, and zero for a zero weight |
| Money.SplitMonotone | finpilot/money.py:194-196 | a larger weight never gets less, and ties favour the earlier index |
| Money.SplitClosest | finpilot/money.py:176-197 | no whole-unit split with the same sum has a smaller total absolute deviation |
| Money.HalfUpIs | finpilot/money.py:117-121 | rounding gives the nearest whole unit, and a half goes away from zero |
| Allocator.PaycheckAllocation.Append | finpilot/engine/allocator.py:574-579 | one row is added at the end and nothing else changes |
| Allocator.MonthlyPlan.Credit | finpilot/engine/allocator.py:506-509 | a positive row is added to the funding of the targets with its policy id |
| Allocator.MonthlyPlan.CommitRun | finpilot/engine/allocator.py:506-509 | the commit loop leaves the ledger equal to the fold of its rows |
| Allocator.AllocationEngine.FundTarget | finpilot/engine/allocator.py:551-580 | skip, cap, partial, unfunded and funded cases, with the cash left and the row written |
| Allocator.AllocationEngine.Take | finpilot/engine/allocator.py:378-462 | what one target does in each pass |
| Allocator.AllocationEngine.TakeAll | finpilot/engine/allocator.py:371-462 | a whole pass over its ordered targets is the fold of its steps |
| Allocator.AllocationEngine.HoldFloor | finpilot/engine/allocator.py:382-397 | the floor row and the cash left |
| Allocator.AllocationEngine.RegisterShortfalls | finpilot/engine/allocator.py:464-475 | the shortfall register lists exactly the rows the rule picks, in order |
| Allocator.AllocationEngine.AllocatePaycheck | finpilot/engine/allocator.py:340-482 | the four passes on a fresh result object are the paycheck specification, on the effective amount plus the carried-in cash |
| Allocator.AllocationEngine.RunDeposit | finpilot/engine/allocator.py:495-510 | one turn of the month loop moves the shared ledger one deposit on |
| Allocator.AllocationEngine.MonthIncome | finpilot/engine/allocator.py:231-254 | the filter loop and the sort give the events of the month, or the projected ones when there are none, in date order |
| Allocator.AllocationEngine.AllocateMonth | finpilot/engine/allocator.py:485-511 | the events of the month run in date order against the one shared ledger |
| AllocatorLaws.StepSound | finpilot/engine/allocator.py:551-580 | a step writes at most one row, for its own target, and loses no cash |
| AllocatorLaws.PassSound | finpilot/engine/allocator.py:371-462 | a whole pass keeps the book sound and only appends rows of its own targets |
| AllocatorLaws.PassOneEach | finpilot/engine/allocator.py:371-462 | no pass writes a second row for a policy |
| AllocatorLaws.PaycheckLaws | finpilot/engine/allocator.py:368-462 | rows and leftover cash add up to the deposit, each policy has one row for no more than it lacked, and after a short row everything is zero |
| AllocatorMonth.EventsMakeGoodMonth | finpilot/engine/allocator.py:231-254 | in whatever order the events come, the month that is run is in date order and holds exactly the month's events |
| AllocatorMonth.EventsKept | finpilot/engine/allocator.py:231-254 | two events of one date are both run: each event as often as it was given |
| AllocatorMonth.CommitAt | finpilot/engine/allocator.py:506-509 | the commit adds to each target exactly what the run gave its policy |
| AllocatorMonth.RunLaws | finpilot/engine/allocator.py:485-511 | every deposit of a month obeys the laws of one paycheck on the ledger it finds |
| AllocatorMonth.GivenWithinRemaining | finpilot/engine/allocator.py:485-511 | no deposit gives a target more than it still lacked |
| AllocatorMonth.NeverOverfunded | finpilot/engine/allocator.py:485-511 | over the month funding only grows and never passes the larger of target and prior funding |
| AllocatorMonth.CommitConserves | finpilot/engine/allocator.py:506-509 | what the rows allocate reaches the targets, apart from the floor |
| AllocatorMonth.MonthConserves | finpilot/engine/allocator.py:485-511 | after any number of deposits, funding plus kept cash equals prior funding plus money deposited |
| AllocatorDeadlines.DeadlineDepositExists | finpilot/engine/allocator.py:516-524 | every due date has exactly one last deposit on or before it, or the first deposit when it is past |
| AllocatorDeadlines.CashAfter | finpilot/engine/allocator.py:371-462 | the urgent pass, and on the last deposits every pass, is a waterfall: it leaves the cash less the claims, never below zero |
| AllocatorDeadlines.UrgentInPaycheck | finpilot/engine/allocator.py:371-380 | a target of the urgent pass gets what the claims before it leave; if short, every positive row of the deposit belongs to a required or protected target due earlier, or on the same day with no larger priority number, and the gap is registered |
| AllocatorDeadlines.DeadlineSafety | finpilot/engine/allocator.py:485-524 | from its deadline deposit on, a dated required or protected target is fully funded, or the deposit was spent to the last cent on targets due earlier or on the same day with no larger priority number, and the gap is registered |
| AllocatorDeadlines.DeadlineMetExactly | finpilot/engine/allocator.py:371-380 | the deadline is met if and only if the deposit covers the claims up to and including this target |
| AllocatorPrecedence.ElasticLast | finpilot/engine/allocator.py:430-462 | rows of optional percentage rules come after all others |
| AllocatorPrecedence.Precedence | finpilot/engine/allocator.py:422-462 | within one deposit, if an optional percentage rule gets anything, every other row got all it asked for, the floor included, unless deferred or skipped |
| AllocatorPrecedence.DatedFirstExactly | finpilot/engine/allocator.py:371-524 | over the month: a dated required or protected target that its deadline deposit finds lacking is filled whenever a percentage rule was paid by then, if and only if that deposit covers the claims up to it or no rule was paid before |
| AllocatorPrecedence.RequiredFirstExactly | finpilot/engine/allocator.py:399-420 | the same for a required target that waits for the last deposits, behind the urgent claims and the floor |
| AllocatorPrecedence.ReserveFirstExactly | finpilot/engine/allocator.py:422-462 | the same for a protected reserve, behind all required targets |
| AllocatorPrecedence.LastPaysAll | finpilot/engine/allocator.py:535-537 | the last deposit has none after it, so every target has such a last chance |
| AllocatorPrecedence.RulePaidBillShort | finpilot/engine/allocator.py:399-462 | two deposits of 100: the rule gets 50 from the first, and a bill of 150 ends with 100 |
| AllocatorFloor.FloorRowIs | finpilot/engine/allocator.py:382-397 | the floor's row comes right after the urgent rows, and holds the smaller of the floor and what the urgent claims leave |
| AllocatorFloor.FloorLacksExactly | finpilot/engine/allocator.py:382-397 | the floor is short if and only if it is positive and the deposit less the urgent claims is below it |
| AllocatorFloor.FloorNeverListed | finpilot/engine/allocator.py:464-475 | no shortfall register ever lists the floor |
| AllocatorFloor.FloorGapRegisteredExactly | finpilot/engine/allocator.py:382-475 | a short floor is registered if and only if it cannot be short, a condition on the deposit and the claims alone |
| AllocatorFloor.MissingFloorUnlisted | finpilot/engine/allocator.py:382-475 | 100 against a floor of 500: a row that lacks 400 and an empty register |
| AllocatorSpread.UndatedGets | finpilot/engine/allocator.py:539-543 | an undated target that is never short gets its share of what it lacks |
| AllocatorSpread.EvenSpread | finpilot/engine/allocator.py:539-543 | with distinct dates and enough cash each share is the floor or ceiling of an even split and the last deposit completes it |
| AllocatorSpread.NothingShort | finpilot/engine/allocator.py:368-462 | a deposit that covers everything missing and the floor leaves no row short |
| AllocatorSpread.CashSufficesExactly | finpilot/engine/allocator.py:368-462 | no row of a deposit is short if and only if the deposit covers what its rows ask for |
| AllocatorCash.CashCoversExactly | finpilot/engine/allocator.py:368-462 | the same from the targets, the floor and the deposit: it covers the urgent claims, the floor, the later claims when no deposit follows, and the capped shares of the unskipped rest, with something left when the last one's turn comes |
| AllocatorCash.RestIsWaiting | finpilot/engine/allocator.py:422-443 | the last pass takes exactly the targets that are neither urgent nor in the pass before |
| AllocatorTurns.RowsTell | finpilot/engine/allocator.py:371-462 | every row of a paycheck from its target's fields and the cash the rows before it left: amount, status, amount asked for and urgency, for deferred, skipped, paused, partial and full rows and the floor's |
| AllocatorTurns.EachIsTold | finpilot/engine/allocator.py:371-462 | a target that lacks something has a row unless its even part of the deposit rounds to nothing |
| AllocatorTurns.RowsInTurn | finpilot/engine/allocator.py:371-462 | the rows come in turn: what is due before the next income or is the protected buffer, then the other required targets, each by due date and priority, then the rest, percentage rules last, by priority and name |
| AllocatorTurns.FloorInTurn | finpilot/engine/allocator.py:382-397 | a row stands before the floor's if and only if its target is required or protected and presses |
| AllocatorTurns.ServedInOrder | finpilot/engine/allocator.py:371-462 | a row that ran out of cash comes after every positive row, all of targets served no later |
| AllocatorTurns.WaitsForItsDeposit | finpilot/engine/allocator.py:399-420 | a required target due on or after the next deposit gets nothing from this one while a later day still brings money |
| AllocatorTurns.DayIs | finpilot/engine/allocator.py:485-537 | each deposit of the month knows the next one's date and how many fall on a later day |
| AllocatorTurns.NextIncomeIs | finpilot/engine/allocator.py:350-353 | without a given date the next income is the first later one, if any |
| AllocatorTurns.FloorIs | finpilot/engine/allocator.py:545-549 | the floor is the one given, else the amount of the first buffer of the plan, else nothing |
| AllocatorTurns.RegisterIs | finpilot/engine/allocator.py:464-475 | row by row: the register lists what is partial or unfunded before the next income, and what lacks money for a required debt, card statement, bill or tax reserve unless deferred |
| AllocatorTurns.NameLeqIs | finpilot/engine/allocator.py:441-441 | names of equal priority compare as strings: a prefix first, else by the first differing letter |
| AllocatorSpread.EvenSpreadWhenCashSuffices | finpilot/engine/allocator.py:485-543 | the even spread whenever each deposit covers what it is asked for |
| AllocatorSpread.EvenSpreadFromInputs | finpilot/engine/allocator.py:485-543 | the even spread from conditions on the inputs alone, for deposits that each cover all that is missing |
| Debt.AccrueInterest | finpilot/engine/debt.py:168-176 | the interest loop, its capitalised balances and its total |
| Debt.PayMinimums | finpilot/engine/debt.py:178-185 | the minimum payments, capped by balance and budget |
| Debt.PayInOrder | finpilot/engine/debt.py:234-240 | leaving the greedy loop early changes nothing |
| Debt.PayShares | finpilot/engine/debt.py:199-209 | equal shares with the excess of each share collected |
| Debt.SpendByStrategy | finpilot/engine/debt.py:198-240 | each strategy's own distribution, the equal-share spill included |
| Debt.SpendExtra | finpilot/engine/debt.py:187-240 | the extra money with the reserve for one debt taken first |
| Debt.RecordMonth | finpilot/engine/debt.py:242-253 | rows, payments, payoffs and the survivors of a month |
| Debt.Run | finpilot/engine/debt.py:143-261 | the month loop is the simulation, and truncated tells whether a debt outlived the horizon |
| Debt.AliveShrinks | finpilot/engine/debt.py:250-253 | cleared debts never come back and keep their balance; the survivors are exactly the debts still owed |
| DebtLaws.EqualSplitIs | finpilot/engine/debt.py:200-201 | the equal shares are non-negative and add up to the money left |
| DebtLaws.GreedyFair | finpilot/engine/debt.py:234-240 | the greedy loop loses no cent and ends with the money or every listed balance at zero |
| DebtLaws.MonthFair | finpilot/engine/debt.py:164-253 | for every strategy a month loses no cent; all but liquidity preservation end with the money or every balance at zero |
| DebtLaws.PaysInFull | finpilot/engine/debt.py:164-253 | every strategy but liquidity preservation pays exactly the smaller of the budget and everything owed |
| DebtLaws.MonthTotals | finpilot/engine/debt.py:168-253 | opening balances plus interest equal payments plus closing balances, and payments stay within the budget |
| DebtLaws.HistoryStep | finpilot/engine/debt.py:242-253 | each debt's rows chain month by month and a payoff is reported once |
| DebtLaws.RunAccounts | finpilot/engine/debt.py:143-261 | over the whole run: initial balances plus interest equal payments plus residual, no balance negative, rows chained, one payoff each |
| DebtBounds.MonthProgress | finpilot/engine/debt.py:164-253 | a month lowers what is owed by the sure progress of the budget over the interest ceiling |
| DebtBounds.PayoffBound | finpilot/engine/debt.py:164-261 | with sure progress c, every spending strategy is debt-free within any M months with M times c at least the total, and is not truncated |
| DebtBounds.Exchange | finpilot/engine/debt.py:234-240 | the exchange argument: holding more above the price and less below it weighs at least the price of the difference |
| DebtBounds.GreedyOptimal | finpilot/engine/debt.py:234-240 | paying in order of falling weight leaves the least weighted balance of all allocations |
| DebtBounds.HighestRateOptimal | finpilot/engine/debt.py:110-112 | after the minimums and any reserve, HIGHEST_RATE leaves the least sum of rate times balance among all ways of spending what is left |
| DebtChoices.SmallestBalanceClearsMost | finpilot/engine/debt.py:113-114 | after the minimums and any reserve, SMALLEST_BALANCE clears at least as many debts as any way of spending what is left |
| DebtOrders.GreedyAt | finpilot/engine/debt.py:234-240 | each debt gets what the balances before it in the order leave, no more than its balance |
| DebtOrders.WrongOrderLoses | finpilot/engine/debt.py:234-240 | when the money reaches a lighter debt and leaves a later heavier one uncleared, a better allocation is constructed |
| DebtOrders.RightOrderIsBest | finpilot/engine/debt.py:234-240 | when it never does, no allocation is better |
| DebtOrders.BestAtExactly | finpilot/engine/debt.py:234-240 | for a given amount of money the order is best if and only if it never does |
| DebtOrders.BestExactlyWhenFalling | finpilot/engine/debt.py:110-120 | an order is best for every budget if and only if the weights fall along it |
| DebtPromotions.RateOrderIs | finpilot/engine/debt.py:110-112 | HIGHEST_RATE pays by contract rate, then balance, then position in the list |
| DebtPromotions.PromotionalZeros | finpilot/engine/debt.py:110-112 | HIGHEST_RATE is best for the accruing rates at every budget if and only if no listed promotional zero has a higher contract rate than a debt that accrues, or the same rate and an earlier turn |
| DebtPromotions.PromotionalZerosThisMonth | finpilot/engine/debt.py:110-240 | one month is best if and only if its money does not reach a promotional zero and leave an accruing debt uncleared |
| DebtPromotions.PromotionalZeroCosts | finpilot/engine/debt.py:110-240 | two debts of 1000 on which a month's 500 all goes to the promotional zero |
| DebtBenchmark.HighestRateMonth | finpilot/engine/debt.py:178-240 | a month of HIGHEST_RATE has a rate above which nothing is left and below which only the required payments are made |
| DebtBenchmark.StrategyAllowed | finpilot/engine/debt.py:178-240 | every strategy, with any reserve, pays what is required, no more than is owed and no more than the budget |
| DebtBenchmark.MonthGap | finpilot/engine/debt.py:168-176 | the benchmark's interest of a month against any other way, up to a cent of rounding a debt |
| DebtBenchmark.BenchmarkCostsLeast | finpilot/engine/debt.py:164-253 | over any number of months, however the same budget is spent, HIGHEST_RATE costs no more interest than that and its rounding, with every promotional zero below the rates that accrue |
| DebtBenchmark.SimulatedCost | finpilot/engine/debt.py:143-261 | the interest a simulation reports is that of its months, and idle months add nothing |
| DebtBenchmark.PremiumWithinRounding | finpilot/engine/debt.py:285-318 | on the same debts, budget and horizon, with every promotional zero below the rates that accrue, the benchmark's total interest exceeds no other strategy's by more than a cent a debt each month, compounded at the top rate |
| DebtStrategies.InterestIs | finpilot/engine/debt.py:170-176 | a month's interest is nothing on a promotional zero, else a twelfth of the contract rate to the nearest cent |
| DebtStrategies.RequiredPayments | finpilot/engine/debt.py:178-185 | each debt gets its minimum, no more than it owes, and no more than the debts before it leave of the budget; no other debt gets any |
| DebtStrategies.OrderIs | finpilot/engine/debt.py:110-120 | which debt comes first, on rates, balances, minimums, promotion deadlines and list positions, for every strategy's order |
| DebtStrategies.CustomOrderIs | finpilot/engine/debt.py:221-225 | first the targets the user listed, in that order, then the others by HIGHEST_RATE on the balances of the start |
| DebtStrategies.ServedInOrder | finpilot/engine/debt.py:227-240 | in a month, a debt gets extra money only when every debt its strategy pays before it is cleared |
| DebtStrategies.ReserveGives | finpilot/engine/debt.py:188-196 | the reserved debt gets the reserved amount, no more than it owes or is left, and no other debt changes |
| DebtStrategies.EqualShareIs | finpilot/engine/debt.py:200-201 | each equal share is the money over the number of targets, and one cent more for the earliest |
| DebtStrategies.EqualSharesMonth | finpilot/engine/debt.py:198-208 | EQUAL_SHARES pays every target the same to the cent when each owes at least its share |
| DebtStrategies.SpillOrderIs | finpilot/engine/debt.py:209-217 | what the shares leave goes to the smallest remaining balance first, ties in list order |
| DebtStrategies.LiquidityPaysNoExtra | finpilot/engine/debt.py:218-219 | PRESERVE_LIQUIDITY pays the required payments and the reserve and nothing else |
| DebtStrategies.RunStops | finpilot/engine/debt.py:162-165 | a run stops with the last debt or at its horizon, 720 months when none or zero is given |
| DebtPremiums.PromotionCostsMore | finpilot/engine/debt.py:285-318 | two debts on which a promotional zero makes the benchmark cost 20.10 against 15.10 |
| DebtPremiums.RoundingCostsMore | finpilot/engine/debt.py:168-176 | two debts without promotions on which rounding makes the benchmark cost two cents against one |
| RunOff.Months | finpilot/engine/debt.py:357-370 | the run-off loop's months and interest |
| RunOff.MonthIs | finpilot/engine/debt.py:363-369 | a month adds the nearest cent of a twelfth of a year's interest, then takes the payment or what is owed |
| RunOff.DownStops | finpilot/engine/debt.py:363-370 | a run-off stops when nothing is owed or at the cap |
| RunOff.DownNoWorse | finpilot/engine/debt.py:357-370 | from a smaller balance and a larger payment, never more months nor more interest, month by month |
| RunOff.SmallerOrFasterNeverWorse | finpilot/engine/debt.py:357-370 | a smaller principal or a larger payment never costs months or interest, under cent rounding |
| RunOff.MortgageScenarios | finpilot/engine/debt.py:373-408 | the extra-principal and lump-sum scenarios appear when asked for and never do worse than the baseline |
| Calendar.PrevNext | finpilot/dates.py:102-116 | the latest business day not after a date and the earliest not before it, with none between |
| Calendar.Adjust | finpilot/dates.py:102-117 | the rolling loops terminate; FOLLOWING gives the next open day with none between, PRECEDING the last, MODIFIED_FOLLOWING the next when it shares the month and the last when not, no rule the date itself |
| Calendar.AdjustRolls | finpilot/dates.py:102-117 | each rule has one such place, and it is the rolled date |
| Calendar.StepAhead | finpilot/dates.py:111-113 | the forward loop stops at the next business day |
| Calendar.AdjustLands | finpilot/dates.py:102-117 | rolling lands on a business day and rolling again changes nothing |
| Calendar.AdjustMonotone | finpilot/dates.py:102-117 | every rule keeps the order of dates, MODIFIED_FOLLOWING included |
| Calendar.ModifiedStaysInMonth | finpilot/dates.py:108-116 | MODIFIED_FOLLOWING stays in the month if and only if the month has a business day |
| Calendar.AddBusinessDays | finpilot/dates.py:119-127 | exactly n business days are passed, in either direction, ending on one of them |
| Calendar.AddSubtractInverse | finpilot/dates.py:119-130 | from a business day, subtracting undoes adding and adding undoes subtracting |
| Calendar.LatestSafeInitiation | finpilot/engine/liquidity.py:296-303 | the result is the latest business day that leaves the full count before the due date |
| Schedule.DayInMonthIs | finpilot/dates.py:140-151 | the requested day of the month itself, or its last day, nothing, or the first of the next month |
| Schedule.StepsReach | finpilot/dates.py:184-227 | the dates the stepping visits are the rule dates: every 7 or 14 days from the anchor, or the day of a month 1, 3 or 12 months apart |
| Schedule.MonthDatesIncrease | finpilot/dates.py:140-151 | under each day rule a later month gives a later date |
| Schedule.WindForward | finpilot/dates.py:208-216 | the wind-forward loop stops at a month of the cadence and has skipped only dates before the window |
| Schedule.MonthlyDates | finpilot/dates.py:206-227 | monthly, quarterly and annual: exactly the rule dates of the window, on the requested day or its replacement of every first, third or twelfth month from the anchor's, increasing, none lost to the early exit |
| Schedule.WeeklyDates | finpilot/dates.py:184-192 | weekly and biweekly: exactly the days of the window 7 or 14 days apart from the anchor on, in order |
| Semimonthly.SemiMonth | finpilot/dates.py:199-202 | one month of the loop lists its one or two days, smaller first, each if it falls in the window |
| Semimonthly.SemimonthlyDates | finpilot/dates.py:194-204 | the loop leaves exactly the list of its months joined, repeats included |
| Semimonthly.ListingIs | finpilot/dates.py:194-204 | that list holds exactly the dates of the window that its own months give |
| Semimonthly.ListingIncreases | finpilot/dates.py:194-204 | it is strictly increasing if and only if no month repeats a date: two days clamped or rolled to one date, or one rolled onto a first that is asked for |
| Semimonthly.SemimonthlyExactly | finpilot/dates.py:194-204 | the list is every date of the rule once, in order, if and only if none rolls in from the month before and no month repeats one |
| Semimonthly.FebruaryRepeats | finpilot/dates.py:194-204 | the 28th and 31st with the last-day rule list 28 February twice |
| Semimonthly.FirstOfMayIsMissed | finpilot/dates.py:194-204 | the 15th and 31st with the first-of-next rule miss 1 May in a window that opens on it |
| SemimonthlyWindows.ListingSplitsExactly | finpilot/dates.py:194-204 | splitting the window splits the list if and only if the month before rolls no date onto the split |
| SemimonthlyWindows.AprilAndMay | finpilot/dates.py:194-204 | April and May together list 1 May, April and May apart do not |
| Occurrences.Generate | finpilot/dates.py:173-230 | for every cadence the dates are the nominal list, each rolled |
| Occurrences.CompleteExactly | finpilot/dates.py:173-230 | the nominal list is complete if and only if the plan is not a SEMIMONTHLY one that misses or repeats a date |
| Occurrences.DatesSplitExactly | finpilot/dates.py:173-230 | the rolled dates of a split window join to those of the whole if and only if the plan is not SEMIMONTHLY or nothing rolls onto the split |
| Schedule.WindowsCompose | finpilot/dates.py:173-230 | splitting a window splits the nominal list, nothing lost and nothing twice |
| Schedule.RolledCompose | finpilot/dates.py:229-230 | the rolled dates split with the window and stay in order |
| UsCalendar.AnyWeekOpens | finpilot/dates.py:60-100 | any seven days in a row hold a business day |
| UsCalendar.UsIsUsable | finpilot/dates.py:60-100 | the United States calendar meets the hypothesis of all business-day theorems |
| UsObserved.YearStarts | finpilot/dates.py:49-57 | the Gregorian rule: 365 days a year, one more every fourth, but for the centuries 400 does not divide |
| UsObserved.FloatingAre | finpilot/dates.py:60-71 | the six floating holidays: four Mondays by third, first or second week, the last Monday of May and the fourth Thursday of November, each between its two days of the month |
| UsObserved.ObservedIs | finpilot/dates.py:75-83 | a Saturday holiday is observed on the Friday, a Sunday one on the Monday, any other on its day |
| UsObserved.BusinessDayIs | finpilot/dates.py:60-100 | a day is open if and only if it is a weekday and no observed day of one of the eleven holidays of its own year |
| UsObserved.ObservedInYear | finpilot/dates.py:60-83 | but for New Year on a Saturday, every observed day falls in its own year and is listed there |
| UsObserved.ObservedOpensExactly | finpilot/dates.py:60-100 | the observed day of any of the eleven holidays is open if and only if it is 1 January on a Saturday |
| UsObserved.NewYearOfYearFive | finpilot/dates.py:75-100 | 1 January of year 5 is such a day |
| Roadmap.CycleCheck.Report | scripts/roadmap.py:224-227 | every reported list is a real closed walk |
| Roadmap.CycleCheck.Visit | scripts/roadmap.py:221-231 | a visit ends with the sub-goal finished, or some cycle reported |
| Roadmap.CycleCheck.Explore | scripts/roadmap.py:228-231 | exploring all needs finishes the sub-goal and keeps every finished one finished |
| Roadmap.CycleCheck.Finish | scripts/roadmap.py:231-231 | the sub-goal takes the next place of the finishing order |
| Roadmap.CycleCheck.Check | scripts/roadmap.py:219-235 | a cycle is reported if and only if the needs graph has one; otherwise finishing order is a dependency order |
| Roadmap.OrderedIsAcyclic | scripts/roadmap.py:219-235 | a complete dependency order leaves no room for a cycle |
| Roadmap.ActionableIsReady | scripts/roadmap.py:396-403 | what is listed is exactly the open todo or doing work whose known needs are closed, best first |
| Roadmap.ActionableIs | scripts/roadmap.py:396-403 | on status, needs, horizon and order fields: what is listed and which of two comes first |
| Roadmap.ActionableNotEmpty | scripts/roadmap.py:396-403 | an acyclic roadmap with open work that is todo or doing always has something actionable |
| Facts.Learn | finpilot/ai/facts.py:58-61 | a figure keeps its token, a new one gets the next number |
| Facts.Tokenize | finpilot/ai/facts.py:52-66 | the one-pass loop builds the tokenized text and the distinct figures |
| FactsLaws.ReadBack | finpilot/ai/facts.py:52-66 | reading the tokenized text finds exactly the tokens that were written, whatever stands around them |
| FactsLaws.TokenBijection | finpilot/ai/facts.py:52-66 | tokens and figures correspond one to one |
| FactsLaws.RoundTripExactly | finpilot/ai/facts.py:52-97 | for any good scanner, substituting a sheet's own tokens restores the text if and only if there are at most 999 figures and no number word shows once they are blanked |
| FactsLaws.MaskIsTokenized | finpilot/ai/facts.py:69-81 | masking the reference with its own sheet gives the tokenized text |
| FactsReading.MaskHides | finpilot/ai/facts.py:69-81 | whatever the sheet, a masked text is typed characters that are no figures, and tokens of the sheet |
| FactsReading.MaskKeeps | finpilot/ai/facts.py:69-81 | keeping unknown figures, a sheet without figures changes nothing |
| FactsLaws.AcceptedIsSafe | finpilot/ai/facts.py:84-97 | in an accepted answer every digit and symbol lies inside an inserted fact |
| Facts.AcceptedKeepsTokens | finpilot/ai/facts.py:94-97 | with figures to keep no accepted draft is without a token, and the reply names the tokens it kept, each in order of first appearance |
| FactsReading.RefusedExactly | finpilot/ai/facts.py:84-97 | which drafts are refused and why: a token no figure has, else a typed figure or number word, else no token at all when there are figures |
| FactsReading.TokenReadExactly | finpilot/ai/facts.py:27-28 | text starts with a token if and only if it has the bracketed form, either letter case, one to three digits, spaces allowed |
| FactsReading.NumberWordExactly | finpilot/ai/facts.py:25-29 | a number word is one of the words, in any case, whole or with a plural s, between word edges |
| FigureScanner.FiguresAreGood | finpilot/ai/facts.py:15-49 | the concrete scanner is ordered, never overlaps and covers every digit and symbol |
| FigureScanner.WholeFigures | finpilot/ai/facts.py:19-26 | a sum with its currency sign, a percentage and a plain number, signed or not, with commas and a decimal part, are one figure each |
| FigureScanner.RoundTrip | finpilot/ai/facts.py:15-97 | the round trip of the concrete scanner, exactly |
| FigureScanner.FiveTwoIsRefused | finpilot/ai/facts.py:15-97 | "5two" becomes "[F1]two", and substituting its own token is refused |
| WordingCache.Cache.Lookup | finpilot/ai/wording_cache.py:34-46 | hit, expiry, miss and the counters; a missed key is gone, a hit one is the newest |
| WordingCache.Cache.Put | finpilot/ai/wording_cache.py:48-55 | nothing for an empty key or text; otherwise the newest entry last and the oldest dropped beyond the limit |
| WordingCache.RunFaithful | finpilot/ai/wording_cache.py:34-55 | over any run, every entry holds its key's last put and the size stays within the limit |
| WordingCache.HitIsLastPut | finpilot/ai/wording_cache.py:34-46 | a hit returns the last value put for the key, no older than the time limit |
| WordingCache.Survives | finpilot/ai/wording_cache.py:34-55 | an unexpired key survives while fewer than the maximum of other keys were put or hit since its own last put or hit |
| Ledger.GroupByDay | finpilot/engine/ledger.py:160-162 | the day lists hold each day's entries in order |
| Ledger.Forecast | finpilot/engine/ledger.py:153-175 | each day closes at the available cash plus every entry dated so far, counted once, and balances its own flows |
| Ledger.LowPoint | finpilot/engine/ledger.py:59-61 | the first day of least closing balance |
| Ledger.AddReserves | finpilot/engine/ledger.py:186-188 | the loop adds the account's protected reserves |
| Ledger.ProtectedIs | finpilot/engine/ledger.py:186-188 | each protected reserve on the account adds what it holds; no other reserve changes the sum |
| Ledger.RequiredBefore | finpilot/engine/ledger.py:190-192 | the bills of the window, each counted once |
| Ledger.BillsAre | finpilot/engine/ledger.py:190-192 | a bill of the window adds its amount; an income, another outflow or another day's entry adds nothing |
| Ledger.SpendingAllowance | finpilot/engine/ledger.py:182-193 | the allowance is what the lowest prefix sum leaves above protected money, never negative, with that balance, the first day it is reached, the protected money and the bills |
| Ledger.AllowanceIsSafe | finpilot/engine/ledger.py:182-193 | any extra outflows within the allowance, on any days, keep every closing at or above protected money |
| Ledger.FirstDaySpendExactly | finpilot/engine/ledger.py:182-193 | a first-day spend is safe if and only if it is within the allowance |
| Mandate.Mandate.Authorizes | finpilot/models.py:637-653 | the verdict on the fields: authorized if and only if signed, not revoked, not exploring and within every cap; each refusal with its reason |
| Mandate.Mandate.RecordUse | finpilot/models.py:655-664 | usage restarts when the month changes and then grows |
| Mandate.Mandate.ReleaseUse | finpilot/models.py:666-673 | usage of the current month only is given back, never below zero |
| Mandate.InactivePaysNothing | finpilot/models.py:631-653 | over any run, while a mandate is not active, or before it first is, no payment is added |
| Mandate.OneTimePaysOnce | finpilot/models.py:637-673 | on any run a one-time mandate has at most one outstanding payment, and the recorded usage is that payment |
| Mandate.RunTracks | finpilot/models.py:631-673 | on a run that returns to no month, usage is the current month's net payments and every month stays within the cap |
| Mandate.UsageIsNetOfMonth | finpilot/models.py:631-673 | the recorded usage equals the month's outstanding payments and never exceeds the cap |
| Mandate.OrderedRunsStayWithinCap | finpilot/models.py:631-673 | a run whose payments never go back to an earlier month stays within the cap |
| MandateRooms.RunBounded | finpilot/models.py:631-673 | on any run a month's outstanding payments stay within its room, visit by visit |
| MandateRooms.BestRunTakes | finpilot/models.py:631-673 | one run takes exactly the room of every month, and the most of every undated payment |
| MandateRooms.PaysOnce | finpilot/models.py:637-673 | a one-time or exploring mandate never has more than the cap outstanding |
| MandateCaps.CapHoldsExactly | finpilot/models.py:631-673 | for every mandate with a period cap, any cap per payment and any mode: the cap holds on every run over the scheduled months if and only if it pays at most once or no month has room for more than the cap |
| MandateCaps.NoReturnExactly | finpilot/models.py:631-673 | where no cap per payment binds: if and only if no month is returned to |
| MandateCaps.ReturnToMay | finpilot/models.py:631-673 | May, June and May again at a cap of 100 leave 200 in May |
| MandateCaps.UndatedBounded | finpilot/models.py:631-673 | over any run, undated payments stay within the most one can take times the number scheduled |
| MandateCaps.UndatedCapExactly | finpilot/models.py:631-673 | for every mandate with a period cap: undated payments stay within the cap on every run over the scheduled months if and only if it pays at most once or that product is within the cap |
| MandateCaps.OneUndatedExactly | finpilot/models.py:631-673 | where no cap per payment binds: if and only if at most one is undated |
| MandateCaps.TwoUndated | finpilot/models.py:631-673 | two undated payments leave 200 at a cap of 100 |
| MandateCaps.DemoMandate | finpilot/seed/demo.py:289-291 | 2500 a payment and 7000 a month: May, June, May holds, a second payment on the first visit breaks it; two undated payments hold, three break it |
| PolicyFunding.RecurringPolicy.RecordFunding | finpilot/models.py:723-729 | the dictionary and the older record after a recording |
| PolicyFunding.RecurringPolicy.ReverseFunding | finpilot/models.py:731-738 | the same for a reversal, clamped at zero |
| PolicyFunding.RecurringPolicy.FundingForPeriod | finpilot/models.py:715-721 | the month's own record, else the older record when it is of the month, or of none on a day of it, else nothing |
| PolicyFunding.SameReadingExactly | finpilot/models.py:715-721 | a month reads the same on two days if and only if the older record has a month of its own or is empty, the dictionary has the month, or both days or neither are in it |
| PolicyFunding.SameOnAnyDay | finpilot/models.py:715-738 | after the first event no reading depends on the day |
| PolicyFunding.MonthsIndependent | finpilot/models.py:715-738 | from a consistent policy every month's funding is the sum of its own events, over any run with any day for every call and reading |
| PolicyFunding.FundingKeptExactly | finpilot/models.py:715-738 | every call with its own day: after every event, read on any day, a month holds the sum of its own events if and only if no event overwrote its only record and the first event did not read that record on a day of another month |
| PolicyFunding.FundingLostExactly | finpilot/models.py:715-738 | the same, decided by the first policy, the events and the day of the start alone |
| PolicyFunding.MayTurnsToJune | finpilot/models.py:715-738 | 50 without a month are May's in May and June's in June, and a late 10 for May leaves May at 10 |
| PolicyFunding.OlderRecordDropped | finpilot/models.py:715-738 | 50 in the older record for May are gone after 10 for June |
| PolicyFunding.FundingKept | finpilot/models.py:715-738 | any policy, over a run that does neither, keeps the sum of its own events |
| Runtime.HouseholdRow.Begin | finpilot/runtime.py:153-157 | a stale expected revision is refused |
| Runtime.HouseholdRow.Commit | finpilot/runtime.py:163-173 | the compare-and-set with its audit row, or nothing at all |
| Runtime.Process.LookupBootstrap | finpilot/runtime.py:221-227 | a hit becomes the newest entry |
| Runtime.Process.StoreBootstrap | finpilot/runtime.py:235-238 | the page is stored and the oldest entries dropped beyond 128 |
| Runtime.Process.LookupDashboard | finpilot/runtime.py:245-251 | the same for dashboards |
| Runtime.Process.StoreDashboard | finpilot/runtime.py:263-266 | the same for dashboards |
| Runtime.Process.PopHousehold | finpilot/runtime.py:176-179 | the loop pops every key of the household, of any revision |
| Runtime.Process.Invalidate | finpilot/runtime.py:174-179 | both caches lose every entry of the household and nothing else |
| Runtime.DroppedIn | finpilot/runtime.py:176-179 | what stays is exactly every entry of the other households |
| RuntimeCaches.TouchIs | finpilot/runtime.py:221-224 | a hit moves its entry behind all others, which keep their order |
| RuntimeCaches.StoreIs | finpilot/runtime.py:235-238 | a new key goes last and the oldest of 128 makes room; a known key keeps its place |
| RuntimeCaches.PageHitIsNewest | finpilot/runtime.py:221-225 | a request answered with a cached page gets that page, which moves behind all others |
| RuntimeCaches.DashboardHitIsNewest | finpilot/runtime.py:245-251 | the same for a dashboard |
| RuntimeCaches.RunStaysTidy | finpilot/runtime.py:204-268 | over any interleaving a cache holds at most 128 entries, one a key |
| RuntimeCaches.PageServed | finpilot/runtime.py:219-240 | a page stored by one request answers the next of the process for the same household, revision and day |
| RuntimeCaches.DashboardServed | finpilot/runtime.py:242-268 | the same for dashboards |
| RuntimeCaches.InvalidationClears | finpilot/runtime.py:174-179 | after a commit the process holds no entry of the household, and all it held of the others |
| RuntimeLaws.CommitKeepsRow | finpilot/runtime.py:161-173 | a commit wins exactly when its revision is current, and adds one revision computed from the snapshot just before it |
| RuntimeLaws.StepStaysGood | finpilot/runtime.py:135-268 | any step of any session keeps rows, caches and sessions consistent and continues every history |
| RuntimeLaws.SerialCommits | finpilot/runtime.py:135-173 | under any interleaving revisions are consecutive, with one audit row each, each computed from the previous snapshot |
| RuntimeLaws.OneWinner | finpilot/runtime.py:163-169 | of two transactions that loaded the same revision, one commit makes the other, whenever it comes, change no row and no cache |
| RuntimeLaws.StaleExpectationRefused | finpilot/runtime.py:153-154 | a superseded revision is refused for ever after |
| RuntimeLaws.DashboardsAgree | finpilot/runtime.py:242-268 | under any interleaving every cached dashboard equals the one recomputed from its key's revision and date, and there are at most 128 |
| RuntimeLaws.PagesAgree | finpilot/runtime.py:204-240 | when rows are read for the day requests started on, every cached page equals the one recomputed from its key |
| RuntimeLaws.PageForItsDayExactly | finpilot/runtime.py:204-240 | over any interleaving, a request that reads the row gets the page for its own day if and only if the household's date on the day of the read is its date on that day |
| RuntimePages.StepTraced | finpilot/runtime.py:204-268 | every step keeps every page, cached or in the making, traced to one read of the same household, revision and day |
| RuntimePages.ReplyForItsDayExactly | finpilot/runtime.py:204-240 | any reply, computed or found in the cache, is the page for its request's day if and only if the read it comes from saw that day's household date |
| RuntimePages.CachedForItsDayExactly | finpilot/runtime.py:228-238 | the same for any cached page of any process |
| RuntimeLaws.MidnightMixesDays | finpilot/runtime.py:219-238 | a concrete interleaving with midnight that caches a page under the wrong day |
| RuntimeLaws.NoOlderThanAtStart | finpilot/runtime.py:204-240 | the page a request gets is of one revision, no older than the one stored when it started |
| Projection.Transactions.DeleteRemoved | finpilot/runtime.py:185-187 | the 500-row delete batches remove exactly the listed ids of the household |
| Projection.Transactions.UpsertBatch | finpilot/runtime.py:190-202 | a batch against one prefetched selection equals one upsert at a time |
| Projection.Transactions.UpsertChanged | finpilot/runtime.py:188-202 | the batches together equal the upserts of the whole list |
| Projection.Transactions.Sync | finpilot/runtime.py:181-202 | the whole synchronisation: removed ids deleted, changed transactions upserted |
| Projection.ChangedAre | finpilot/runtime.py:182-182 | the changed list is exactly the transactions that differ from their copies |
| Projection.SyncMatchesExactly | finpilot/runtime.py:181-202 | the table encodes the new list afterwards if and only if it held the unchanged rows and no row unknown to both lists, and under equal payloads equal columns |
| Projection.IncrementalIsFull | finpilot/runtime.py:158-202 | a table that encoded the old list encodes the new one, and other households' rows are untouched |
| Projection.RowTells | finpilot/runtime.py:196-202 | what each row of such a table says: its columns, cents, sign and flags, from its transaction |

## Left out

- Routes, authentication, bank links, the model client, the planner, answer templates, logging and migrations: I/O and library calls.
- `cards.py`, `tax.py`, `coverage.py` and the rest of `liquidity.py`, `ledger.py` and `models.py`: mostly straight-line arithmetic and wording.
- `build_monthly_plan` and `_policy_monthly_target`: the month theorems hold for any list of targets.
- The execution engine and the proposal service; a mandate's recording follows its authorization at once in the runs, with nothing in between.
- Currencies and currency mismatch errors, 28-digit Decimal precision, date range limits, Python's recursion limit.
- Reason strings, names, account ids, assumptions, warnings and confidence of allocations; `first_month_allocation`, labels and totals of `compare_strategies`, which reads off simulation results.
- `amortized_payment` and the recast scenario, which round a power: the payment is an input of the run-off.
- Allocator.AllocationEngine.RunDeposit: a finished paycheck is kept as a value, and the plan's targets are values replaced in the list, so aliasing between targets is not captured.
- DebtBenchmark.PremiumWithinRounding: is about comparisons, whose benchmark run has no reserve for one debt; the other strategy may have one.
- DebtBounds.PayoffBound: needs whole-cent balances, minimums and budget, as do all members about debts; a debt is known by its position in the list.
- Roadmap.CycleCheck.Check: takes the known sub-goals in any order and identifies a sub-goal by its pair of numbers; the other checks of `validate` and the parser are not modelled.
- Facts.Tokenize: keeps the facts as the list of their values, numbered from one, where the code keeps a dictionary.
- FigureScanner.RoundTrip: is about ASCII digits, letters and spaces; other Unicode digits, spaces and letters are not modelled, and neither is `figure_sources`.
- WordingCache.Cache.Lookup: a missing key is the empty string, the clock is a parameter and the lock makes each call one step.
- Ledger.SpendingAllowance: leaves out the confidence and the missing-data notes.
- Ledger.Forecast: takes the entries as given; collecting and sorting them from income, bills and pending transactions is not modelled.
- Mandate.OneTimePaysOnce: needs amounts that are not negative, as do all runs of mandates.
- RuntimeLaws.NoOlderThanAtStart: reading the revision and reading the clock at the start of a page request are one step.
- RuntimeLaws.PagesAgree: assumes that no midnight passes between a request's start and its read of the row; `RuntimePages.CachedForItsDayExactly` shows that this is what decides.
- RuntimeLaws.SerialCommits: what an action does to the household is any new snapshot; roles, memberships, the in-process lock and row locks are not modelled, so the theorems hold without them.
- Dashboards requested on their own, the model status added to replies, and chat answers.
- Projection.Transactions.Sync: needs unique ids in the new list, which the table's primary key demands; merchant, merchant code, transfer and link fields of a transaction are not modelled.

# Verification model of the arbitrage system

Dafny models of three cores of the system, with proofs over every input and every run.

**Execution engine.** A store of executions, order legs, fill records, positions and cooldowns (`Executions`), acted on by
leg processing, reconciling, the position scan, rule switch-off and closes by hand. `Positions` and `Quantities` hold the
arithmetic of fills and order sizes over exact reals, `Legs` and `LegFills` the state machine of one order leg, `SystemRuns`,
`ReconcileLaws`, `LegPairing` and `FillTracking` the invariants of every interleaving, `LegOutcomes`, `StepEffects`,
`ReconcileEffects` and `CloseEffects` what each step writes, in the columns of the tables, and `ClosingOverlap` and `StaleRows`
two ways in which closing goes wrong. `ExecutionRepository`, `ExecutionPlanService`, `ExecutionService`, `CloseTriggers` and
`OpenScan` are the services themselves, written as methods on mutable state and proved to leave exactly the rows that the
functions of `Executions` say. `OpenScan` also proves what a scan opens and the cap on pairs.

**Fund balancing.** Amounts as text (`Amounts`), targets (`FundTargets`), transfer planning (`TransferPlanning`), balancing
real accounts again and again (`Balancing`), the guard that freezes failing accounts (`AccountGuard`) and the workers that
execute transfers (`TransferWorkers`).

**Pairs, ranking and cache.** Pair generation (`MarketPairs`, `PairLaws`, `PairTable`), ranking and the public hash (`RankedCache`),
venue symbols (`VenueSymbols`) and the backfill scheduler (`Backfill`). `Text`, `Sorting` and `Prelude` are shared vocabulary.

`dafny verify dfyconfig.toml` checks everything.

## How the model reads the code

- Tables are sequences indexed by id, since ids are assigned in order and rows are never deleted; the positions table is a
  map by its unique key. A source execution id is absent or the place of a row. Exchange, clock, cache expiry and the other
  tables are inputs of each step, so every theorem holds for all their answers.
- One atomic step is one call of `process_order_leg`, one row of a scan, one request or one opened pair. In particular
  checking for a live close and creating one is one step, and the leg row that is processed is the stored one.
- Money and quantities are exact reals; whole amounts are integers. `round` rounds to a nearest number; where the code prints
  with `.1f` and `.2f`, ties may go either way.

Where the code falls short of what one would expect, the model keeps the code and says exactly when it does:

- A poll that finds an order `open` books a fill without storing the filled quantity, so the next poll books it again; a
  report on a cancelled or odd order is booked without being stored too, which the ledger then holds alone
  (`LegFills.LedgerIsStoredIff`, `LegFills.LedgerIsExactIff`, `FillTracking.RecordsAreStoredIff`).
- The stored filled quantity belongs to the leg but is compared with the fill of the current order: over reposts the ledger
  holds the greatest fill, not the sum, and a repost without a fill subtracts the earlier ones again
  (`LegFills.LedgerIsExactIff`, `LegFills.RepostKeepsRemainderIff`).
- Order-leg rows have no action column, so `_finalize_failed_execution_active_legs` never takes its branch for idle close
  legs; unsubmitted legs of a failed execution always fail (app/infrastructure/persistence/mysql.py:393).
- A client that cannot be built raises outside the `try`: the leg stays `submitting` without an order id
  (`Legs.SubmittingWithoutOrderIsStuck`).
- The worker processes rows read before its loop, and a leg that failed with its sister in the meantime is submitted all the
  same: its close stays failed and the source can be closed again meanwhile (`StaleRows.LegRevivesUnderDeadClose`,
  `StaleRows.SourceCanBeClosedAgain`).
- A closed position row forgets its realised profit (`Positions.ProfitIsKeptIff`).
- A close by hand looks at closes of its own source only and can overlap a close of the same pair
  (`SystemRuns.ManualCloseOverlapsIff`, `ClosingOverlap.ManualCloseCanOverlap`).
- Transfers are planned on displayed amounts, which can take both sides past their targets and pass the same amount back and
  forth forever (`Balancing.SourceAndDestinationIff`, `Balancing.StepLowersIff`, `Balancing.BalancingNeedNotEnd`).
- A transfer record whose worker dies is never picked up again (`TransferWorkers.OrphansStay`).

The guard promises what it should for the categories that the worker records, which are normalised and the account's own
(`AccountGuard.FrozenIffRepeated`). Other uses of its methods would break it: a category with capitals or blanks never repeats
itself, and one that is not the account's unfreezes the account (`AccountGuard.SecondFailureFreezesIff`,
`AccountGuard.UnfreezingIff`).

## Model

| member | source | states |
|---|---|---|
| `Positions.ReflectedWalk` | app/application/services/arbitrage_execution_service.py:642-670 | After any ledger of fills the stored quantity is the signed sum of the fills minus its least value so far (0 included): a walk reflected at zero |
| `Positions.PlainSumIffNoOvershoot` | app/application/services/arbitrage_execution_service.py:651-669 | The quantity is never negative, and is the plain signed sum exactly when no prefix of the ledger closes more than was opened |
| `Positions.RealizedIsCashPlusInventory` | app/application/services/arbitrage_execution_service.py:642-697 | Over every ledger, realised profit of the open cycle is its cash flow plus (short: minus) quantity times average entry |
| `Positions.MarkedToMarket` | app/application/services/arbitrage_execution_service.py:679-697 | At positive prices realised plus unrealised profit is the cash of the cycle plus (short: minus) quantity at the mark |
| `Positions.AverageBetweenOpenings` | app/application/services/arbitrage_execution_service.py:671-678 | The average entry lies between any bounds on the opening prices since the row was last flat |
| `Positions.OwnedByFirstFillOfCycle` | app/application/services/arbitrage_execution_service.py:699-719 | A row belongs to the execution of the first fill of its cycle and points at the latest leg and fill |
| `Positions.NetRowsRealizeNothing` | app/application/services/arbitrage_execution_service.py:682-689 | On a `net` row a close books no profit, so the accounting identity survives it if and only if nothing was held or the price was the average |
| `Positions.ProfitIsKeptIff` | app/application/services/arbitrage_execution_service.py:637-645 | A fill carries the realised profit on if and only if the row held something or had none; after a flat row it starts from nothing under a new owner |
| `Positions.RowShows` | app/application/services/arbitrage_execution_service.py:671-720 | After every ledger a row is open exactly while it holds something, marked by the newest price (or its average without one) and worth its quantity at the mark; a flat row shows the value of its last fill, no average and no open profit |
| `Quantities.RoundDownIsGreatest` | app/application/services/arbitrage_runtime_support_service.py:111-129 | Rounding finds the greatest admissible amount not above the value, for counted decimals and for steps |
| `Quantities.PlanCoversWanted` | app/application/services/arbitrage_runtime_support_service.py:32-91 | A plan covers what was wanted from below to within one market step, or orders nothing when it misses the minimum |
| `Quantities.OpenedPairIsHedged` | app/application/services/arbitrage_execution_plan_service.py:197-217 | The right leg falls short of the left by less than one step of the right market, and the left leg costs at most the configured amount |
| `Quantities.CloseLegFitsPosition` | app/application/services/arbitrage_execution_plan_service.py:73-101 | A close leg never exceeds the position; less than one step stays behind when the market has a price and the minimum is reached |
| `Quantities.PlanIsLargestOrder` | app/application/services/arbitrage_runtime_support_service.py:21-129 | In the columns of the market row and the ticker: buyers are priced at the ask and sellers at the bid, else at the last price; an order unit of a swap is one contract; and the order is the greatest admissible amount worth no more than what is wanted, or nothing where none reaches the minimum |
| `Legs.RunIsBounded` | app/application/services/arbitrage_execution_service.py:286-580 | Over every run of a leg: retries never exceed 10 and reach 10 only in `failed`, at most 10 submissions plus one per cancellation, at most 43 changing steps plus three per cancellation, ledger never below the stored fill |
| `Legs.SpentBudgetIsNeverPolled` | app/application/services/arbitrage_execution_service.py:476-486 | The branch for a cancelled order with no retries left is unreachable |
| `Legs.MovesSpendBudget` | app/application/services/arbitrage_execution_service.py:24-43 | Every step that changes status or retry count, cancellations apart, strictly lowers a measure |
| `Legs.SubmittingWithoutOrderIsStuck` | app/application/services/arbitrage_execution_service.py:324-343 | A leg left `submitting` because its client could not be built stays as it is if and only if no event blocks it, abandons it or finds its account gone; otherwise it is at rest |
| `Legs.StaleRowRevivesIff` | app/application/services/arbitrage_execution_monitor_service.py:69-75 | A leg abandoned since its batch was read is revived by its stale row if and only if that row can be submitted and its budget is not spent by a refusal |
| `LegOutcomes.EndedIff` | app/application/services/arbitrage_execution_service.py:286-580 | Over every run a leg is filled if and only if a report said so or nothing was left to close, and has failed if and only if one of the listed events happened to it: switched off, given up without an order, account gone, nothing to ask for, tenth refusal or expiry, odd state |
| `LegOutcomes.StatusFollows` | app/application/services/arbitrage_execution_service.py:324-507 | Where a leg goes that is not ended: out, about to be, partly filled, or back to the start |
| `LegOutcomes.ColumnsFollow` | app/application/services/arbitrage_execution_service.py:324-580 | Column by column: the request changes by a repost only, at the newest price if there is one, the order id by an accepted order only, the retry count by refusals and expiries |
| `LegOutcomes.StoredFillFollows` | app/application/services/arbitrage_execution_service.py:408-580 | The stored fill follows the reports that are stored, and an expired order never lowers it |
| `LegFills.NeverOverOrders` | app/application/services/arbitrage_execution_service.py:509-580 | With a faithful exchange, fills of ended orders plus the outstanding request never exceed the original request, which stays positive and never grows |
| `LegFills.RepostCondition` | app/application/services/arbitrage_execution_service.py:547-552 | A repost keeps within the request if and only if the polled fill is below it |
| `LegFills.RepostKeepsRemainderIff` | app/application/services/arbitrage_execution_service.py:526-552 | Exactly when a repost loses nothing of the request |
| `LegFills.EmptyRepostLosesFour` | app/application/services/arbitrage_execution_service.py:526-552 | A concrete run: a repost without a fill subtracts earlier fills again and asks for 2 where 6 are missing |
| `LegFills.LedgerIsStoredIff` | app/application/services/arbitrage_execution_service.py:408-507 | Over every run of a leg the fill records add up to the stored filled quantity if and only if no event lost track (a report above the stored fill that is not stored, or a lower one that is), and to more otherwise |
| `LegFills.LedgerIsGreatestFillIff` | app/application/services/arbitrage_execution_service.py:582-628 | Over every run the ledger is at least the greatest fill reported on any one order, and equals it if and only if no report was booked twice |
| `LegFills.LedgerIsExactIff` | app/application/services/arbitrage_execution_service.py:408-580 | Against all that the orders of a leg executed: while one order at most filled anything, exact if and only if nothing was booked twice; while nothing was booked twice, exact if and only if one order at most filled anything |
| `LegFills.TrackedLedgerIsGreatestFill` | app/application/services/arbitrage_execution_service.py:526-580 | A run that never loses track books nothing twice, and ledger and stored quantity both hold the greatest fill of any one order |
| `LegFills.TallyRuns` | app/application/services/arbitrage_execution_service.py:408-507 | The tally of orders accompanies the run and does not change it |
| `LegFills.OpenPollsBookTwice` | app/application/services/arbitrage_execution_service.py:463-474 | A concrete run: two polls that find an order open with a fill of 4 book 8 |
| `FillTracking.RecordsAreStoredIff` | app/application/services/arbitrage_execution_service.py:408-507 | In every reachable store the fill records of a leg add up to its stored filled quantity if and only if no step of the run lost track of it |
| `ExecutionRepository.Repository.UpdateOrderLegStatus` | app/infrastructure/persistence/arbitrage_execution_repository.py:174-226 | Absent arguments leave their column unchanged; an id without a row changes nothing |
| `ExecutionRepository.Repository.CreateFillRecord` | app/infrastructure/persistence/arbitrage_execution_repository.py:228-295 | One record is appended and nothing else changes |
| `ExecutionRepository.Repository.UpsertPosition` | app/infrastructure/persistence/arbitrage_execution_repository.py:297-386 | The row of that key is written and no other |
| `Executions.ListLegsLists` | app/infrastructure/persistence/arbitrage_execution_repository.py:939-951 | Every leg of an execution is listed exactly once, in ascending id order |
| `Executions.NetRowStandsIn` | app/infrastructure/persistence/arbitrage_execution_repository.py:388-433 | What is read of a side is its own open row, or an open `net` row where it has none |
| `ExecutionPlanService.FirstListed` | app/application/services/arbitrage_execution_plan_service.py:50-57 | The first listed leg in a role is the first stored one |
| `ExecutionPlanService.PlanService.CreateCloseExecution` | app/application/services/arbitrage_execution_plan_service.py:41-182 | Writes exactly the rows of CreateClose, or nothing when there is nothing to close |
| `ExecutionPlanService.PlanService.CreateOpenExecution` | app/application/services/arbitrage_execution_plan_service.py:184-411 | Writes exactly the rows of OpenPair, or nothing |
| `ExecutionService.Service.ProcessOrderLeg` | app/application/services/arbitrage_execution_service.py:24-43 | Processing a stored leg leaves exactly the store of ProcessLeg: the event, the booked fill, then reconciling |
| `ExecutionService.Service.SubmitOrder` | app/application/services/arbitrage_execution_service.py:286-378 | All branches of a submission amount to the Submit event of the leg machine |
| `ExecutionService.Service.MonitorOrder` | app/application/services/arbitrage_execution_service.py:380-507 | All branches of a poll amount to the Poll event, with the increment booked first |
| `ExecutionService.Service.RetryOrder` | app/application/services/arbitrage_execution_service.py:509-580 | A retry writes exactly the retry patch, spent or reposted |
| `ExecutionService.Service.SyncIncrementalFillProgress` | app/application/services/arbitrage_execution_service.py:582-628 | The fill beyond the stored quantity is booked once, as record and as position; nothing is booked otherwise |
| `ExecutionService.Service.PositionAfterFill` | app/application/services/arbitrage_execution_service.py:642-697 | The branch-by-branch arithmetic of a fill comes out as the row the ledger laws are about |
| `ExecutionService.Service.ReconcileListed` | app/application/services/arbitrage_execution_service.py:75-131 | Whatever the order in which the legs are listed, the same store results |
| `ExecutionService.Service.HandleFailedExecution` | app/application/services/arbitrage_execution_service.py:145-163 | Abandons unsubmitted legs, then forces a close, restores the source or starts a cooldown, exactly as specified |
| `ExecutionService.Service.FinalizeFailedExecutionActiveLegs` | app/application/services/arbitrage_execution_service.py:764-788 | Exactly the active legs without an order id become failed |
| `ExecutionService.Service.ScheduleForceClose` | app/application/services/arbitrage_execution_service.py:165-200 | Forces at most one close: joins a live one, creates one, or starts a cooldown |
| `CloseTriggers.ListActiveOpenLists` | app/infrastructure/persistence/arbitrage_execution_repository.py:854-869 | Every active opened execution is listed, once, oldest first and with its current row, and nothing else is |
| `CloseTriggers.PositionMonitor.ScanOpenExecutions` | app/application/services/arbitrage_position_monitor_service.py:66-144 | A scan over rows read once equals inspecting each execution on the current store, and counts the closes it creates |
| `CloseTriggers.RuleService.ScheduleCloseForRule` | app/application/services/strategy_rule_service.py:288-316 | Switching a rule off closes each of its opened pairs on the current store, in whatever order they are listed |
| `CloseTriggers.RuntimeService.RequestCloseExecution` | app/application/services/strategy_runtime_service.py:54-96 | A request by hand refuses, joins the latest live close of the source, or starts one |
| `SystemRuns.AtMostOneLiveClose` | app/application/services/strategy_runtime_service.py:66-93 | In every reachable store, over all interleavings of workers, scans and requests, a source execution has at most one live close |
| `SystemRuns.AtMostOneLiveClosePerPair` | app/infrastructure/persistence/arbitrage_execution_repository.py:871-893 | As long as nobody closes by hand, even a pair of one user and rule has at most one live close |
| `SystemRuns.ManualCloseOverlapsIff` | app/application/services/strategy_runtime_service.py:66-89 | A close by hand leaves two live closes of a pair if and only if the pair was being closed already |
| `ClosingOverlap.ManualCloseCanOverlap` | app/application/services/strategy_runtime_service.py:66-89 | A run of the system after which a pair has two live closes, and its sources one each |
| `SystemRuns.SettledForGood` | app/application/services/arbitrage_execution_service.py:75-131 | Through everything that follows any run, dead closes keep their status, legs at rest never change and no row is lost or rewritten but for its status |
| `SystemRuns.ClosedPairStaysClosed` | app/application/services/arbitrage_position_monitor_service.py:86-97 | A closed pair whose legs are all at rest stays closed and at rest for good |
| `SystemRuns.EveryLegIsALegRun` | app/application/services/arbitrage_execution_service.py:408-461 | Every leg of every reachable store is the outcome of a leg run with its fill records as ledger, so their sum is never below the stored filled quantity |
| `SystemRuns.EveryRowIsItsLedger` | app/application/services/arbitrage_execution_service.py:630-720 | Every position row of every reachable store is what its fill records make of it: their signed sum reflected at zero |
| `SystemRuns.JudgeMeaning` | app/application/services/arbitrage_execution_service.py:84-124 | What the set of statuses decides, in terms of the legs themselves |
| `SystemRuns.StepKeeps` | app/application/services/arbitrage_execution_service.py:24-43 | Every atomic step keeps the execution graph sound and what is settled |
| `LegPairing.LegsArePaired` | app/application/services/arbitrage_execution_plan_service.py:118-182 | In every reachable store each leg trades the instrument of its role for its execution's user; openings open, long on the left and short on the right; every closing leg reverses the first leg of its role in the pair, on the same account; every pair has both legs; fill records name execution, row and side of their leg; no `net` row is ever written |
| `ReconcileEffects.ReconcileDoes` | app/application/services/arbitrage_execution_service.py:75-284 | What reconciling writes, read off the legs: `open` or `closed` if and only if all are filled, `opening` or `closing` while some are active and none failed; a failed opening ends `closing` if and only if it is exposed and a close is under way or can be made, which is then added; the source of a close follows by whether its retries are spent; the pair cools down exactly where nothing takes care of it; and nothing else |
| `StepEffects.ProcessingDoes` | app/application/services/arbitrage_execution_service.py:24-73 | What processing a leg writes in any reachable store: the event that switches, account, position and exchange make, the increment booked in base units at the reported price, then what reconciling does |
| `CloseEffects.CloseReversesPair` | app/application/services/arbitrage_execution_plan_service.py:41-182 | A close can be made if and only if the row of one of the pair's legs holds something the market takes an order for; it has one leg for each such row, reversing it at the right price and size, and its planned value is theirs |
| `CloseEffects.InspectionDoes` | app/application/services/arbitrage_position_monitor_service.py:66-144 | An inspected pair that is open and idle becomes closed if and only if neither side holds anything, gets a close if and only if one can be made and one side alone is left or the strategy wants it; otherwise nothing happens |
| `CloseEffects.RuleOffDoes` | app/application/services/strategy_rule_service.py:288-316 | Switching a rule off gives a close to exactly the pairs of the rule that are open and idle and can be closed |
| `CloseEffects.RequestDoes` | app/application/services/strategy_runtime_service.py:54-96 | A request by hand joins the close that is under way, else starts one if one can be made, and is refused in every other case |
| `CloseEffects.OpeningDoes` | app/application/services/arbitrage_execution_plan_service.py:184-411 | When a pair is refused, and the two rows of legs it gets otherwise: accounts, sides, prices and matching sizes |
| `ReconcileLaws.ReconcileIsIdempotent` | app/application/services/arbitrage_execution_service.py:75-131 | Reconciling twice with the same positions and prices gives the same whole store: no second close, the same statuses |
| `ReconcileLaws.ReconcileTwiceOnRuns` | app/application/services/arbitrage_execution_service.py:75-131 | The same in every reachable store, without conditions |
| `ReconcileLaws.ScanIsARun` | app/application/services/arbitrage_position_monitor_service.py:66-144 | A whole scan is a run of atomic steps, so all that holds over every run holds after it |
| `ReconcileLaws.RuleOffIsARun` | app/application/services/strategy_rule_service.py:288-316 | So is switching a rule off |
| `ReconcileLaws.CloseLegsFitPositions` | app/application/services/arbitrage_execution_plan_service.py:73-101 | Every leg of a new close asks for no more than its row holds and leaves less than one step |
| `ReconcileLaws.NewPairIsHedged` | app/application/services/arbitrage_execution_plan_service.py:201-217 | The stored legs of a new pair are hedged to within one step of the right market |
| `StaleRows.CurrentRowIsProcessed` | app/application/services/arbitrage_execution_monitor_service.py:69-75 | Submitting by a row that is up to date is processing the leg |
| `StaleRows.LegRevivesUnderDeadClose` | app/application/services/arbitrage_execution_monitor_service.py:69-75 | A stale row leaves the failed close dead, and its leg active under it if and only if the row can be submitted and the order is accepted under an id or the client cannot be built |
| `StaleRows.SourceCanBeClosedAgain` | app/application/services/strategy_runtime_service.py:66-89 | With that order outstanding, another close of the source is started by hand exactly when it is not closed and something is left to close |
| `StaleRows.PairStaysIdle` | app/infrastructure/persistence/arbitrage_execution_repository.py:871-893 | A scan does not wait for that order either: the pair is as busy as it was before |
| `OpenScan.BuildersAgree` | app/application/services/arbitrage_opportunity_monitor_service.py:172-180 | The key the monitor looks up equals the key the plan service stores, for every opportunity |
| `OpenScan.KeyIgnoresSides` | app/application/services/arbitrage_execution_plan_service.py:413-431 | Swapping the legs does not change the key |
| `OpenScan.KeyReadsBack` | app/infrastructure/persistence/arbitrage_execution_repository.py:598-623 | A stored key is unchanged by being read back |
| `OpenScan.ScanKeepsCap` | app/application/services/arbitrage_opportunity_monitor_service.py:90-145 | After a scan the distinct active pair keys are at most the cap or as many as before; none is lost, and a full rule gets no new one |
| `OpenScan.KeysTellRules` | app/application/services/arbitrage_opportunity_monitor_service.py:172-180 | Pairs of different rules have different keys |
| `OpenScan.ActiveKeysAre` | app/infrastructure/persistence/arbitrage_execution_repository.py:598-623 | The keys that count are those of openings that are neither closed nor failed |
| `OpenScan.AttemptIff` | app/application/services/arbitrage_opportunity_monitor_service.py:104-145 | An opportunity opens a pair if and only if it is wanted, its key is active or there is room, it is not cooling down, its newest opening leaves room and both orders can be made |
| `OpenScan.ScanInTurn` | app/application/services/arbitrage_opportunity_monitor_service.py:90-145 | Unless the scan has opened something and is full, each opportunity is tried on the store that the ones before it have left; none is passed over |
| `OpenScan.BalancedIff` | app/application/services/arbitrage_opportunity_monitor_service.py:268-276 | The sides are balanced, once not tiny, if and only if the smaller has 98 per cent of the larger |
| `OpenScan.ScanOpensWhatIsWanted` | app/application/services/arbitrage_opportunity_monitor_service.py:90-145 | Whatever a scan opens it opens for a wanted opportunity that is not cooling down, with the amount of the rule; no row there was is changed |
| `OpenScan.CooldownBlocks` | app/application/services/arbitrage_execution_service.py:256-270 | The cooldown that a failure leaves is under the very key that the scan asks for: until it is over nothing is opened for it |
| `OpenScan.OpportunityMonitor.ScanStrategyOpportunities` | app/application/services/arbitrage_opportunity_monitor_service.py:90-145 | The loop equals the specified scan, and the set kept in memory is the set that is stored |
| `Amounts.ParseFormat` | app/application/services/account_support.py:162-190 | Reading back a displayed amount gives the nearest hundred below a million and the nearest ten thousand above, ties either way |
| `Amounts.ShownIsClose` | app/application/services/account_support.py:183-190 | Exact below 1,000, within 50 below 1,000,000, within 5,000 above |
| `Amounts.ShownTwice` | app/application/services/account_support.py:162-190 | Displaying what was read back changes nothing more |
| `Amounts.ShownMonotone` | app/application/services/account_support.py:162-190 | Displaying never reverses the order of two amounts |
| `Amounts.FormatSpells` | app/application/services/account_support.py:183-190 | The text begins with a dollar sign, ends in `K` or `M` exactly in the ranges of thousands and millions, and is the number itself below |
| `FundTargets.TargetAndTrigger` | app/application/services/account_query_service.py:211-219 | A configured account is to hold its percentage of the pool and to ask below the ratio's part of that, each to the nearest unit |
| `FundTargets.TargetsAddUp` | app/application/services/account_query_service.py:197-220 | Targets add up to the configured part of the pool plus what unconfigured accounts have (nothing without a positive pool), to within half a unit per configured account |
| `FundTargets.TargetsSumToPool` | app/application/services/account_query_service.py:197-220 | With all accounts configured and shares of 100 per cent, targets add up to the pool to within n/2 |
| `FundTargets.TargetOf` | app/application/services/account_query_service.py:211-218 | The target as it is computed; an account without a share gets exactly what it has while the pool is positive |
| `FundTargets.ResolveBalance` | app/application/services/account_query_service.py:365-405 | A resolved balance and its display agree, for the fallback text too |
| `FundTargets.BuildBalanceRows` | app/application/services/account_query_service.py:187-253 | Both loops together show every account with its target and trigger of the whole pool |
| `TransferPlanning.ListCandidates` | app/application/services/account_transfer_planning_service.py:11-88 | The loops produce the specified list, or raise when an amount cannot be read |
| `TransferPlanning.PlansAreThePairs` | app/application/services/account_transfer_planning_service.py:38-88 | The list holds exactly the helpful pairs of an account in surplus and an account in need |
| `TransferPlanning.PickIsNeediestFromRichest` | app/application/services/account_transfer_planning_service.py:90-96 | The picked transfer serves the neediest account that can be helped, from the largest surplus |
| `TransferPlanning.PlansAreOrdered` | app/application/services/account_transfer_planning_service.py:51-88 | The whole list is in order: neediest target first, and for each target the largest surplus first |
| `TransferPlanning.BothSidesIff` | app/application/services/account_transfer_planning_service.py:38-58 | An account is source and demander at once if and only if its amount lies between target and trigger; never with trigger at most target |
| `TransferPlanning.SidesAre` | app/application/services/account_transfer_planning_service.py:38-58 | Which accounts are in need and in surplus, in the columns of the row; what counts is the lesser of its two balances |
| `TransferPlanning.TransferBalances` | app/application/services/account_transfer_planning_service.py:64-88 | On the figures it is planned on, a transfer keeps the total, leaves its source at or above and its destination at or below target and one of them right at it, and lowers the sum of deviations by exactly twice its amount |
| `Balancing.TableIsSeen` | app/application/services/account_query_service.py:187-253 | Reading back the balance table of any accounts gives their displayed figures |
| `Balancing.HopIsOnTheList` | app/application/services/account_auto_transfer_service.py:56-60 | The transfers of a run are on the list that is planned from the table |
| `Balancing.RunsConserve` | app/application/services/account_auto_transfer_service.py:51-95 | Every run of the balancer, over real accounts that are displayed and read back before each transfer, conserves the pool and the total holdings |
| `Balancing.StepLowersIff` | app/application/services/account_transfer_planning_service.py:64-88 | A transfer lowers the real imbalance if and only if there is a real surplus and a real need and the amount is below their sum |
| `Balancing.StepToUnconfiguredLowersIff` | app/application/services/account_transfer_planning_service.py:64-88 | To an account without a share, if and only if the amount is below twice the real surplus |
| `Balancing.SourcesAreFixed` | app/application/services/account_query_service.py:211-218 | An account without a share never gives anything while there is a pool |
| `Balancing.SourceAndDestinationIff` | app/application/services/account_transfer_planning_service.py:18-22 | A planned transfer leaves its real source at or above target exactly when the surplus or the need that was seen is at most the real surplus, and its real destination at or below target exactly when one of them is at most the real need |
| `Balancing.MissesAreBounded` | app/application/services/account_transfer_planning_service.py:18-22 | Neither side is missed by more than two display errors: nothing below 1,000, 100 below 1,000,000, 10,000 above |
| `Balancing.RunsEnd` | app/application/services/account_auto_transfer_service.py:51-95 | From accounts whose amounts and targets are multiples of 10,000, or small enough to be displayed exactly, every run ends: it has no more transfers than the real imbalance amounts to |
| `Balancing.BalancingNeedNotEnd` | app/application/services/account_auto_transfer_service.py:51-95 | From 1350 and 1250 in equal shares there are runs of every length: a hundred goes back and forth |
| `Balancing.LopsidedPick` | app/application/services/account_transfer_planning_service.py:90-96 | Each transfer of those runs is the one that is picked from the balance table |
| `Balancing.DisplayOverdraws` | app/application/services/account_transfer_planning_service.py:18-22 | On a concrete table the picked transfer takes both accounts from 2 off their targets to 98 off on the other side |
| `AccountGuard.RowSummarizesLog` | app/application/services/auto_transfer_account_guard_service.py:55-91 | Over every log of failures, clears, selective clears and looks, the row is the summary of the failures since it was last away: count, frozen, time of first freeze |
| `AccountGuard.RunIsTrailing` | app/application/services/auto_transfer_account_guard_service.py:67-69 | The count is the length of the trailing run of failures that repeat one another |
| `AccountGuard.FrozenIffRepeated` | app/application/services/transfer_execution_monitor_service.py:177-195 | As the worker calls it, an account is frozen if and only if two adjacent failures of one category came since the last full clear, whatever selective clears and other failures there were besides |
| `AccountGuard.FrozenUntil` | app/application/services/auto_transfer_account_guard_service.py:104-123 | Once frozen, an account stays frozen since the same time through all other failures and selective clears |
| `AccountGuard.UnfreezingIff` | app/application/services/auto_transfer_account_guard_service.py:41-49 | An event unfreezes an account if and only if it is a full clear or a failure of a category that is not the account's, which the worker never records |
| `AccountGuard.SecondFailureFreezesIff` | app/application/services/auto_transfer_account_guard_service.py:67-69 | For any use of the method: two failures in a row freeze an account if and only if the second category, as given, is the normalised first |
| `AccountGuard.CapitalsNeverFreeze` | app/application/services/auto_transfer_account_guard_service.py:67-76 | A pair of identical failures that would not freeze, because the category has a capital, which the worker never gives |
| `AccountGuard.GuardStore.RecordFailure` | app/application/services/auto_transfer_account_guard_service.py:55-91 | Writes exactly the next row of that account and no other |
| `AccountGuard.GuardStore.ClearNonFrozenByCategories` | app/application/services/auto_transfer_account_guard_service.py:104-123 | Clears exactly an unfrozen row of a listed category (or any, without a list) |
| `AccountGuard.GuardStore.ListStates` | app/application/services/auto_transfer_account_guard_service.py:17-39 | Shows exactly the rows that are to be kept and clears the others of positive ids |
| `TransferWorkers.AttemptedAtMostOnce` | app/application/services/transfer_execution_monitor_service.py:74-83 | For any number of workers, deaths and interleavings, no transfer is attempted twice, and only worker records are |
| `TransferWorkers.StatusMovesForward` | app/infrastructure/persistence/account_repository.py:761-824 | Every step leaves a record's status or moves it on by one: pending, executing, processed |
| `TransferWorkers.OnlyHolderFinishes` | app/application/services/transfer_execution_monitor_service.py:85-163 | A record in execution is finished only by the worker that claimed it |
| `TransferWorkers.OrphansStay` | app/infrastructure/persistence/account_repository.py:660-691 | A record whose worker died stays `executing` for good and is never attempted again |
| `TransferWorkers.TransferStore.MarkProcessing` | app/infrastructure/persistence/account_repository.py:761-780 | The claim succeeds exactly on a pending worker record |
| `TransferWorkers.TransferStore.ScanPendingRecords` | app/application/services/transfer_execution_monitor_service.py:74-83 | Alone, a worker claims and executes exactly the records it listed |
| `TransferWorkers.BatchIsProcessed` | app/application/services/transfer_execution_monitor_service.py:85-163 | Exactly the records of a batch are processed, each with its own outcome |
| `TransferWorkers.PendingAreAll` | app/infrastructure/persistence/account_repository.py:660-691 | Exactly the pending worker records are listed |
| `TransferWorkers.BatchIsFirst` | app/infrastructure/persistence/account_repository.py:660-691 | A batch holds the first of them, all unless there are more than the limit |
| `TransferWorkers.ResultIsOfItsAttempt` | app/application/services/transfer_execution_monitor_service.py:85-163 | Over all interleavings the result of a processed record is that of the one attempt at it, or `failure` if there was none; no other record has a result |
| `MarketPairs.BuildPairs` | app/application/services/market_sync_service.py:178-277 | The grouping dictionary, the deduplication and the nested loops produce the specified pairs |
| `MarketPairs.DedupePairMarkets` | app/application/services/market_sync_service.py:313-334 | The dictionary loop keeps one market per slot and returns them in order |
| `PairLaws.DedupedAreBest` | app/application/services/market_sync_service.py:313-327 | Exactly one row per slot with a complete row is kept, and none there has an earlier symbol |
| `PairLaws.PairsJoinRepresentatives` | app/application/services/market_sync_service.py:178-227 | A pair is generated if and only if it joins the representatives of two exchanges of one group, first exchange on the left |
| `PairTable.PairsAreOfTheTable` | app/application/services/market_sync_service.py:178-277 | In the columns of the market table: the pairs are every two exchanges' linear USDT perpetuals for one asset (for funding pairs, with funding), each the first by symbol on its exchange, first exchange on the left, under the key that names them |
| `PairLaws.PairKeysAreUnique` | app/application/services/market_sync_service.py:203-206 | Pair keys are unique over all groups |
| `PairLaws.PairsAreCounted` | app/application/services/market_sync_service.py:197-227 | The number of pairs is the sum of n(n - 1)/2 over the groups |
| `PairLaws.OrderOfRowsIsIrrelevant` | app/application/services/market_sync_service.py:178-277 | Permuting the rows permutes the pairs |
| `RankedCache.FinalizeRows` | app/application/services/opportunity_runtime_service.py:664-675 | Sorts, numbers from one and drops the sort value |
| `RankedCache.RankingIsStable` | app/application/services/opportunity_runtime_service.py:664-675 | Ranking rearranges the rows: status 5 last, before it 3 and 4, within a class by descending rank value (0 if absent), equal rows in their order |
| `RankedCache.Cache.SyncHash` | app/infrastructure/cache/redis_runtime_support.py:85-123 | Whatever the key held before, it then holds exactly the named fields |
| `RankedCache.NamedAre` | app/infrastructure/cache/redis_runtime_support.py:85-123 | The named fields are those whose name is not all blanks |
| `RankedCache.Cache.SetPublicRows` | app/infrastructure/cache/market_runtime_cache.py:241-274 | The hash then holds the rows by key, the later of two with one key |
| `RankedCache.Cache.GetPublicRows` | app/infrastructure/cache/market_runtime_cache.py:276-345 | Reads the items in the order of rank from any enumeration of the fields |
| `RankedCache.ReadsBackIff` | app/infrastructure/cache/market_runtime_cache.py:206-345 | What is read back equals the ranked rows, in any enumeration, if and only if their keys differ |
| `RankedCache.ReadIgnoresEnumeration` | app/infrastructure/cache/market_runtime_cache.py:323-336 | What is read depends on the fields only: by rank, rows without one last, then by field name |
| `RankedCache.KeysOfRows` | app/infrastructure/cache/market_runtime_cache.py:338-345 | A row is filed under its pair key; rows without one never share a field |
| `RankedCache.RankStoreAndRead` | app/infrastructure/cache/market_runtime_cache.py:97-125 | From ranking through the store to reading, on a store that held anything before |
| `VenueSymbols.SymbolsRoundTrip` | app/application/services/market_data_monitor_service.py:1759-1781 | On all four venues reading inverts printing for every `BASE/USDT:USDT` with a clean base |
| `VenueSymbols.PrintingIsInjective` | app/application/services/market_data_monitor_service.py:1817-1829 | No two symbols are subscribed under one name |
| `Backfill.PrioritizedAre` | app/application/services/market_data_monitor_service.py:2044-2072 | The different symbols, each once: unknown first, then unusable, then usable; of two alike the one that has been so for longer, then by name |
| `Backfill.PriorityIgnoresOrder` | app/application/services/market_data_monitor_service.py:2044-2072 | The order depends on the set of symbols only |
| `Backfill.ChunkSymbols` | app/application/services/market_data_monitor_service.py:1186-1189 | Chunks concatenate to the symbols, and all but the last are full |
| `Backfill.BuildGroupSpecs` | app/application/services/market_data_monitor_service.py:1947-1998 | The tasks of a group hold its symbols once each, most urgent first, under numbered keys |
| `Backfill.BuildTaskSpecs` | app/application/services/market_data_monitor_service.py:1947-1998 | The tasks of all groups hold every symbol of every group once, and no two have the same key |
| `Backfill.TaskKeysTellApart` | app/application/services/market_data_monitor_service.py:1971-1971 | A task key tells its group and its number |
| `Backfill.Scheduler.DispatchRound` | app/application/services/market_data_monitor_service.py:1900-1945 | After a round every task of it is running and none twice; running ones are not submitted again |
| `Backfill.Scheduler.CollectCompleted` | app/application/services/market_data_monitor_service.py:2074-2105 | Exactly the finished jobs leave the record |

## Left out

- ExecutionService.Service.ProcessOrderLeg: covers the stored row; the batch worker reads its rows before its loop and can process one that an earlier one of the batch has changed, which only `StaleRows` looks at, for submissions.
- LegFills.LedgerIsExactIff: counts as executed what an order's reports say; a fill that no poll ever reports is not known to the system.
- Balancing.RunsEnd: is for transfers that arrive in full and with nothing else moving the balances meanwhile; display being exact is sufficient for a run to end, and whether another run ends is decided step by step by `Balancing.StepLowersIff`.
- Backfill.BuildTaskSpecs: takes the groups of targets as given; filing targets under exchange, market and task type is not modelled.
- LegFills.NeverOverOrders: assumes what the exchange owes the leg: an accepted order comes with an id, a retried order's polled fill is final and below its request, and an order it cancels had no fill.
- Backfill.Scheduler.DispatchRound: leaves out the counters and times of a task.
- RankedCache.Cache.SetPublicRows: is stated for rows as values; JSON encoding, expiry and the metadata beside each row are not modelled.
- PairTable.PairsAreOfTheTable: assumes exchange codes in lower case without colons, symbols and settlement assets stored without blanks around them, and no symbol twice on one exchange, as the market table's unique key demands.
- VenueSymbols.SymbolsRoundTrip: is for bases in upper case free of separators and blanks, the spelling the exchanges use.
- Text.Lower: and all other text operations are on ASCII; Unicode case and blanks beyond it are not modelled, nor is the database's case-insensitive collation.
- Amounts.Parse: reads plain decimal numerals; other spellings that `float` accepts (exponents, underscores) read as errors.
- Value columns (`requested_value_usdt`, `filled_value_usdt`), messages, timestamps and client order ids of rows.
- Rounding of stored decimals to twelve places and floating-point error.
- `net` positions written by other programs: the position lookup falls back on them as the code does, but no step here writes one.
- The user's market prices of one step are one snapshot; a price that changes between two lookups of a step is not modelled.
- Row limits of listings, except where a member takes a limit.
- Thresholds of strategies and market metrics: whether an opportunity is wanted or a pair should be closed is an input.
- Guard calls, destination write-back and failure classification inside a transfer, and the transfer itself, which is an outcome given to the worker.
- Exchange clients, HTTP, WebSocket and Redis connections, thread loops, cooldown expiry, presentation, authentication and configuration.

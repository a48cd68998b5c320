# Verified model of the crypto-trader core

This project models the deterministic core of crypto-trader in Dafny and proves what that core is for.
Prices in the book are integer keys (price * 10^8); every other price and quantity is an exact real, and
the quantity cutoff of `src/pnl.rs` is kept as it is. Check everything with `dafny verify dfyconfig.toml`.

| file | what it holds |
|---|---|
| `Types.dfy` | messages, signals, the shared atomic flag |
| `Exchange.dfy` | the ground truth: the exchange's numbered history, and what makes a diff or a snapshot genuine |
| `TopView.dfy` | the top-N view of one side of the book |
| `Orderbook.dfy` | module `OrderbookModel`: the book and its Buffering/Live synchronisation, as state functions and as class `Orderbook` |
| `BookSync.dfy` | agreement with the exchange, exact loss detection, coalescing, when one snapshot is enough |
| `Fifo.dfy` | FIFO lot matching and the paper account, as state functions and as classes |
| `Accounting.dfy` | cash and fees of every history; the accounting identity with its error bound; independence of the interleaving |
| `UnitFifo.dfy` | refinement of the lot queue to unit-by-unit FIFO; exactness and splitting on whole lots |
| `Splitting.dfy` | exactly when splitting an order matters, over exact reals with the cutoff in place |
| `Risk.dfy`, `RiskRuns.dfy` | the risk gate; its rate limit and duplicate window over whole runs |
| `Solvency.dfy` | gate and account together: cash never goes negative |
| `Strategies.dfy`, `StrategyRuns.dfy` | ping-pong and momentum; ring buffer against full history, trade spacing, ledger alignment |
| `Synthetic.dfy` | the synthetic stream and the book that follows it |
| `Backtest.dfy` | the backtester as the composition of book, strategy, gate and ledger |
| `Resync.dfy` | the resync handshake as interleaved atomic steps |

Each source object that updates its fields is a class whose methods are proved equal to functions on a
value state (`OnUpdate`, `OnSnapshot`, `Match`, `Check`, `MomentumStep`, `Process`, `Dispatch`); the
lemmas are about those functions and about whole runs of them. What a gate, a strategy or a backtest does
over a run is also stated without these functions, from its inputs and earlier outputs alone
(`AnswerIsExact`, `MomentumIsExact`, `PingPongIsExact`, `FillsAreApprovedOrders`, `CashAndFeesAddUp`).

What the model shows about the code, beyond the properties that hold outright:

- A snapshot makes a later in-order, lossless stream gap-free exactly when it *meets* the stream. On a
  stream whose event ids have holes (U > pu + 1) a snapshot can fall into a hole: then no buffered event
  spans it, all of them are dropped and the next event is a gap. On a dense stream the condition is
  `s >= U_first - 1` (`OneSnapshotSufficesExactly`, `OneSnapshotSuffices`).
- Merging two adjacent diff events is harmless on a live book that is not behind them, but not always in
  a buffer: if their ids leave a hole (e1 over (4, 5], e2 over (5, 8] with U = 8) and the snapshot falls
  into it (at 6), the two are dropped while the merged event is applied (`MergeAcrossIdHole`). Nor is it
  on a live book behind them: both find the gap, but only the second half survives in the buffer, and a
  later snapshot makes the difference (`GapSeparatesHalves`). `CoalescingOverRuns` gives the exact condition
  over whole runs; where U of the merged event is e1's U and e2's U is e1's u + 1, it is that the book is
  buffering or not behind.
- The accounting identity has a real error, exactly the dust dropped plus proceeds too small to be
  credited (`ErrorIsSumOfLosses`). It is zero exactly when no sell ends inside a lot that had cost something
  and within the cutoff of its end, or behind lots that hold no more than the cutoff (`IdentityIsExactIff`).
- Splitting an order changes nothing on whole lots. Below the cutoff, or within the cutoff of the end of a
  lot, it can; `SplitSellIsExact` and `SplitBuyIsInvisibleIff` say when, for all quantities.
- The 0.1% headroom covers exactly the fees up to 0.1% (`SolvencyIsExact`).
- `docs/operations.md` says the watchdog leads to a reconnect and resync. In the code its `Reconnect`
  message only resets the book: on a settled system nobody asks for a snapshot afterwards and, until the
  connection itself drops, the book never settles live again. A failing first fetch has the same effect.
  A system is *doomed* when nobody is fetching and nothing queued will raise the flag or leave the book
  live. `DoomedIffNeverSettles` proves that this is exactly the loss of the resync, `StepDoomsExactly`
  says which steps doom a system and when -- a queued gap, for one, saves it from the watchdog -- and
  `WatchdogDoomsSettledSystem` and `FailedFirstFetchDooms` show that both steps do it in real runs.

Supporting lemmas worth a look that have no row below: `UpdateOutcomeByRange` (the three outcomes of a
diff by its range), `EntryStaysWithinBudget`, `PingPongBuyFitsBudget`, `PingPongSellIsEdgeOrStop`,
`MomentumClosesOnFirstReason`, `BuyMeansBothGatesPassed` (one step each of the strategies),
`RejectionKeepsWindow` and `SplittingBelowCutoffMatters`.

## Model

| member | source | states |
|---|---|---|
| OrderbookModel.Orderbook.constructor | src/orderbook.rs:24-32 | a new book is empty and buffering |
| OrderbookModel.Orderbook.Reset | src/orderbook.rs:34-39 | a reset book is empty and buffers nothing |
| OrderbookModel.Orderbook.ApplyLevels | src/orderbook.rs:41-62 | applying a diff in place updates each side as the level-by-level function does; its meaning per key is LastMentionDecides and UnmentionedIsKept |
| OrderbookModel.Orderbook.LoadSnapshot | src/orderbook.rs:81-97 | loading replaces both sides by the positive levels of the snapshot |
| OrderbookModel.Orderbook.FirstValid | src/orderbook.rs:77-79 | the first buffered event whose range spans S + 1, or none when there is none |
| OrderbookModel.Orderbook.HandleSnapshot | src/orderbook.rs:65-134 | always ends live; book and id are those of the snapshot with its buffered replay (OnSnapshot) |
| OrderbookModel.Orderbook.HandleUpdate | src/orderbook.rs:138-183 | buffers, skips, applies or resets as OnUpdate says; raises the resync flag exactly on a gap and never lowers it |
| OrderbookModel.Orderbook.Snapshot | src/orderbook.rs:190-212 | each side shows min(N, size) levels of the book, every one with its own price and the quantity the book holds there, in strict order, best first, each better than every omitted one |
| BookSync.LastMentionDecides | src/orderbook.rs:41-62 | the last level that mentions a key decides it: zero removes, anything else is the new quantity |
| BookSync.UnmentionedIsKept | src/orderbook.rs:41-62 | keys that no level mentions keep their quantity |
| BookSync.LastPositiveIsLoaded | src/orderbook.rs:81-97 | of the levels of a snapshot, the last positive one of each key enters the book with its quantity |
| BookSync.OnlyPositiveIsLoaded | src/orderbook.rs:81-97 | a key without a positive level does not enter the book |
| BookSync.ReplayStopsAtFirstBreak | src/orderbook.rs:110-131 | the replay applies the longest linked run of valid events, with no pu check on the first, and nothing behind the first break |
| BookSync.DiffReachesTruth | src/orderbook.rs:41-62 | a genuine diff over (pu, u] takes the true side at any id in [pu, u] to the true side at u |
| BookSync.SnapshotAgrees | src/orderbook.rs:65-134 | a genuine snapshot makes the book live and right, whatever was buffered or live before and wherever the replay stops |
| BookSync.UpdateAgrees | src/orderbook.rs:138-183 | every genuine diff keeps the agreement with the exchange |
| BookSync.Agreement | src/orderbook.rs:65-183 | through any sequence of genuine diffs, snapshots and resets -- lost, duplicated, reordered, overlapping -- a live book equals the exchange's book at its id |
| BookSync.ReplicasConverge | src/orderbook.rs:65-183 | two books live at the same id are equal whatever each received |
| BookSync.LiveRun | src/orderbook.rs:146-181 | a live book raises the flag iff some event starts beyond all that was covered; otherwise it ends at the highest covered id, else it is empty and has buffered exactly the events behind the gap |
| BookSync.LossIsDetectedExactly | src/orderbook.rs:146-181 | fed any part of the in-order stream, the flag is raised iff an event is missing whose changes the book did not have: no undetected loss and no false alarm |
| BookSync.CoalescingChangesNothing | src/orderbook.rs:146-180 | on a live book, replacing two adjacent genuine events of a diff stream by one over both ranges changes neither gap detection nor the gap-free result |
| BookSync.CoalescingInReplayIsExact | src/orderbook.rs:76-131 | in a buffer, merging two adjacent events changes no replay, whatever else is buffered, iff the merged event spans S + 1 exactly when one of its halves does |
| BookSync.SameSpanEverywhere | src/orderbook.rs:76-79 | that holds at every snapshot iff the merged U is e1's U and e2's U is e1's u + 1 |
| BookSync.CoalescingOverRuns | src/orderbook.rs:65-183 | merging two adjacent events as they arrive leads to the same live book through all later genuine diffs, snapshots and resets iff the book is live and not behind them, or buffering with spans that agree wherever no earlier buffered event spans; without a hole of ids, iff it is buffering or not behind |
| BookSync.GapSeparatesHalves | src/orderbook.rs:65-175 | on every live book behind them there is a genuine later snapshot after which the merged run is live at e2's U - 1 and the split run at e2's u |
| BookSync.MergeAcrossIdHole | src/orderbook.rs:76-108 | a concrete buffer and snapshot for which merging across a hole of ids changes the live id from 6 to 8 |
| BookSync.CoveredEventChangesNothing | src/orderbook.rs:149-156 | inserting an already covered event anywhere into a gap-free run changes nothing |
| BookSync.OneSnapshotSufficesExactly | src/orderbook.rs:76-181 | after one snapshot, no later event of an in-order lossless stream ever resets the book iff the snapshot meets the stream |
| BookSync.DenseStreamIsMet | src/orderbook.rs:76-79 | on a dense stream meeting it means s + 1 >= U of the first event, before, inside or after the buffered part |
| BookSync.OneSnapshotSuffices | src/orderbook.rs:76-181 | on a dense stream a snapshot with s >= U_first - 1 is enough, and an older one never is |
| BookSync.StrategySeesTrueViews | src/main.rs:101-114 | every view a strategy is shown lists the exchange's own best levels, prices and quantities, as of the diff that was just applied, through any mix of inputs |
| BookSync.LiveViewIsUncrossed | src/orderbook.rs:190-212 | a live view leads with the exchange's true best prices, and best bid is below best ask when the exchange is uncrossed |
| TopView.TakeBest | src/orderbook.rs:196-204 | walking the keys in order and taking N gives the N best levels in strict order, none beaten by an omitted one |
| TopView.TopLevelsIsTopView | src/orderbook.rs:196-204 | so does the recursive view that the run lemmas use |
| TopView.TopViewIsUnique | src/orderbook.rs:196-204 | that description determines the view completely |
| TopView.BestIsShownOneWay | src/orderbook.rs:196-210 | a list of quotes shows the best levels of a side, in prices and quantities, iff it is the one the view is made of |
| Fifo.FifoPnl.OnBuy | src/pnl.rs:26-29 | appends one lot and adds its notional |
| Fifo.FifoPnl.OnSell | src/pnl.rs:33-50 | the matching loop leaves the queue, profit and matched quantity of the recursive matching Match |
| Fifo.PaperAccount.OnBuy | src/pnl.rs:122-128 | cash pays notional and fee; the lot enters the ledger |
| Fifo.PaperAccount.OnSell | src/pnl.rs:132-141 | cash is credited, less the fee, only for a quantity that was matched above the cutoff |
| Accounting.SellConserves | src/pnl.rs:33-50 | a sell takes out of the cost basis its proceeds less its profit, plus the dust it drops |
| Accounting.SellQuantities | src/pnl.rs:33-50 | a sell matches at most what it asks for and drops at most one epsilon of the position |
| Accounting.DustIsBounded | src/pnl.rs:42-44 | one sell drops at most one lot with something left of it, worth at most one epsilon at the highest entry price |
| Accounting.BuyNotionalIsTotal | src/pnl.rs:26-29 | the return denominator counts every buy of the history once and is untouched by sells |
| Accounting.CashAndFeesAddUp | src/pnl.rs:122-141 | for every history, fees are the fee rate on the notional of all buys plus the proceeds of all sells matched above the cutoff, and cash is initial less those buys plus those proceeds less the fees |
| Accounting.AccountingIdentity | src/pnl.rs:122-167 | at every mark price, or without one, equity = initial + realized + unrealized - fees - error, with 0 <= error <= sells * epsilon * (top buy price + top sell price) |
| Accounting.ErrorIsSumOfLosses | src/pnl.rs:33-50 | for every history the error is exactly the dust dropped plus the proceeds of sells matched below the cutoff, which are not credited |
| Accounting.IdentityIsExactIff | src/pnl.rs:122-167 | the identity is exact iff no sell of the history ends where LosesValue says: a condition on its quantity, the lot boundaries and which prices are zero |
| Accounting.LossIsZeroIff | src/pnl.rs:33-141 | one sell loses value iff it ends inside a lot of some cost, past its start by more than the cutoff and before its end by at most that, or, sold at a price, stops behind lots that hold something but no more than the cutoff |
| Accounting.DustCostsEquity | src/pnl.rs:42-44 | a concrete sell for which the error is not zero |
| Accounting.CoveredSellIgnoresLaterBuys | src/pnl.rs:33-50 | a sell covered by the position, up to the cutoff, matches the same lots whatever is bought after them |
| Accounting.InterleavingDoesNotMatter | src/pnl.rs:26-50 | if no sell exceeds the open position, the whole ledger depends only on the buy sequence and the sell sequence |
| UnitFifo.LotsRefineUnits | src/pnl.rs:26-50 | for whole-lot quantities the queue flattens to the bought units minus the first M, and realized profit is the sum over k < M of k-th sold less k-th bought unit |
| UnitFifo.EachSellMatchesWhatItCan | src/pnl.rs:31-50 | each sell matches exactly min(quantity, position) |
| UnitFifo.IdentityIsExactOnWholeLots | src/pnl.rs:122-167 | on whole lots the accounting identity has no error at all |
| UnitFifo.SplittingChangesNothing | src/pnl.rs:26-50 | on whole-lot histories, splitting a buy or a sell into same-price parts changes neither profit nor open units |
| Splitting.CleanSplitIsHarmless | src/pnl.rs:33-50 | a first part that ends on a lot boundary, or inside a lot but not within the cutoff of its ends, and a second above the cutoff sell exactly what their sum does |
| Splitting.CleanIffItEndsWell | src/pnl.rs:33-50 | ending there is exactly being matched in full without dropping dust |
| Splitting.SplitSellIsExact | src/pnl.rs:33-50 | for all lots and quantities, at any price: selling a + b and selling a and then b leave the same queue, profit and unmatched quantity iff Harmless, a condition on quantities against the cutoff and, where dust of two lots cancels, on their costs |
| Splitting.QuantityIsConserved | src/pnl.rs:33-50 | a sell takes out of the position exactly what it matches and the dust it drops |
| Splitting.DustMayCancel | src/pnl.rs:42-44 | a concrete sell whose first part drops dust and whose split is harmless all the same, by equal dust of another lot at the same price |
| Splitting.SplitBuyIsInvisibleIff | src/pnl.rs:26-50 | a later sell takes the same profit and quantity and leaves the same position from a split buy iff it ends farther than the cutoff from the boundary of the parts, or exactly there with the second part above the cutoff |
| Splitting.SplitBuyChangesNothing | src/pnl.rs:26-50 | after any history whose sells all clear the boundary, profit and position do not depend on the split |
| Risk.RiskChecker.CheckOrder | src/risk.rs:84-188 | the gate in place: first failing condition in source order, pruned timestamps, updated id window |
| Risk.ScreenIsExact | src/risk.rs:85-143 | an order passes the order conditions iff it breaks none: not halted, quantity within the limit, a buy above the floor and covered with 0.1% headroom, price within the band around mid; otherwise the first one broken is reported with the quantities it compares |
| RiskRuns.ApprovalsAreSpaced | src/risk.rs:145-182 | in every run with a clock that never goes back, approvals i and i + max are at least one second apart, and at most max timestamps are kept |
| RiskRuns.RateLimitHolds | src/risk.rs:145-182 | a closed interval of length T holds at most max * (floor(T) + 1) approvals |
| RiskRuns.RateGateIsExact | src/risk.rs:145-167 | an order that passes the other conditions fails on the rate limit iff the max-th last approval of the whole run is less than a second ago |
| RiskRuns.AnswerIsExact | src/risk.rs:84-188 | in every run an order is approved -- that very order, under the fresh id -- iff it breaks no order condition, max > 0 and the max-th last approval is absent or a second old, and the id is not among the last 10,000 approved; otherwise which error it gets and what the gate remembers |
| RiskRuns.DuplicateWindowHolds | src/risk.rs:169-181 | the id set equals the queue, which holds the last 10,000 approved ids without duplicates; equal ids are more than 10,000 approvals apart |
| Solvency.CashNeverGoesNegative | src/risk.rs:109-130 | with check-then-fill on the account's own cash and a fee of at most 0.1%, cash is non-negative in every reachable state |
| Solvency.DeskTradesApprovedOrders | src/execution.rs:112-130 | the account of such a run is the one that trades the approved orders and no others |
| Solvency.HigherFeesBreakSolvency | src/risk.rs:124-129 | for every higher fee a concrete approved order leaves cash negative |
| Solvency.SolvencyIsExact | src/risk.rs:109-130 | a fee keeps cash non-negative for every starting capital and every run of orders iff it is at most 0.1% |
| Strategies.PingPong.OnOrderbook | src/strategy/ping_pong.rs:70-100 | one call updates the position and signals as PingPongStep says |
| Strategies.MomentumScalp.PushPrice | src/strategy/momentum_scalp.rs:91-97 | the ring keeps agreeing with the last 64 entries of the full price history |
| Strategies.MomentumScalp.LookbackPrice | src/strategy/momentum_scalp.rs:100-106 | after n pushes it is history[n - 1 - L] iff n > L |
| Strategies.MomentumScalp.OnOrderbook | src/strategy/momentum_scalp.rs:129-184 | the ring-buffer strategy decides exactly as the strategy over the full history; its tick counter never wraps |
| StrategyRuns.EveryBuyFollowsTrueMomentum | src/strategy/momentum_scalp.rs:158-183 | in every run each buy means the mid price has truly grown by the threshold over the last L of all mid prices seen, the bids hold at least the configured share of the quantity of the five best levels, and the buy pays the best ask within quantity and budget |
| StrategyRuns.MomentumIsExact | src/strategy/momentum_scalp.rs:128-185 | every signal of every run over ticks is determined by the signals and prices before it: an open position is sold on the first tick with a reason to; otherwise, more than cooldown ticks after the last sell, it buys the most that fits on every tick with momentum, skew and room for one step, and on no other |
| StrategyRuns.PingPongIsExact | src/strategy/ping_pong.rs:70-100 | the same for ping-pong: flat it buys the most that fits at the best bid, holding it sells at the best ask on the first view with the edge, else at the best bid on the first with the stop |
| StrategyRuns.EntryIsLargestFit | src/strategy/momentum_scalp.rs:108-116 | the entry quantity is the largest number of steps within quantity and budget, positive iff one step fits |
| StrategyRuns.RunMomentum | src/strategy/momentum_scalp.rs:128-185 | the ring-buffer object, called on each view in turn, gives the signals and final state of the full-history run |
| StrategyRuns.OneSidedViewsLeaveNoTrace | src/strategy/momentum_scalp.rs:130-133 | views with an empty side change neither trades nor final state |
| StrategyRuns.BuysAreSpaced | src/strategy/momentum_scalp.rs:137-156 | successive buys are at least cooldown + 2 ticks apart |
| StrategyRuns.EveryBuyIsClosed | src/strategy/momentum_scalp.rs:137-151 | every buy followed by enough ticks is closed within max(1, max_hold_ticks) ticks |
| StrategyRuns.BuysAreRationed | src/strategy/momentum_scalp.rs:137-183 | n ticks yield at most n / (cooldown + 2) buys, rounded up |
| StrategyRuns.PingPongAlternates | src/strategy/ping_pong.rs:76-99 | buys and sells alternate, each sell selling exactly the quantity last bought |
| StrategyRuns.MomentumAlternates | src/strategy/momentum_scalp.rs:137-183 | the same for the momentum strategy |
| StrategyRuns.LedgerFollowsSignals | src/pnl.rs:26-50 | filling alternating signals keeps at most one open lot, and realized profit is the sum over completed round trips |
| StrategyRuns.PingPongAndLedgerAgree | src/strategy/ping_pong.rs:76-99 | after any accepting run the ledger's position is the strategy's |
| StrategyRuns.MomentumAndLedgerAgree | src/strategy/momentum_scalp.rs:137-183 | the same for the momentum strategy |
| Synthetic.GenerateSyntheticData | src/backtest/data_loader.rs:34-127 | the loops produce the snapshot and the n events of the random walk |
| Synthetic.EventIsDrawn | src/backtest/data_loader.rs:72-124 | event k has its time and ids, moves mid by draw 5k + 6 rounded to whole dollars, and ends each side with two quotes around the new mid with the quantities of draws 5k + 7 to 5k + 10 |
| Synthetic.SnapshotIsDrawn | src/backtest/data_loader.rs:47-70 | the snapshot quotes five levels per side, 10 apart, level i with the quantity of draw i + 1 on both |
| Synthetic.GeneratorIsInvertible | src/backtest/data_loader.rs:38-45 | every state of the 64-bit generator can be wound back to the one before |
| Synthetic.DrawIsTopBits | src/backtest/data_loader.rs:38-45 | a draw is the top 31 bits of the state as a fraction |
| Synthetic.RequotingReplacesQuotes | src/backtest/data_loader.rs:79-101 | a delete-then-requote diff takes a side that holds exactly the old prices to exactly the new ones |
| Synthetic.BookTracksWalk | src/backtest/data_loader.rs:72-124 | for every k, event k is accepted and the book holds exactly the last quotes at id 1000 + k |
| Synthetic.WalkIsBounded | src/backtest/data_loader.rs:73-77 | after k events mid is within 10 k of the start, so 6498 events cannot make a quoted price negative |
| Synthetic.SyntheticViewIsExact | src/backtest/data_loader.rs:72-124 | the view after event k is mid - 10, mid - 20 against mid + 10, mid + 20, all with positive quantity, iff no quoted price is negative |
| Backtest.Backtester.ProcessEvent | src/backtest/mod.rs:61-101 | one event through book, strategy and gate |
| Backtest.Backtester.Run | src/backtest/mod.rs:53-127 | the whole run: final book, strategy and gate, and the result of the replayed fills |
| Backtest.StrategyPlaysItsViews | src/backtest/mod.rs:63-97 | whatever the gate rejects, book and strategy evolve as if it were not there |
| Backtest.FillsAreApprovedOrders | src/backtest/mod.rs:61-97 | for every run, accepting or not, the fills are in order exactly the orders the gate approves, one per applied event whose signal is no Hold and whose check approves, with its side, price, quantity and event time |
| Backtest.FillsAreCounted | src/backtest/mod.rs:72-94 | a run with a new gate has as many fills as the gate's own run over its orders has approvals |
| Backtest.HaltedRunFillsNothing | src/risk.rs:90-93 | with the kill switch on a run fills nothing |
| Backtest.NoSnapshotNoFills | src/backtest/mod.rs:53-67 | without a snapshot a run on a new book shows its strategy nothing and fills nothing |
| Backtest.SummaryIsExact | src/backtest/mod.rs:103-126 | the result holds the fills, their number per side, their total quantity, and the profit of a FIFO ledger that trades them in order |
| Backtest.AcceptedRunFillsSignals | src/backtest/mod.rs:61-113 | if the gate accepts every signal, the replayed ledger is the one that fills every signal |
| Backtest.PingPongBacktestCountsRoundTrips | src/backtest/mod.rs:53-127 | an accepting ping-pong backtest reports the sum over its round trips |
| Backtest.MomentumBacktestCountsRoundTrips | src/backtest/mod.rs:53-127 | the same for the momentum strategy |
| Backtest.SyntheticStreamShowsEveryEvent | src/backtest/mod.rs:61-67 | on a synthetic stream of any length the strategy is called exactly once per event, with the book after it |
| Resync.BookThread.HandleMessage | src/main.rs:99-173 | one turn of the dispatch loop does to book and flag what Dispatch says |
| Resync.Poller.Poll | src/ingestion.rs:111 | a poll makes of poller and flag what the protocol step Claim says: a raised flag is claimed and lowered at once |
| Resync.Poller.Finish | src/ingestion.rs:115-125 | a finished fetch does what the protocol step Report says: success sends one snapshot, failure raises the flag again |
| Resync.EveryScheduleIsARun | src/main.rs:93-173 | whatever the tasks do at the same time, the book receives exactly the messages sent, in order, each once: its state is that of the run over those consumed so far |
| Resync.RequestsAreClaimedOnce | src/ingestion.rs:86-130 | in every interleaving each raise of the flag is claimed by exactly one poll, withdrawn by one first fetch, or still pending; nothing else is claimed |
| Resync.StepDoomsExactly | src/ingestion.rs:86-130 | a step dooms a system exactly when the watchdog fires, or a first fetch fails, with nobody else fetching, the connection up, and nothing queued that raises the flag (or, for the fetch, ends live) |
| Resync.DoomIsPermanent | src/main.rs:163-173 | a doomed system stays doomed under every schedule that keeps the connection |
| Resync.LostForever | src/main.rs:163-173 | a doomed system that has consumed its queue never shows a live book again, under any schedule, until the connection drops |
| Resync.DoomedIffNeverSettles | src/ingestion.rs:100-130 | a system is doomed iff no schedule that keeps the connection ever reaches a live book with everything queued consumed |
| Resync.UndoomedSettles | src/ingestion.rs:100-130 | every other system settles within queue length + 4 steps and one successful fetch of any snapshot |
| Resync.ResyncIsNeverLost | src/ingestion.rs:70-197 | in every interleaving in which the watchdog does not fire and no first fetch fails, the system is not doomed: always live, or flag up, or somebody fetching or connecting, or a snapshot queued |
| Resync.ReachableStateRecovers | src/ingestion.rs:70-197 | every reachable state that no step has doomed settles by such a schedule |
| Resync.WatchdogDoomsSettledSystem | src/watchdog.rs:37-39 | the ordinary start-up settles with a live book, and from there the watchdog dooms the system |
| Resync.FailedFirstFetchDooms | src/ingestion.rs:94-96 | a failed first fetch dooms the system |
| Resync.PipelineAgreement | src/main.rs:93-173 | in every interleaving in which the exchange tells the truth, a live book is the true book at its id |

## Left out

- Floating-point rounding, NaN, parsing of level strings and the truncation in `price_to_key`: keys are integers, quantities exact reals; a level that fails to parse is not modelled.
- Update ids near the 64-bit limit: `s + 1` does not wrap in the model.
- Truncation of the REST snapshot to 1000 levels: a genuine snapshot lists the whole book.
- Synthetic.GenerateSyntheticData: prices are whole dollars, and formatting a quantity with four decimals rounds halves up; how the formatter breaks exact ties is not modelled, and no result depends on it.
- Strategies as trait objects: a strategy is a state with a step function; `NoOpStrategy` has no row because it only holds.
- Solvency.CashNeverGoesNegative: each approved order is filled before the next check; several orders in flight with a stale mirrored balance are not modelled.
- Backtest.AcceptedRunFillsSignals: claimed for accepting runs only, since strategies are not told of rejections.
- Resync.ResyncIsNeverLost: sends on the bounded channel do not block, and cancellation is not modelled.
- WebSocket and HTTP traffic, serialization, configuration, logging, the HALT-file poller (its flag is an input of each check), the executor's log file and statistics, the dashboard and its server.
- Average entry price, percentage returns and plain getters: single expressions over quantities that are modelled.

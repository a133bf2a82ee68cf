# CryptoShloma: the Hanukkah averaging engine, modelled and proved

CryptoShloma trades a pair by steps. Each pair has a table of (drop, rebound) rows. The bot buys at the zero step,
offers what it holds at a profit, and when the price falls below the next row waits for a rebound and buys again,
doubling the position. This project models that engine, the arithmetic behind its orders, the guard against two orders
in flight, and the storages it reads, and proves what they keep over whole runs.

| file | what it holds |
|---|---|
| `Exchange.dfy`, `Lists.dfy` | shared values; `find_if`, erase-while-iterating, sorting by time |
| `Rounding.dfy`, `OrderNormalisation.dfy` | tick, lot and min-notional rounding of an order |
| `CycleScanners.dfy`, `SellTarget.dfy` | the loops over the trade history; the sell target and what it promises |
| `TrendSearcher.dfy` | the trend formula and the timer that refreshes it |
| `StepMachine.dfy` | one tick of the engine as a function of the stored configuration |
| `StepRuns.dfy` | every run of the engine, against an environment that may report anything |
| `StepDecisions.dfy` | exactly when a tick orders, credits, skips, offers, cancels or waits |
| `Hanukkah.dfy` | the engine as objects: linked steps, rebuilt from the stored table, writing flags back into it |
| `TradingSystem.dfy` | engine and exchange together: ticks, fills, rejections, cancellations in any order |
| `TemporaryOrders.dfy` | the table of orders in flight |
| `FillFolding.dfy` | partial fills folded into trades |
| `BalancesStorage.dfy`, `OpenOrdersStorage.dfy`, `MarketOrdersStorage.dfy`, `TradeHistoryStorage.dfy` | the storages |

## How to read it

The engine appears twice. `Hanukkah.Engine` has the source's form: step objects with flags and next pointers, a cached
copy of the table, a rebuild when the stored table changes, and a save that looks its row up by value.
`StepMachine.Tick` is a function of the stored configuration alone. `Engine.ExecLogic` is proved to compute `Tick`, so
caching, pointers and rebuilding are invisible, and what is proved about runs of `Tick` holds of the objects.

`StepDecisions` says exactly when each decision is taken, with drops, rebounds, balances and prices written out, so that
the conditions are not named through the engine's own functions. `StepRuns` quantifies over arbitrary reports at every
tick: balances, books, histories, trends and open orders need not
be consistent with each other. `TradingSystem` closes the loop: the history, the holding, the buy in flight and the
open sell order are state, and its `Allowed` lists everything assumed of the exchange.

Conventions: `qreal` is an exact `real`, and fuzzy comparisons are exact. Dates are milliseconds, and the cycle start
is truncated to the second as the source stores it. One tick and the delivery of the configuration it queued
(`src/algo/hanukkah/i_step.cpp:96-100`) are one step. A table has more than two rows, drops increase, and each
rebound from row 1 on is below its drop (`StepRuns.GoodTable`); saving by value further needs distinct rows
(`Hanukkah.DistinctRows`). A flag missing from a stored row reads as false. Order prices quoted by the book are
positive and at least one tick.

Assumed of the exchange in `TradingSystem.Allowed`: orders fill fully or not at all; a second buy is accepted only when
none is in flight, which `TemporaryOrders` proves of the guard; commission is not taken from the bought coins; no
deposits or withdrawals happen inside a run; trades are a second apart. A tick may come at any time, and it sees the
current trade history, total balance and open sell order. What it sees as available may be anything up to the total,
since the release of a cancelled order's coins is reported separately from the cancellation
(`src/api/binance_api.cpp:545-559`, `src/api/binance_api.cpp:1108-1124`). Cancelling a sell order is a request, and
until it is answered the order can still fill.

Two things can go wrong in a cycle, and the state records both: the zero step may close while its own buy is still in
flight (`overlap`), and a sale may land after its cancellation was requested (`late`). A cycle without either is called
regular. The bounds on fills and the promise of an open sell order need only the first not to have happened; exposure,
crediting and the end of a sold cycle need a regular one. Fresh starts from which these go wrong are run event by event:
`OverlapBreaksBounds` (bounds on fills and holding), `OfferOutgrown` (a live offer that no longer covers the holding),
`LateSaleReached` (a buying step with nothing held), `LockedEnds` (a cycle ended with everything held) and
`OldBuyBlocks` (a filled buy that no tick in range credits).

## Results about the code that differ from what one would expect

- The configured maximum of steps is respected on every run exactly when it is at least 2 (`MaximumRespectedIff`). The
  scheduler compares with `<=`, and the fall out of the zero step is not checked, so a maximum of 1 allows a second
  credited purchase and a maximum of 0 the first. The repository's README speaks of the maximum number of additional
  purchases; the code counts the first one too.
- The min-notional correction rounds down to whole lots again, so the corrected order can stay below the minimum. It
  clears it exactly when some whole number of lots costs more than the minimum and at most the minimum plus the fee
  (`FixupClearsMinimumIff`, `FixupCanFail`).
- Saving a step's flags by value reaches its own row exactly when no earlier row has the same percentages
  (`SavedReachesOwnRowIff`).
- The zero step closes on value and newest trade alone, so it can close on an old buy while its own order is in flight.
  The bounds on fills hold in every continuation of the cycle exactly when no buy is in flight at the close
  (`BoundsHoldIff`); otherwise the fill always breaks them, and the doubling bound holds after it exactly when the
  filled volume lies between the holding at the close and one lot more (`OverlapCounts`, `OverlapBreaksBounds`). An
  offer made before that fill stays live and no longer covers the holding (`OfferOutgrown`). The weaker bounds of
  `FillAccounting` hold in every cycle.
- The end of a cycle compares what is available, not what is held, with the exchange's minimum. A tick between the
  cancellation of the sell order and the release of its coins ends the cycle with everything still held
  (`CycleEndsIff`, `EndsWhileHeld`, `LockedEnds`).
- A sale that lands after its step was closed leaves the next step waiting to buy with nothing held. With nothing to
  sell the cycle ends exactly when the active step is not one that buys (`EmptyUnlocksIff`), and otherwise it never
  ends, whatever the trend does, as long as nothing is held (`StrandedForever`, `LateSaleReached`). If something is
  bought after all, the count of credited buys exceeds the fills still counted (`LateSaleLosesCount`).
- The previous-volume scan ignores the cycle start. It reads the cycle exactly when no buy since the last sell
  predates it (`PrevVolumeReadsCycleIff`), and such a buy can keep a filled purchase from ever being credited or
  followed by another (`CreditedIff`, `OldBuyBlocks`).
- A folded trade carries the fee of its first fill only, so its recorded cost is complete exactly when the order
  filled in one piece (`FeeIsWholeIff`).
- The in-flight table does not compare sides when it erases by terms (`EraseRemovesOwnIff`): a report whose id it does
  not know yet can erase the opposite order (`WrongSideErased`).
- A batch of open orders replaces the orders it reports whatever their time stamps, unless the stored order is under a
  market the batch does not name (`ReportedOrder`, `ReportedOnce`).
- One pair without history, cycle start or book stops the trend timer for every pair after it (`StaleAfterLeaving`). A
  sale that finds the trend at zero leaves the old minimum to the next cycle (`MinimumSurvivesIff`,
  `OldMinimumSurvives`).

## Model

| member | source | states |
|---|---|---|
| Hanukkah.Engine.ExecLogic | src/algo/hanukkah.cpp:95-122 | a tick of the object engine, with its cached table, rebuilds, pointers and save by value, changes the stored configuration exactly as `Tick` does, from any session or none, and leaves the live steps linked and equal to the stored rows |
| Hanukkah.Engine.UnlockAllSteps | src/algo/hanukkah.cpp:22-43 | live flags and stored rows are opened together, counter and cycle start cleared |
| Hanukkah.Engine.Refresh | src/algo/hanukkah.cpp:101-109 | creating a session or updating it brings the live steps in step with the stored table |
| Hanukkah.StepGenerator.Update | src/algo/hanukkah.cpp:149-161 | a changed table rebuilds steps that show it, linked in order despite the left-over head; an unchanged one touches nothing |
| Hanukkah.StepGenerator.Setup | src/algo/hanukkah.cpp:163-177 | one fresh step per row, zero step first, links in table order |
| Hanukkah.StepStack.InsertBack | src/boilerplate/singly_linked_stack.h:52-62 | element i links to element i+1 and the last to nothing, also when the head is a left-over |
| Hanukkah.StepStack.Clear | src/algo/hanukkah.cpp:153-156 | clearing the vector keeps the head, and the list stays well linked |
| Hanukkah.Step.ExecuteBuyLogic | src/algo/hanukkah/step.cpp:136-242 | the buy logic of a step, from its own flags and next pointer, takes the decision of the specification and saves the matching flags |
| Hanukkah.Step.CloseOrStart | src/algo/hanukkah/zero_step.cpp:120-209 | the zero step's buy half: close on a held position whose newest trade is a buy, otherwise order |
| Hanukkah.Step.ExecuteSellLogic | src/algo/hanukkah/step.cpp:21-117 | both sell logics against the specification |
| Hanukkah.Step.SellOrEnd | src/algo/hanukkah/zero_step.cpp:50-87 | without an open sell order: end the cycle when nothing is left, otherwise offer all at the target |
| Hanukkah.Step.UpdateMarketMetaConfig | src/algo/hanukkah/i_step.cpp:69-95 | the saved configuration: one more credited purchase and the cycle start on completion, flags written to the first row with the step's percentages |
| Hanukkah.SavedReachesOwnRowIff | src/algo/hanukkah/i_step.cpp:81-93 | saving by value reaches the step's own row if and only if no earlier row has the same percentages |
| Hanukkah.TickKeepsDistinctRows | src/algo/hanukkah/i_step.cpp:81-93 | distinct rows stay distinct |
| StepRuns.EveryRun | src/algo/hanukkah.cpp:95-122 | on every run: blocked prefix, one step open or buy-blocked, untouched rest; last step never sell-blocked; credited purchases within the cap and the rows passed |
| StepRuns.PickIsActive | src/algo/hanukkah.cpp:111-120 | each tick runs exactly one logic, the active step's |
| StepRuns.TickInv | src/algo/hanukkah/step.cpp:98-115 | a tick keeps the invariant; the active step stays, moves down by one, or the cycle restarts |
| StepRuns.MaximumRespectedIff | src/algo/hanukkah.cpp:112-112 | every run respects the configured maximum if and only if it is at least two |
| StepRuns.ShapeKeptIff | src/algo/hanukkah.cpp:112-119 | every run keeps the shape of the flags if and only if the maximum is not negative |
| StepRuns.Moves | src/algo/hanukkah/step.cpp:102-115 | the active step moves only down by one with the trend below the rebound line of the step entered, or back to zero |
| StepRuns.ReboundDiscipline | src/algo/hanukkah/step.cpp:186-194 | every averaging buy sees the trend back above its rebound line, above the next drop, and an earlier tick of the same cycle entered this step below that line |
| StepRuns.ForwardOnly | src/algo/hanukkah.cpp:111-120 | within a cycle the active step never goes back and at most two ticks per row, less one, change the table |
| StepRuns.TickLowers | src/algo/hanukkah/step.cpp:186-190 | a tick leaves the table alone, closes sides, or ends the cycle |
| StepRuns.UnlockRestoresStart | src/algo/hanukkah.cpp:22-43 | the end of a cycle restores exactly the configuration the run started from |
| StepDecisions.ZeroStepIff | src/algo/hanukkah/zero_step.cpp:120-209 | before the first purchase: closes if and only if not paused, the market is quoted, the holding is worth 95 percent of the stake and the minimum trade, and the newest trade is a buy; orders if and only if it is worth less and the stake with its fee can be paid with no buy open; the order's volume times the best price is the stake, the cycle starts at the second of the newest buy, and otherwise nothing changes |
| StepDecisions.SkipsIff | src/algo/hanukkah/step.cpp:186-191 | a step that buys is left if and only if the market is quoted and the trend is at or past the next row's drop; both its sides are closed and the step below buys |
| StepDecisions.FallPassesRows | src/algo/hanukkah/step.cpp:186-191 | in any run, n further ticks past the drop of the row n below a buying step lead exactly there, still buying, with counter and cycle start kept |
| StepDecisions.AveragingIff | src/algo/hanukkah/step.cpp:194-240 | at a buying step: orders the holding again if and only if rebounded, nothing is uncredited and the value with its fee can be paid with no buy open; credits if and only if a fill is uncredited, the holding is 95 percent of twice the earlier buys and worth the minimum trade |
| StepDecisions.OfferKeptIff | src/algo/hanukkah/zero_step.cpp:88-112 | with an open sell order: cancelled alone if and only if it is below the holding in whole lots; the step is left if and only if it is not, and the trend is below the first drop (zero step) or below the next rebound line with the maximum not reached (later steps) |
| StepDecisions.OffersIff | src/algo/hanukkah/step.cpp:46-82 | without one: the cycle ends if and only if less than a lot is held or the available part is worth less than the minimum at the target; otherwise all is offered at the target if and only if all is available |
| StepRuns.EmptyUnlocksIff | src/algo/hanukkah/step.cpp:46-70 | with less than a lot held and no open order a tick ends the cycle if and only if the active step is not one that buys |
| StepRuns.StrandedForever | src/algo/hanukkah/step.cpp:186-202 | at a step that buys, with the reported balance empty, every sequence of ticks at any trend stays in the cycle, at a step that buys, with the same counter and cycle start |
| StepRuns.StrandedStill | src/algo/hanukkah/step.cpp:186-202 | and with the trend at zero no tick changes anything |
| TradingSystem.NextInv | src/algo/hanukkah/step.cpp:186-240 | every event of engine or exchange keeps the joint invariant of flags, counters, history, holding and open orders, in every cycle and more in a regular one |
| TradingSystem.FillAccounting | src/algo/hanukkah/step.cpp:207-220 | in every cycle at most one filled buy is uncredited, none is in flight then, and at most one buy more fills than steps were passed or than the cap; unless the zero step closed with a buy in flight the extra one does not occur and no live offer stands beside a buy in flight; in a regular cycle no credited buy is lost |
| TradingSystem.BoundsHoldIff | src/algo/hanukkah/zero_step.cpp:171-187 | as the zero step closes: the sharp bounds hold in every continuation of the cycle if and only if no buy is in flight |
| TradingSystem.OverlapCounts | src/algo/hanukkah/zero_step.cpp:171-187 | with a buy in flight at the close its fill always makes two counted buys with one step passed, and the doubling bound holds then if and only if the filled volume lies between the holding at the close and one lot more |
| TradingSystem.OverlapBreaksBounds | src/algo/hanukkah/zero_step.cpp:171-187 | a run in which the zero step closes with its own buy in flight, and there the sharper bounds on fills and holding fail |
| TradingSystem.ExposureBound | src/algo/hanukkah/step.cpp:196-237 | in a regular cycle the holding after n buys is at least 2^(n-1) times the first and, without a min-notional correction, at most that plus 2^(n-1)-1 lots; the cap turns this into a bound for the whole run |
| TradingSystem.HoldingIsConserved | src/emulator.cpp:92-98 | in every state of every run the holding is what was held when the last zero step closed, plus bought, less sold since |
| TradingSystem.OpenOfferKeepsPromise | src/algo/hanukkah/step.cpp:50-82 | in every cycle whose zero step did not close with a buy in flight, a live sell order covers the holding up to a lot, and at its price the bought volume returns cost and profit up to one tick and 1e-8 a coin, and never more than cost, profit and the fee on the cost |
| TradingSystem.OfferWithdrawnIff | src/algo/hanukkah/zero_step.cpp:88-112 | such an order stands, and a tick withdraws it if and only if the balance is known and the price fell below the active step's line |
| TradingSystem.OfferOutgrown | src/algo/hanukkah/zero_step.cpp:66-87 | otherwise not: a run in which an offer is live while a buy is in flight, and after the fill still live and more than a lot short of the holding |
| TradingSystem.OrderSize | src/algo/hanukkah/zero_step.cpp:189-205 | in every run a buy on its way is for the stake at the best price, or for as much again as is held, up to the next lot; it is corrected if and only if that rounded up costs at most the minimum |
| TradingSystem.CycleEndsIff | src/algo/hanukkah/step.cpp:43-70 | a tick ends the cycle if and only if the active step sells, no order is open, the balance is known, and less than a lot is held or what is available is worth less than the minimum at the target |
| TradingSystem.EndsWhileHeld | src/algo/hanukkah/step.cpp:61-70 | in any selling state without an open order, a tick that sees nothing available ends the cycle and leaves holding and history as they are |
| TradingSystem.LockedEnds | src/algo/hanukkah/zero_step.cpp:66-75 | a run from every fresh table that ends its cycle so, with the coin still held and no sale made |
| TradingSystem.CreditedIff | src/algo/hanukkah/step.cpp:210-220 | in a regular unsold cycle a tick in range credits a filled buy if and only if the holding is worth the minimum trade and covers 95 percent of twice the earlier buys, older buys since the last sell included, and otherwise does nothing |
| TradingSystem.FilledBuyIsCredited | src/algo/hanukkah/step.cpp:210-219 | in a regular cycle that started clean every filled averaging buy is credited by the first tick in range |
| TradingSystem.NewestInRunIsCovered | src/algo/hanukkah/zero_step.cpp:175-187 | a buy filled during the run and not followed by a trade is covered by the holding, so a zero step closing on it starts clean if and only if the trade behind it is a sale or absent |
| TradingSystem.OldBuyBlocks | src/algo/hanukkah/step.cpp:119-134 | a run from nothing held and one uncounted old buy, for every fresh table and maximum of at least one, after which every tick in range neither credits the filled purchase nor buys again |
| TradingSystem.SoldThenUnlock | src/algo/hanukkah/step.cpp:63-70 | once a regular cycle is sold, the engine ends it as soon as it sees the balance, and does nothing else |
| TradingSystem.LateSaleStrands | src/algo/hanukkah/step.cpp:98-115 | a sale of the whole holding that lands after its step was closed leaves a buying step with nothing held, and no sequence of ticks ends that cycle, whatever the trend |
| TradingSystem.LateSaleLosesCount | src/algo/hanukkah/i_step.cpp:36-52 | from two credited buys on, the first fill after a sale leaves fewer counted buys than credited ones |
| TradingSystem.LateSaleReached | src/algo/hanukkah/zero_step.cpp:101-112 | such a run exists from a fresh start for every table and every maximum of at least one |
| TradingSystem.EngineRunInside | src/algo/hanukkah.cpp:95-122 | the configuration in a run of the whole system is that of an engine run, so the run theorems carry over |
| CycleScanners.CalculateAverage | src/algo/hanukkah/i_step.cpp:31-54 | the loop sums exactly the counted buys between the newest counted one and the next sell |
| CycleScanners.CalculatePrevVolume | src/algo/hanukkah/step.cpp:119-134 | the loop sums the buys behind the newest trade up to the next sell |
| CycleScanners.FindFirstSellPrice | src/algo/trend_searcher.cpp:108-128 | the loop ends with the price of the oldest counted buy |
| CycleScanners.ThreeScannersOneWindow | src/algo/hanukkah/step.cpp:119-134 | on a clean cycle the three scanners read one window: all of it, all but the newest, its oldest |
| CycleScanners.AveragePriceBetween | src/algo/hanukkah/i_step.cpp:47-53 | the average price lies between the lowest and highest counted purchase |
| CycleScanners.PrevSumIsCyclePlusUncounted | src/algo/hanukkah/step.cpp:123-130 | behind a counted newest buy, the sum the previous-volume scan floors is the rest of the cycle plus the buys since the last sell that predate it |
| CycleScanners.PrevVolumeReadsCycleIff | src/algo/hanukkah/step.cpp:123-130 | that sum is the cycle without its newest buy if and only if no buy behind the newest, up to the next sell, predates the cycle start |
| SellTarget.TargetIsLargest | src/algo/hanukkah/i_step.cpp:56-61 | the target is the largest price with eight decimals at which the volume returns no more than cost, profit on it and fee on it |
| SellTarget.OfferedPrice | src/api/binance_api.cpp:888-888 | after the price tick the proceeds are within a tick and 1e-8 a coin below that sum, and never above it |
| SellTarget.SellKeepsPromise | src/algo/hanukkah/i_step.cpp:56-61 | selling at the floored, tick-rounded target nets more than c(p(1-f)-f²) less one tick and 1e-8 a coin |
| SellTarget.AveragingDown | src/algo/hanukkah/i_step.cpp:31-61 | prepending a counted buy lowers or keeps the exact target if and only if its all-in unit cost is at most the cycle's, and then the floored target does not rise |
| SellTarget.AveragingDownByPrice | src/algo/hanukkah/i_step.cpp:31-61 | with fees a fixed part of each trade, a buy at or below the cycle's volume-weighted average price never raises the target |
| OrderNormalisation.NormaliseOrder | src/api/binance_api.cpp:884-900 | the reassigned locals compute the normalised ticket |
| OrderNormalisation.OrderSent | src/api/binance_api.cpp:884-900 | every order from the wish alone: a sale is never corrected; a buy is sent rounded up if that costs more than the minimum, and otherwise for the minimum plus fee less at most a lot |
| OrderNormalisation.EveryBuyClears | src/api/binance_api.cpp:892-899 | when one lot costs at most the fee on the minimum, every buy clears the minimum |
| OrderNormalisation.OnGrid | src/api/binance_api.cpp:888-890 | price and volume are multiples of tick and lot, within one unit, down for price and sell volume, up for buy volume |
| OrderNormalisation.BuyNeverShrinks | src/api/binance_api.cpp:892-899 | the min-notional correction never goes below the wish rounded up to lots |
| OrderNormalisation.FixupBase | src/api/binance_api.cpp:895-898 | the corrected order is the whole lots the corrected base pays for, short of it by less than one lot |
| OrderNormalisation.FixupClearsMinimumIff | src/api/binance_api.cpp:892-899 | the corrected order clears the minimum if and only if a whole number of lots fits between the minimum and the minimum plus fee |
| OrderNormalisation.FixupClearsMinimum | src/api/binance_api.cpp:892-899 | it does whenever one lot costs at most the fee on the minimum |
| OrderNormalisation.FixupCanFail | src/api/binance_api.cpp:892-899 | a concrete pair for which it does not |
| Rounding.RoundTruncate | src/common/utils.h:46-51 | whole steps towards zero: within one step of the value, not above a non-negative and not below a negative one |
| Rounding.RoundCeil | src/common/utils.h:37-44 | whole steps, not below the value and less than one step above it |
| TrendSearcher.CalcPercIsChange | src/algo/trend_searcher.cpp:86-106 | all cases are one formula, the change relative to the size of the first price |
| TrendSearcher.DropIsPrice | src/algo/trend_searcher.cpp:86-106 | a drop of d percent is reached exactly when the best sell price is at most the first price less d percent |
| TrendSearcher.Searcher.TimerEvent | src/algo/trend_searcher.cpp:16-68 | the loop refreshes pairs in order until one makes it leave |
| TrendSearcher.StaleAfterLeaving | src/algo/trend_searcher.cpp:24-39 | a pair is refreshed exactly when every pair up to it has a history and, after a buy, a cycle start and a sell side of the book |
| TrendSearcher.TrendIsDrop | src/algo/trend_searcher.cpp:24-63 | a refreshed trend is zero after a sale, and otherwise at or below minus d percent exactly when the best sell price is at or below the oldest counted purchase less d percent |
| TrendSearcher.MinimumBoundsTrend | src/algo/trend_searcher.cpp:46-54 | over every run the stored minimum is at most the trend and at most zero |
| TrendSearcher.MinimumSurvivesIff | src/algo/trend_searcher.cpp:46-63 | over every run the minimum is negative if and only if some fall was followed only by sales that found the trend at zero |
| TrendSearcher.OldMinimumSurvives | src/algo/trend_searcher.cpp:56-63 | a run in which a sale leaves a minimum of minus fifty percent |
| TemporaryOrders.TemporaryOrdersTable.SubmitOrder | src/api/temporary_orders_table.cpp:94-125 | a submit is accepted if and only if its market and side have no record, and then appended |
| TemporaryOrders.TemporaryOrdersTable.UpdatePlaceOrder | src/api/temporary_orders_table.cpp:10-39 | the first record with the order's terms gets id and time |
| TemporaryOrders.TemporaryOrdersTable.UpdateEraseOrder | src/api/temporary_orders_table.cpp:41-79 | one record goes: by a known id, otherwise by terms |
| TemporaryOrders.TemporaryOrdersTable.UpdateEraseOrderById | src/api/temporary_orders_table.cpp:81-92 | the first record with the id goes |
| TemporaryOrders.MutualExclusion | src/api/temporary_orders_table.cpp:94-125 | under any interleaving at most one record per market and side |
| TemporaryOrders.PlaceReachesOwnIff | src/api/temporary_orders_table.cpp:12-29 | a placement gives id and time to the order's own record and to nothing else if and only if no earlier record has the same terms |
| TemporaryOrders.PlacedThenErased | src/api/temporary_orders_table.cpp:10-92 | from a placement on, through any events about other orders, the record keeps the id and stands alone under it, and the erase by that id removes exactly this record and frees its pair |
| TemporaryOrders.OrderComesAndGoes | src/api/temporary_orders_table.cpp:10-125 | an accepted order that is placed under a new id and erased by it leaves the table as it was |
| TemporaryOrders.FirstErasedBeforeSecond | src/api/temporary_orders_table.cpp:41-125 | between two accepted submits for one market and side the first record stayed until an erase removed it |
| TemporaryOrders.EraseRemovesOwnIff | src/api/temporary_orders_table.cpp:43-61 | an erase removes the order's own record if and only if its id, when known, is first the order's, and otherwise no earlier record has the same terms |
| TemporaryOrders.WrongSideErased | src/api/temporary_orders_table.cpp:50-61 | two accepted orders of opposite sides and equal terms, where the report on one erases the other |
| FillFolding.FoldFills | src/api/binance_api.cpp:428-457 | the loop computes the folded trades |
| FillFolding.FoldingRepresents | src/api/binance_api.cpp:433-457 | one trade per order id in first-seen order, with the sums of its fills and market, side, price, times and fee from its first fill |
| FillFolding.FoldingConserves | src/api/binance_api.cpp:437-443 | total volume is conserved in both currencies |
| FillFolding.FeeIsWholeIff | src/api/binance_api.cpp:453-453 | the recorded fee is the fee on the whole trade if and only if the order filled in one piece |
| BalancesStorage.Storage.Merge | src/storage/balances_storage.cpp:57-92 | the loop computes the merge |
| BalancesStorage.Storage.FindBalance | src/storage/balances_storage.cpp:28-40 | finds the balance of a currency, if any |
| BalancesStorage.EachCurrencyOnce | src/storage/balances_storage.cpp:73-91 | each currency is stored once |
| BalancesStorage.MergeInBatches | src/storage/balances_storage.cpp:73-91 | merging a concatenation is merging in batches |
| BalancesStorage.LatestReportWins | src/storage/balances_storage.cpp:78-80 | a known currency ends with the latest report, the last of those with the same time, so its time never goes back |
| BalancesStorage.MergeConverges | src/storage/balances_storage.cpp:73-91 | the same reports in any order leave the same balances when no two reports of a currency share a time |
| OpenOrdersStorage.Storage.Merge | src/storage/open_orders_storage.cpp:43-90 | the loops compute the merge and keep ids unique |
| OpenOrdersStorage.Storage.DropReplaced | src/storage/open_orders_storage.cpp:47-70 | collecting, pruning and removing drops exactly the reported orders of the named markets, order kept |
| OpenOrdersStorage.Storage.Remove | src/storage/open_orders_storage.cpp:92-107 | exactly the orders with the given ids go |
| OpenOrdersStorage.UnreportedUntouched | src/storage/open_orders_storage.cpp:43-90 | orders the batch does not mention are found as before |
| OpenOrdersStorage.ReportedOrder | src/storage/open_orders_storage.cpp:43-90 | what every reported order looks like afterwards, for any batch: the fold of its reports over the stored order, or over nothing if the batch names its market |
| OpenOrdersStorage.ReportedOnce | src/storage/open_orders_storage.cpp:43-90 | the same in closed form for a batch that reports each order once |
| OpenOrdersStorage.KnownEntryPresent | src/storage/open_orders_storage.cpp:72-83 | every batch entry of a known market is present afterwards, whatever the batch repeats |
| OpenOrdersStorage.UpdatedInOrder | src/storage/open_orders_storage.cpp:72-89 | reports in order on an order of an unnamed market: id and market stay, every amount is the newest non-zero one, side, remainder and times are the last report's |
| MarketOrdersStorage.Storage.Merge | src/storage/market_orders_storage.cpp:33-60 | the loops compute the merge and keep every stored order inside the subscribed markets |
| MarketOrdersStorage.Storage.Remove | src/storage/market_orders_storage.cpp:62-73 | the market and its orders go, the rest stays in order |
| MarketOrdersStorage.MergeReplacesNamedBooks | src/storage/market_orders_storage.cpp:33-60 | a merge replaces exactly the books it names |
| MarketOrdersStorage.MergeIdempotent | src/storage/market_orders_storage.cpp:33-60 | the same books again change nothing |
| TradeHistoryStorage.Storage.Merge | src/storage/trade_history_storage.cpp:32-53 | the loop computes the merge and stays inside the subscribed markets |
| TradeHistoryStorage.Storage.Remove | src/storage/trade_history_storage.cpp:55-66 | the market and its trades go, the rest stays in order |
| TradeHistoryStorage.MergeOnlyAppends | src/storage/trade_history_storage.cpp:36-52 | no stored trade is altered, moved or dropped, and ids stay unique |
| TradeHistoryStorage.FirstWriteWins | src/storage/trade_history_storage.cpp:36-52 | a trade is found under its stored record, else under the first admissible entry of the batch |
| TradeHistoryStorage.StoredIff | src/storage/trade_history_storage.cpp:36-52 | a trade is stored afterwards if and only if it was or the batch reports it for a subscribed and known market |
| TradeHistoryStorage.MergeIdempotent | src/storage/trade_history_storage.cpp:36-52 | the same batch again changes nothing |
| TradeHistoryStorage.HistoryIsDetermined | src/storage/trade_history_storage.cpp:12-23 | the newest-first history of a market is determined, and strictly ordered, when no two of its trades share a time |

## Left out

- Network, request signing, JSON, reconnecting, encryption, SQLite text and settings: input and output.
- User interface, list models, launcher and installer: the list models repeat the storages.
- `Spreder`: nothing calls its main routine, and its buy-in formula is marked unfinished in the source.
- Markets storage, enum and string tables, getters and setters: easy members only.
- Floating-point rounding and the tolerance of fuzzy comparison: exact reals are used.
- Integer widths: the order count is 16 bits and the step counters 32 bits in the source; the proved caps keep the
  counters small, and a history with 65536 buys in one cycle is not modelled. Rounding casts the quotient to 64 bits;
  quotients beyond that are not modelled.
- A target without counted volume is zero divided by zero in the source; it is an absent price here, compares false,
  and an order at it is never accepted.
- Several markets at once: the engine keeps one session per market and shares nothing between them.
- Locking, threads and queued delivery: each event is one step, including the write-back of a whole user configuration
  by the trend timer.
- A user editing the table during a cycle: a new table is a new start.
- `IStep` and its two subclasses are one class with a kind, and ending a cycle is returned to the engine as a value
  where the source calls back.
- The engine object copied into the session map, and the destructor of the step list, are not modelled.
- Stored orders and balances are values: a reader that kept a pointer to a stored order sees later updates in the
  source and not here. Null dates in reports are not modelled.
- `Trade` has one time. The source sorts by creation time (`src/storage/trade_history_storage.cpp:19-21`) and counts by
  update time (`src/algo/hanukkah/i_step.cpp:38`), so a sale placed before a buy and filled after it sits behind that
  buy in the source and in front of it here.
- `std::sort` is any newest-first arrangement of the filtered orders.
- Whether an order in flight is ever erased: only safety of the table is claimed, since a stream report that comes
  before the reply may match nothing.
- TradingSystem.ExposureBound: the upper bound is stated for regular cycles without a min-notional correction, since a
  correction can multiply a small order; for irregular ones `OverlapBreaksBounds` shows it fails.
- TradingSystem.OpenOfferKeepsPromise: an order whose cancellation was requested is not covered, since the cycle may
  have grown since it was placed.

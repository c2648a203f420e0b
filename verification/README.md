# forexml, modelled and proved in Dafny

This project models the trading engine of forexml and proves what its documentation and tests promise of it,
or says exactly when the code keeps the promise. The engine is two step machines over a stream of price bars:
the backtest (`forexml/backtest/engine.py`), which replays a history held in memory, and the live loop
(`forexml/live/loop.py`), which is polled once per bar close, ingests bars into a store, and keeps its
positions, ledger and signals in durable tables. Both are said to be the same pipeline; the main result is
that they are, and under which conditions.

How the pieces fit together:

| module | what it holds |
|---|---|
| Bars, Validation, BarStore, Resample | bars in time order, quarantine with report, the yearly files as a table, nested timeframes |
| Indicators, Swing, Features, Rules | indicators and regime, the point-in-time feature engine with its two bar sources, the rule layer and its look-back |
| RiskGate, Execution | the gate over whole runs; simulated fills and a ticket-issuing broker that may refuse |
| Records, Stores | rows, durable tables, and one effect per statement that reaches a table or the broker |
| Backtest, LiveLoop | the two engines: classes proved against state-transition functions |
| Causality, Conservation, SignalOutcomes, Excursions, Exits, Entries, Decisions, LoopRisk | what holds over every backtest run |
| Clock, Simulation | clock against bars; the live loop simulates the backtest |
| CrashSafety, TableAgreement, Drift | the durable tables over every run with crashes: nothing lost, and how far they drift apart |
| Tickets, PassTables, Recovery | a broker that may refuse: tickets, stale lists, and runs of polls and restarts, exactly |
| CrashCuts, HarmlessCrashes, CloseRows, CloseTimes, BrokerCloses | after which statements a crash does harm, and how often a trade can be closed |
| Restart, RestartOrder | restart equivalence, and exactly when the order of the reloaded list shows |
| LiveConservation, LiveSignals, LostOutcomes, LiveExcursions, LiveEntries, LiveExits, LiveLevels, LiveDecisions | equity and audit, signal outcomes, excursions, exits, levels and decisions over live runs |
| IndicatorMeaning, FeatureMeaning, RuleMeaning, ValidationMeaning, ResampleColumns, Fills | what the values are in terms of bars, ticks and quotes: indicators, vector entries, conditions and decisions, kept rows and issues, columns, prices paid |
| Metrics | drawdown, duration, attribution, and net P&L against the run |

Prices and money are reals, times are whole seconds, a bar is labelled by its open time. Ids come from a
counter (the code draws uuids). A poll is a sequence of effects, one per statement that writes a table or
sends an order; a crash may come after any of them, an exception where an order is refused or the rule layer
raises. `feed`, the bar adapter's answer, is an arbitrary function of the asked range. The rule layer is a
function of the feature vector and the bars; `Rules` gives the concrete vocabulary and shows it is local to
the live window. The spike test of the validator is an arbitrary predicate on a frame and a row.

Where code and documentation part, the model follows the code:

- With simulated fills, a crash between the close row and the delete makes a restarted loop close that trade a
  second time (`CloseRows.CrashCanCloseTwice`); exactly such crashes do (`CloseTimes.ClosedOnceIffDueOnce`). A broker
  refuses the second close, so there it never happens (`BrokerCloses.BrokerClosesOnce`).
- If a close is refused after another close of the same pass was filled, the loop keeps the old list
  (`Tickets.StaleListIff`). The scheduler polls on: the closed position is written back to the store by the next
  poll on which it does not come up for exit, so store and ledger part without any crash
  (`Recovery.UncrashedDriftExample`); and when it does come up, its dead ticket is sent again and the pass stops
  there (`Tickets.DeadTicketBlocksPolls`). `Recovery.RunKeepsTickets` says exactly when.
- A crash right after a close row loses the signal's outcome; with a broker the trade is never closed again, so
  the signal stays open for good (`LostOutcomes.CrashLosesOutcome`).
- A reloaded position list comes back in any order. Whether that order shows in a poll depends on the answers the
  broker gives its closes and on the bar (`RestartOrder.RestartUnseenIff`).
- A poll that is not exactly on a bar boundary manages positions on a bar still forming
  (`Clock.LastBarReadHasClosedIffAligned`); the command line polls five seconds late by default.
- Clock and index time stops part as soon as a bar is missing (`Clock.StopsAgreeIffGapFree`).
- Both loops show the gate positions without risk, so its cap on total risk is kept only when it could not be
  reached anyway (`LoopRisk.CapKeptIffRoomFits`).
- Overlapping correlation groups are not all capped (`RiskGate.GroupCapHoldsIffOneFirstGroup`).
- The first write of a year is not de-duplicated (`BarStore.WriteStaysUniqueIffFreshYearsDistinct`), and a
  repeated timestamp lets the feature engine see past its bar (`Features.ClosedAtBarClose`).
- The regime's history is not counted in the number of bars the feature engine asks for
  (`Indicators.RegimeLosslessIff`), and a history of zero means all readings there are; on one-minute bars a session level can lie beyond the live window
  (`Rules.StrategiesAreLocalIff`).
- The drawdown curve starts after the first trade (`Metrics.FallFromTheStart`).

## Model

| member | source | states |
|---|---|---|
| Simulation.ParityFromFirstBar | forexml/live/loop.py:136-306 | Headline. On gap-free bars, polled at each bar's exact close, every batch validating clean, same cost model, a rule local to the live window: after every bar the loop's ledger, signal rows and equity equal the backtest's, its positions mirror the open trades one by one, and the position store lists exactly those |
| Simulation.LiveSimulatesBacktest | forexml/live/loop.py:136-153 | The inductive form from any pair of agreeing states; also that the re-ingested bar table is exactly the history so far |
| Simulation.PassSimulatesBar | forexml/live/loop.py:170-306 | One pass of the live loop does to the loop what one bar does to the backtest, closes, excursions, signals and entry included |
| Simulation.SameManage | forexml/live/loop.py:254-316 | Position management of both engines keeps them in agreement, position by position |
| Simulation.SameReaction | forexml/live/loop.py:172-252 | Publishing, gating and entering keep them in agreement, and the live poll raises exactly when the rule layer does |
| Simulation.SameReading | forexml/live/loop.py:154-173 | What a poll reads back from the store (last bars, feature vector, verdict) is what the backtest reads from memory at that bar |
| Simulation.TableAfterPoll | forexml/live/loop.py:146-152 | A batch that validates without an issue is stored unchanged: table of the history before plus the batch is the table of the history so far |
| Simulation.FedAtClose | forexml/live/loop.py:144-146 | At a bar's close the window handed to a poll is the last history_window_bars + 5 bars, future bars or not |
| Simulation.SameExit | forexml/live/loop.py:318-332 | The clock-based exit test of a mirrored position fires exactly when the index-based one does |
| Clock.StopsAgreeIffGapFree | forexml/backtest/engine.py:251-252 | Index and clock time stops agree for all trades, bars and limits if and only if the on-grid bars have no gap |
| Clock.ClockFiresNoLater | forexml/live/loop.py:330-331 | With gaps the clock stop still fires no later than the index stop |
| Clock.LastBarReadHasClosedIffAligned | forexml/live/loop.py:154-163 | The last bar a poll reads and manages positions on has closed if and only if the poll comes on a bar boundary |
| LiveLoop.LiveTradingLoop.Poll | forexml/live/loop.py:136-252 | One poll moves memory, stores, adapter and bar table exactly to the specified next state and leaves exactly the specified statements, in order, in the journal; raised or not |
| LiveLoop.LiveTradingLoop.RunPass | forexml/live/loop.py:165-252 | The pass on the last bar read refines the pass function at every field and statement |
| LiveLoop.LiveTradingLoop.ManageOpenPositions | forexml/live/loop.py:254-316 | The walk over the list refines the management function; on a refused close the old list stays, its entries updated in place |
| LiveLoop.LiveTradingLoop.ClosePosition | forexml/live/loop.py:270-304 | One close: order on the position's ticket, equity, close row, signal outcome, delete, in that order; or nothing after a refusal |
| LiveLoop.LiveTradingLoop.EnterPosition | forexml/live/loop.py:205-248 | One entry: order, append, save, open row, in that order; or nothing after a refusal |
| LiveLoop.LiveTradingLoop.ReactTo | forexml/live/loop.py:172-199 | Publish, then enter only when tradeable, under max_concurrent and approved by the gate |
| LiveLoop.LiveTradingLoop.Ingest | forexml/live/loop.py:149-154 | Validating, writing and reading back yields the table updated with the clean batch and its window in time order |
| LiveLoop.LiveTradingLoop.ReadStore | forexml/live/loop.py:171-173 | Feature vector and verdict from the store-backed source over the table |
| LiveLoop.LiveTradingLoop.constructor | forexml/live/loop.py:115-134 | Start-up reloads each stored position exactly once, in some order; equity is the parameter |
| LiveLoop.CloseEffectsApplied | forexml/live/loop.py:276-304 | What the statements of a filled close leave on disk |
| LiveLoop.IngestRefines | forexml/live/loop.py:149-152 | Writing a validated batch into yearly files refines ingesting it into the table |
| CrashSafety.RunIsCrashSafe | forexml/live/loop.py:234-306 | Over every run, crashes and reloads anywhere, at every statement boundary: a trade with an open row and no close row is in the position store |
| CrashSafety.PassIsSafe | forexml/live/loop.py:234-306 | The same for all boundaries of one poll, from any memory and adapter state |
| CrashSafety.StatementIsSafe | forexml/live/loop.py:275-304 | Which statements could lose a trade, and the order that prevents it |
| Recovery.UncrashedRunsCoincide | forexml/live/loop.py:254-316 | Over every run of polls and restarts, refusals and stale lists included, from a loop whose memory, store, ledger and broker agree: at the end the position store holds exactly the trades the ledger shows open if and only if no poll saved a position again that had left the store; with simulated fills none ever does |
| Recovery.UncrashedDriftExample | forexml/live/loop.py:254-268 | Two positions, no crash, clean start: one bar fills the first close and refuses the second, the next bar closes neither; the store then holds a trade the ledger has closed |
| Recovery.PollKeeps | forexml/live/loop.py:254-316 | One poll from any state of such a run, ghosts on the list included: the invariant holds after it, the tables coincide exactly when they did and nothing that had left the store is saved again, a listed ticket is dead exactly when one was or the poll goes stale, and a close goes out on a dead ticket exactly when the walk stops at one |
| Recovery.RestartKeeps | forexml/live/loop.py:123-134 | A restart from the store: the tables stay as they are, and a listed ticket is dead exactly when they do not coincide |
| Recovery.SimulatedRunAgrees | forexml/live/loop.py:254-306 | With simulated fills, over every run of polls and restarts, memory lists the store and the tables coincide |
| Drift.SettledIffNotStale | forexml/live/loop.py:165-306 | One poll, any adapter, completed or raised: memory lists the store afterwards and no difference is new if and only if no stale list is left |
| Drift.SettledIffNotRefused | forexml/live/loop.py:254-316 | The same for a loop in step with its broker, in terms of the exits on the bar and the broker's next answers |
| TableAgreement.PollSettles | forexml/live/loop.py:165-306 | The half of it that runs build on: without a stale list, memory lists the store and the differences are exactly the earlier ones still stored |
| Drift.RunDrift | forexml/live/loop.py:115-134 | Over every run of polls, crashes and restarts, any adapter, any refusals: stored trades that are not open in the ledger are at most those at the start plus one for each crash and one for each close of a pass then stopped by a refusal; at every statement boundary of a further poll at most one more |
| Drift.DriftFromCleanStart | forexml/live/loop.py:115-134 | From a clean start: at most one such trade per crash and per such close; with neither, the tables coincide |
| Drift.PollDrift | forexml/live/loop.py:165-306 | The same for one poll, from any memory |
| Drift.StaleClosesLeaveStaleList | forexml/live/loop.py:254-316 | Such closes are exactly what leaves a stale list |
| CrashCuts.PollCutsExact | forexml/live/loop.py:234-306 | From memory that lists the store and tables that coincide, any adapter, any number of positions: cut after a statement, the tables coincide if and only if it is not a close row, an outcome, or the first save of a position |
| CrashCuts.PollTicketCuts | forexml/live/loop.py:203-306 | In step with a broker: cut after a statement, the stored positions carry exactly the tickets open at the broker if and only if it is not a filled order, a close row, or an outcome |
| CrashCuts.CrashLeavesStepIff | forexml/live/loop.py:123-134 | Hence which crashes a reload from the store recovers from, exactly |
| HarmlessCrashes.HarmlessRunsAgree | forexml/live/loop.py:115-316 | Over every run of polls that do not go stale, restarts, and crashes after any other statement: memory, store, ledger and broker agree after each step, and every close order names a ticket open at the broker and opened for that trade |
| CloseRows.RunTally | forexml/live/loop.py:275-306 | Over every run of polls, restarts and crashes without a stale list, any number of positions: a trade has one close row for each crash that left it half closed and one more once it has left the store |
| CloseRows.ClosedOnceIff | forexml/live/loop.py:275-306 | So it is closed at most once if and only if no crash left it half closed, or one did and it is still stored |
| CloseTimes.ClosedOnceIffDueOnce | forexml/live/loop.py:275-306 | With simulated fills, on lists, bars and crash points alone: a trade is closed at most once over a run if and only if no two of its steps bring the listed position up for exit and get as far as the close row |
| CloseTimes.CloseRowsCounted | forexml/live/loop.py:275-306 | It gets one close row for each such step and no other |
| CloseRows.SimulatedClosesOnce | forexml/live/loop.py:275-306 | With simulated fills, on every run whose crashes spare the close row and the outcome, each trade has at most one close row |
| CloseRows.PollTally | forexml/live/loop.py:254-306 | The count at every statement boundary of one poll |
| CloseRows.EveryExitCanBeCut | forexml/live/loop.py:275-304 | Every exit of a poll with simulated fills has two such crash points |
| BrokerCloses.BrokerClosesOnce | forexml/live/loop.py:270-304 | With a broker, over every run of polls, restarts and crashes after any statement, refusals and stale lists included, no trade has two close rows, at any statement boundary |
| BrokerCloses.PollKeepsCards | forexml/execution/mt5.py:62-106 | One poll cut anywhere: each ticket stands for one trade and each trade for one ticket, and a trade whose ticket is open has no close row |
| CloseRows.CrashCanCloseTwice | forexml/live/loop.py:275-304 | Simulated fills, any number of positions: a crash that leaves a trade half closed, a reload, and a poll on which its position comes up for exit give it two close rows |
| Restart.RestartChangesNothing | forexml/live/loop.py:123-134 | Rebuilding the loop from disk between polls, equity carried over, with any adapter, as long as the order of the list shows in no poll: after any later polls same equity, positions, signals, ids and account, lists and ledger the same up to order; the next poll decides the same and writes the same rows up to order |
| RestartOrder.RestartUnseenIff | forexml/live/loop.py:254-306 | For one poll, exactly: whatever order the store gives the positions back in, the poll comes to the same if and only if fills are simulated, or nothing comes up for exit, or the broker answers all closes with one price, or it refuses the first and the bar moves no excursion of a position that stays |
| RestartOrder.RestartsUnseenIff | forexml/live/loop.py:123-134 | Over a run: a restart before any of its polls makes no difference to that poll if and only if every poll meets that condition |
| RestartOrder.OrderShows | forexml/live/loop.py:254-306 | Otherwise a reload that exchanges two positions, and a poll that ends differently |
| Restart.SimulatedIsOrderFree | forexml/execution/simulated.py:45-72 | With simulated fills the order shows in no run |
| Restart.OneExitIsOrderFree | forexml/execution/mt5.py:62-106 | With a broker and at most one exit on the bar it shows exactly when the close is refused and some position that stays has a new excursion |
| Restart.OneAtATimeIsOrderFree | forexml/live/loop.py:180-181 | A strategy with max_concurrent of one: it shows in no run, with any adapter |
| Restart.FreshIsReady | forexml/live/loop.py:115-134 | A loop started on empty tables, and every loop it becomes while the order shows in no poll, meets the conditions of the restart theorem |
| Restart.PollAlike | forexml/live/loop.py:136-252 | One poll of two loops that differ in order only keeps them so, with equal decisions and equal rows up to order |
| Restart.OrderDoesNotMatter | forexml/live/loop.py:254-316 | Managing a permuted position list comes to the same survivors, P&L, close rows, closed tickets and signal outcomes, at the fill the adapter gives |
| Restart.ManagedLast | forexml/live/loop.py:254-316 | Any one position may be managed last |
| Restart.ManageSums | forexml/live/loop.py:254-316 | A management pass whose closes are answered alike amounts to the sum of its positions' contributions, the adapter's account included |
| Restart.ListsSameElements | forexml/live/positions.py:61-62 | Two loads of one table differ in order only |
| Restart.RestartIsAlike | forexml/live/loop.py:128-134 | A reload from the store and a reload of the ledger give a loop alike to the one that stopped |
| Recovery.RunKeepsTickets | forexml/live/loop.py:203-316 | Over every run of polls and restarts, refusals and stale lists included: every close order named a ticket open at the broker and opened for that same trade exactly when no poll stopped at a dead ticket; the open positions carry exactly the broker's open tickets exactly when no poll resaved and none since the last restart went stale |
| Tickets.PollKeepsTickets | forexml/execution/mt5.py:62-106 | One poll, completed or cut short, from any list that carries the account's tickets: tickets dead and orders on dead tickets exactly as the list, the bar and the broker's answers foretell |
| Tickets.StaleListIff | forexml/live/loop.py:254-316 | With all listed tickets open, a stale list is left if and only if the broker's next answer is a price and one of those to the other exits on the bar a refusal |
| Tickets.StaleExactly | forexml/live/loop.py:254-316 | The same of the foretold walk |
| Tickets.OneExitIsNeverStale | forexml/live/loop.py:254-316 | At most one exit on the bar: never a stale list, whatever the adapter |
| Tickets.OneAtATimeIsNeverStale | forexml/live/loop.py:180-181 | A strategy with max_concurrent of one never leaves a stale list in any run |
| Tickets.SimulatedIsNeverStale | forexml/execution/simulated.py:45-72 | Nor do simulated fills |
| Tickets.DeadTicketBlocksPolls | forexml/live/loop.py:270-316 | A listed position whose ticket is gone comes up for exit and nothing is refused before it: the positions before it are dealt with, a close goes out on the dead ticket and is refused, the poll ends there with those after it untouched and the list kept |
| Tickets.StaleListExample | forexml/live/loop.py:270-316 | A concrete state and bar on which a poll leaves a stale list |
| Tickets.CloseWalks | forexml/live/loop.py:270-284 | One close order in a pass goes out on the position's own ticket; filled, that ticket alone is gone |
| Tickets.SendOpen | forexml/execution/mt5.py:83-106 | A filled opening order returns a ticket that was not open before |
| Backtest.BacktestEngine.Run | forexml/backtest/engine.py:82-237 | The engine's tables, equity and event count after a run are those of the run function on the sorted history, also when the rule layer raised on the way |
| Backtest.BacktestEngine.ProcessBar | forexml/backtest/engine.py:95-235 | One bar: manage open trades, then react; equity, open list, tables and published count tied to the step function |
| Backtest.BacktestEngine.ManageTrades | forexml/backtest/engine.py:107-159 | The loop over open trades refines the management function |
| Backtest.BacktestEngine.CloseTrade | forexml/backtest/engine.py:120-157 | One close: fill, P&L net of commission, equity, ledger row, signal outcome |
| Backtest.BacktestEngine.HandleVerdict | forexml/backtest/engine.py:167-235 | Publish, gate, size, fill, open row |
| Causality.PrefixRunIsPrefix | forexml/backtest/engine.py:95-237 | The ledger and the published signals of a backtest on the first k bars are prefixes of those on all bars |
| Causality.RunIsCausal | forexml/backtest/engine.py:95-237 | Two strictly ascending histories that agree on k bars, with any futures, drive the engine through the same state at bar k |
| Causality.ReadingIsCausal | forexml/backtest/engine.py:161-163 | The reading at a bar does not depend on later bars although the source hands over all of them |
| Conservation.RunBalances | forexml/backtest/engine.py:107-237 | Over every run this run's rows audit to exactly the open trades; equity is initial equity plus realised P&L of close rows; rows, units and open trades balance |
| Conservation.AuditShape | forexml/backtest/engine.py:135-152 | In an audited ledger two rows of one trade are its open row and a later close row of equal size and matching P&L: one open row, at most one close |
| Conservation.AuditedCloseHasOpen | forexml/backtest/engine.py:222-235 | Every close row has an earlier open row of its trade |
| Conservation.OpenTermsAreTheRow | forexml/backtest/engine.py:222-235 | A trade still open is open on the terms of its row |
| LiveConservation.RunBalances | forexml/live/loop.py:234-306 | In the live loop, any adapter, over all polls that leave no stale list: the ledger audits to exactly what the position store holds, on its terms, and equity is what it was plus the realised P&L of the new rows |
| LiveConservation.EquityIsRealisedPnl | forexml/live/loop.py:282-287 | Over any polls at all, stale lists included: the ledger only grows, and equity moves by exactly the realised P&L of the rows it grew by |
| LiveConservation.PollAudits | forexml/live/loop.py:234-306 | One poll, completed or raised, keeps the audit |
| LiveConservation.PollAuditCutsExact | forexml/live/loop.py:234-306 | Cut after a statement, any adapter, the ledger audits to what is stored if and only if it is not a close row, an outcome, or the first save of a position |
| LiveConservation.AuditSurvivesCrashes | forexml/live/loop.py:115-306 | The audit over every run of polls without a stale list, restarts, and crashes after any other statement |
| LiveSignals.SignalsFollowLedger | forexml/live/loop.py:303-305 | Over every run of polls, restarts and crashes, any adapter, refusals, stale lists and double closes included, as long as no crash comes right after a close row: a rejected signal has no outcome, a taken one that of its last close row, or open without one |
| LiveSignals.PollSignalCutsExact | forexml/live/loop.py:285-305 | Cut a poll after any statement: signals and ledger agree if and only if it is not a close row; after one, its signal is still open |
| LiveSignals.ResultIffClosed | forexml/live/loop.py:285-302 | A signal has a last result exactly when the ledger has a close row for it |
| LostOutcomes.CrashLosesOutcome | forexml/live/loop.py:285-306 | With a broker in step, after a crash right after a close row: over every later run of polls, restarts and crashes that signal stays open while the ledger has its one close row |
| LiveExcursions.LiveRunIsExact | forexml/live/loop.py:258-264 | With simulated fills, any bars at any times: every listed position carries the extremes over exactly the bars polled since its entry, every close row those between entry and exit |
| LiveExits.LeavesListIffDue | forexml/live/loop.py:254-332 | One poll, any adapter, any list of distinct trades: unless a refused close stops the pass, a listed position leaves the list if and only if the bar touches its stop or target or the clock has reached its time stop; otherwise it stays, changed in its excursions alone |
| LiveExits.PollClosesDue | forexml/live/loop.py:254-332 | With simulated fills: the close row is written on that poll and on no other |
| LiveExits.StaysIffNeverDue | forexml/live/loop.py:254-332 | Over every run of polls and restarts with simulated fills, any bars, any times: a position is still listed if and only if no poll since gave one of the three reasons, without a close row then and with exactly one otherwise |
| LiveLevels.PositionsStandOnSignals | forexml/live/loop.py:203-252 | Over every run of polls, restarts and crashes, any adapter: a listed or stored position has the direction, stop and target of its stored signal, and its time stop the configured number of bars after its opening |
| LiveLevels.PollStands | forexml/live/loop.py:165-316 | The same at every statement boundary of one poll |
| Fills.PollRowsAreFills | forexml/live/loop.py:203-306 | One poll, any adapter, completed or raised: each ledger row carries price, commission and size of the filled order before it, sent for that trade at the quotes of the bar; a simulated adapter answers by its cost model |
| Fills.PollRowsConclude | forexml/live/loop.py:229-306 | Each close row is that of a listed position, with its result, R and extremes, and its signal's outcome and the delete follow at once; each open row follows the save of a position on its terms |
| LiveEntries.LivesAreBounded | forexml/live/loop.py:330-331 | Over every run with crashes and restarts, any adapter: after a poll that no refused close stops, no open position is as old as its time stop |
| SignalOutcomes.SignalStoreAgreesWithLedger | forexml/backtest/engine.py:129-168 | After every step: a rejected signal has no outcome; a taken one is win, loss or timeout exactly when the ledger holds its close row with positive, negative or zero P&L; otherwise open |
| SignalOutcomes.RunAgrees | forexml/signals/store.py:53-84 | The invariant behind it over every run; a closed signal also carries the excursions and R of its close row |
| SignalOutcomes.OpenSignalsAreUnclosed | forexml/signals/store.py:89-93 | The signals the store reports open are the taken ones of the run without a close row |
| Stores.SignalStore.ReadOpen | forexml/signals/store.py:89-93 | The taken signals whose outcome is still open, each once, in time order |
| Excursions.RunIsExact | forexml/backtest/engine.py:108-118 | Every open trade's, and every close row's, MFE and MAE are the extremes over exactly the bars after entry and before the exit bar |
| Excursions.ExtremesAreExtremes | forexml/backtest/engine.py:111-116 | Those extremes bound every bar and are attained by zero or by a bar |
| Excursions.InsideIffProperSides | forexml/backtest/engine.py:240-250 | Excursions of an open trade stay strictly inside target and stop exactly when these lie on their proper sides of the fill price |
| Exits.ClosedIffFirstDue | forexml/backtest/engine.py:107-159 | Over every run, any bars and readings: an open trade gets its close row on a bar if and only if the run has come to that bar and it is the first to touch the trade's stop or target or to be as late as its time stop |
| Exits.CloseRowsHaveReasons | forexml/backtest/engine.py:240-253 | Every close row was written on the first bar after its trade's entry that touches stop or target of the published signal or is as late as the configured time stop; its R is the P&L over what was at risk between the open row's price and that stop |
| Exits.OpenTradesStand | forexml/backtest/engine.py:205-253 | After every bar, each open trade has an open row of its entry bar and a published signal with its direction, stop and target, and no bar since has given a reason to close it |
| Exits.ExitIffDue | forexml/backtest/engine.py:240-253 | The trigger fires if and only if a level is touched or the time stop reached, and names the stop before the target |
| Fills.RunRowsAreFills | forexml/backtest/engine.py:120-236 | Over every run: each row written on a bar is a fill at that bar's ask or bid and its slippage, at the time of its close, for the commission of its lots; the opening slippage is that of the bar's features |
| Fills.FillIs | forexml/execution/simulated.py:45-72 | Refused without a quote; else above the ask or below the bid by the slippage in pips, which is that of news, of a high or extreme volatility, or the base |
| Entries.RunIsOrderly | forexml/backtest/engine.py:107-220 | After every bar: each open row stems from a taken signal of an active strategy published at its time, which the gate approves with that size at the equity and open count the rows before it amount to; both concurrency limits hold; an inactive strategy leaves ledger and equity untouched; no open trade is as old as its time stop |
| Entries.GateSeesOnlyTheNewTrade | forexml/backtest/engine.py:183-193 | Since the loop shows positions with zero risk, the gate approves exactly on the new trade's own risk and the position count |
| Decisions.RunPublishes | forexml/backtest/engine.py:161-170 | Over every run, any bars and readings: the run ends at the first error of the rule layer; until then each bar with a verdict to publish publishes exactly one row, which tells it, in order, and no other bar does |
| Decisions.RunEnters | forexml/backtest/engine.py:170-236 | A bar opens a trade if and only if its verdict is taken, the strategy active, and beside the trades that stay open after its close rows there is room and the new trade is within the limits; then exactly one, sized to risk the clamped percentage of the equity those rows leave |
| LiveDecisions.PollDecides | forexml/live/loop.py:168-252 | One poll, any adapter: the same two equivalences for the row it publishes and the opening order it sends, with the order's direction, size, quotes and features; nothing of either when a refused close stops it |
| Entries.LoopBookExceedsRiskCap | forexml/backtest/engine.py:183-195 | One decision: the next trade is approved although the open ones already reach the cap |
| LoopRisk.CapKeptIffRoomFits | forexml/backtest/engine.py:176-195 | In every run the summed approved risk of the open trades stays within max_total_risk_pct if and only if, for every approvable trade, its clamped risk times the room fits: the least of max_concurrent, max_concurrent_positions and the time stop in bars |
| LoopRisk.FixedFractionCapKept | forexml/risk/gate.py:97-99 | With the default sizer: if and only if the room times max_risk_per_trade_pct is within the cap |
| LoopRisk.BreakingRun | forexml/backtest/engine.py:105-223 | Otherwise a run in which every bar opens a trade until the room is full, and the sum exceeds the cap |
| LoopRisk.RunStaysWithinCap | forexml/backtest/engine.py:105-223 | The other half, over every run on any bars and readings |
| LoopRisk.RunFitsRoom | forexml/backtest/engine.py:105-223 | Never more open trades than that room: concurrency limits, and at most one per bar within the time stop |
| RiskGate.RunKeepsLimits | forexml/risk/gate.py:123-169 | With the book carrying approved risk, any sizer, closes at any time: position count, total risk and each single risk stay within limits over every run |
| RiskGate.RunKeepsGroupCap | forexml/risk/gate.py:149-160 | A group whose symbols are all checked against one group stays under the correlation cap in every run |
| RiskGate.DisjointGroupsAreCapped | forexml/risk/gate.py:149-160 | With pairwise disjoint groups every group is capped over every run |
| RiskGate.GroupCapHoldsIffOneFirstGroup | forexml/risk/gate.py:149-160 | With overlapping groups the cap of a group holds in every run if and only if all its symbols share a first group |
| RiskGate.ApprovalRespectsLimits | forexml/risk/gate.py:131-169 | After an approval the per-trade, position-count and total-risk limits hold with the new position, and size times stop distance is equity times risk percent |
| RiskGate.GreedySizersAreClamped | forexml/risk/gate.py:134-137 | Sizers proposing the maximum or more are indistinguishable |
| RiskGate.DecisionExactly | forexml/risk/gate.py:123-169 | Any book, any sizer: approved, with the clamped risk, if and only if no veto stands against the book with the new trade; otherwise turned down with the first that does |
| Features.SourceParity | forexml/features/engine.py:136-160 | Store-backed and in-memory sources give the same closed window if and only if the store's range reaches `needed` closed bars or all there are, gaps allowed |
| Features.SourcesGiveSameVector | forexml/features/engine.py:107-131 | Hence the same feature vector |
| Features.GapFreeReaches | forexml/features/engine.py:142-145 | Gap-free bars meet that condition at every bar close, and the closed bars there are the bars so far |
| Features.VectorSeesOnlyClosedBars | forexml/features/engine.py:111-118 | Sources that agree on closed bars give the same vector |
| Features.ClosedAtBarClose | forexml/features/engine.py:115-116 | Handed the whole series at the close of bar i the engine sees bars 0..i, exactly when bar i + 1 opens later than bar i |
| Features.TruncationIsLossless | forexml/features/engine.py:117-128 | When the declared windows fit in `needed`, indicators and regime on the truncated tail equal those on all closed bars |
| Features.DefaultMarginCovers | forexml/features/engine.py:98-108 | The default margin of 300 bars covers swing windows up to 300 and regime histories of 1 to 300 |
| Features.GetFeatureVector | forexml/features/engine.py:92-133 | The accumulation loop computes the vector of the closed window |
| FeatureMeaning.WindowIsLastClosed | forexml/features/engine.py:111-118 | The window the vector is computed on is the last `needed` of the bars handed over that opened at least one interval before the decision, in time order, each as often as it came |
| FeatureMeaning.NeededIs | forexml/features/engine.py:85-108 | The number of bars asked for is the longest lookback, or one without indicators, plus the regime's period and two, plus the margin |
| FeatureMeaning.OutputsAreEntries | forexml/features/engine.py:120-122 | Every output of every configured indicator on that window is in the vector under its name, missing where there were too few bars |
| FeatureMeaning.BarFactsAreEntries | forexml/features/engine.py:124-125 | The number of bars and the open time of the last |
| FeatureMeaning.RegimeIsEntry | forexml/features/context/regime.py:12-53 | The ATR percentile and its name: low up to 25, normal up to 75, high up to 95, else extreme; or neither |
| FeatureMeaning.TagsAreEntries | forexml/features/engine.py:127-129 | Calendar entries stand as given, session entries too unless a later entry has their name |
| Indicators.WindowIsLossless | forexml/features/indicators/base.py:8-33 | Each indicator on a window at least as long as its reach has its full-history value |
| IndicatorMeaning.RsiMeans | forexml/features/indicators/rsi.py:17-31 | RSI times all moves of the window is 100 times its rises; it exceeds 50 exactly when the last close exceeds the first |
| IndicatorMeaning.RsiAtItsEnds | forexml/features/indicators/rsi.py:25-28 | 100 when closes rose and none fell, 0 the other way round, 50 when none moved |
| IndicatorMeaning.EmaMeans | forexml/features/indicators/moving_average.py:33-38 | Given p bars, the last term of the recursion with weight 2 / (p + 1), seeded with the first close of the last 3p bars |
| IndicatorMeaning.SmaMeans | forexml/features/indicators/moving_average.py:15-19 | Given p bars, p times the value is the sum of the last p closes |
| IndicatorMeaning.TrueRangeSpans | forexml/features/indicators/atr.py:25-31 | On a bar with low <= high, the span of the bar and the previous close together; on any bar, the widest of the three |
| IndicatorMeaning.AtrMeans | forexml/features/indicators/atr.py:17-32 | Given p + 1 bars, p times the value is the sum of the true ranges of the last p |
| IndicatorMeaning.AtrMedianMeans | forexml/features/indicators/rolling_stats.py:23-42 | Given p + w bars, the middle of the last w ATRs in ascending order, or half way between the middle two |
| IndicatorMeaning.RegimeMeans | forexml/features/context/regime.py:15-53 | A reading if and only if there are five earlier ATRs to compare with; the percentile times their number is 100 times the number below the current one; the band by 25, 75 and 95 |
| IndicatorMeaning.LookbackIsExact | forexml/features/indicators/base.py:8-33 | The lookback an indicator declares is exact: n bars always give its full-history value if and only if n is at least that, but for the exponential average of period one |
| IndicatorMeaning.SwingLookbackIsExact | forexml/features/indicators/swing.py:15-51 | n bars can hold a confirmed swing if and only if n is at least the declared lookback, where the window can hold one |
| Indicators.RegimeOfTail | forexml/features/context/regime.py:15-53 | Exact effect of truncation: the percentile's history is capped at n - period - 1 readings |
| Indicators.RegimeWindowLossless | forexml/features/context/regime.py:36-53 | No effect when history is positive and fits in the window with the period and one more |
| Indicators.RegimeLosslessIff | forexml/features/context/regime.py:36-53 | Cutting the bars to their last n never changes the regime if and only if history is positive, and under five or fits in n with the period and one more; a history of zero means all there is |
| Indicators.ConvolvedCurrentIsAtr | forexml/features/context/regime.py:36-40 | The convolved current ATR equals the ATR indicator of the same period |
| Indicators.AtrSeriesEntry | forexml/features/indicators/rolling_stats.py:38-41 | Every entry of the sliding series is the ATR of the history ending there |
| Indicators.SortRealsSorts | forexml/features/indicators/rolling_stats.py:41-42 | The median is taken over the same readings in ascending order |
| Swing.Compute | forexml/features/indicators/swing.py:26-51 | The reverse scan with early break returns the values of the latest swings in the window, or none on too few bars |
| Swing.Scan | forexml/features/indicators/swing.py:35-51 | The loop itself, both swings in one pass |
| Swing.SwingIndexExact | forexml/features/indicators/swing.py:39-47 | The swing index is the largest confirmable strict unique extreme of its window, or none when there is none |
| Swing.SwingIndexUnique | forexml/features/indicators/swing.py:39-47 | That description determines it |
| Swing.AppendOneBar | forexml/features/indicators/swing.py:29-49 | Appending a bar yields the newly confirmable bar, the same swing, or none once it slid out |
| Swing.PeakTest | forexml/features/indicators/swing.py:41-42 | Equal to the window maximum and counted once is strictly above all neighbours |
| Swing.TroughTest | forexml/features/indicators/swing.py:45-46 | The same for lows, mirrored |
| Swing.SwingHighAtIndex | forexml/features/indicators/swing.py:43-43 | The reported high is the high of the bar at that index |
| Swing.SwingLowAtIndex | forexml/features/indicators/swing.py:47-47 | The reported low is the low of the bar at that index |
| Rules.TakenExactly | forexml/strategies/engine.py:78-109 | A signal is taken exactly when there are conditions, all are met, all filters pass, there is a bar and the stop has its inputs |
| RuleMeaning.DecisionMeans | forexml/strategies/engine.py:78-109 | The whole decision by the conditions that hold and the filters: nothing published below half, rejected as a near miss from half on, rejected with the first objection, taken, or an error |
| RuleMeaning.MetMeans | forexml/strategies/primitives/entries.py:45-97 | A condition is met exactly when what it says of bars and features holds: the last price beyond every bar of the last completed session, or two operands in the relation named |
| RuleMeaning.RaisesMeans | forexml/strategies/primitives/entries.py:68-97 | It raises exactly when it names something that is not there or orders two present things of different kinds |
| RuleMeaning.BreakMeans | forexml/strategies/primitives/entries.py:28-61 | A session level is broken exactly when the last price is above every high, or below every low, of the last session to have ended, and that session has a bar |
| RuleMeaning.NumbersCompare | forexml/strategies/primitives/entries.py:19-25 | Each operator on two numbers is the ordering of the number line it is written as |
| RuleMeaning.InstantsCompare | forexml/strategies/primitives/entries.py:19-25 | The same on two times |
| RuleMeaning.TextsCompare | forexml/strategies/primitives/entries.py:19-25 | On two texts by their first differing character |
| RuleMeaning.OneComparison | forexml/strategies/primitives/entries.py:68-97 | A strategy of one comparison of a feature with a number is taken only if the feature stands in that relation to it, and exactly then when filters, bar and stop allow |
| RuleMeaning.TwoFeatures | forexml/strategies/primitives/entries.py:68-97 | The same for one feature against another |
| Rules.TakenLevels | forexml/strategies/engine.py:101-109 | A taken signal enters at the last close, with the stop its distance against the trade and the target its distance with it |
| Rules.ShortExactly | forexml/strategies/engine.py:111-116 | The direction is short exactly when the first condition that breaks a session level breaks a low |
| Rules.ComparisonsAreTotal | forexml/strategies/primitives/entries.py:68-97 | A comparison raises exactly on an unknown name or an ordering of different kinds, and is not met on a missing value; of two numbers, texts or times exactly one of less, equal and greater is met; what each operator means is in RuleMeaning.MetMeans |
| Rules.SessionIsLastCompleted | forexml/strategies/primitives/entries.py:28-34 | The session consulted is the last completed one and starts less than 32 hours back |
| Rules.SessionExtremeIsLocal | forexml/strategies/primitives/entries.py:28-42 | On gap-free bars the last window bars give the full-history session extreme when they, with one bar more, span 32 hours |
| Rules.StrategiesAreLocalIff | forexml/strategies/primitives/entries.py:28-61 | Every strategy of this vocabulary is local to the live window if and only if there is a window and it, with one bar more, spans 32 hours |
| Rules.BreakoutForgets | forexml/strategies/primitives/entries.py:28-61 | For every shorter window, well-shaped gap-free bars on which a breakout strategy decides otherwise on the window than on all bars |
| Validation.ValidateBars | forexml/data/validation/validators.py:52-101 | The staged method: output strictly ascending with positive spreads, and no row missing without an issue at its time |
| ValidationMeaning.CleanExactly | forexml/data/validation/validators.py:64-87 | What is returned, exactly: in time order the rows of the frame after the spread stage that are no spikes |
| ValidationMeaning.SpreadExactly | forexml/data/validation/validators.py:64-75 | That frame: the first row of each timestamp in the batch as it came, where its ask exceeds its bid |
| ValidationMeaning.GoodRowSpared | forexml/data/validation/validators.py:64-87 | A row with a timestamp of its own, ask above bid and no spike in that frame is kept |
| ValidationMeaning.ReportExactly | forexml/data/validation/validators.py:66-101 | Each kind of issue at a time, both directions: two rows of the batch; the first row's ask not above its bid; a spike; more than five intervals to the surviving row before |
| Validation.CleanBars | forexml/data/validation/validators.py:64-87 | What survives comes from the input, ascends strictly, has positive spreads |
| Validation.NothingDroppedSilently | forexml/data/validation/validators.py:66-87 | Every dropped row has an issue of a quarantining kind at its timestamp |
| Validation.ReportIsSound | forexml/data/validation/validators.py:66-87 | Issues are true: duplicates mean repeated times, spread and spike issues mean the row is gone |
| Validation.CleanReport | forexml/data/validation/validators.py:64-101 | An empty report means the batch went through unchanged, only sorted |
| Validation.CleanReportExactly | forexml/data/validation/validators.py:64-101 | The report is empty if and only if no time repeats and, once sorted, every ask exceeds its bid, no row of three or more is a spike, and none comes over five intervals after the one before |
| BarStore.WritesRefineUpdates | forexml/data/store.py:27-50 | After any sequence of validated batches the files stand for the table updated last write wins |
| BarStore.WriteRefinesUpdate | forexml/data/store.py:27-50 | One write, whatever the partitioning by year |
| BarStore.WriteStaysUniqueIffFreshYearsDistinct | forexml/data/store.py:41-49 | Files stay free of repeated times if and only if no batch that opens a year repeats a time in it |
| BarStore.WriteTwiceIsWriteOnce | forexml/data/store.py:36-50 | Repeating a write changes nothing |
| BarStore.RefinesDetermines | forexml/data/store.py:24-50 | Files are determined by the table they stand for |
| BarStore.ReadIsTableRead | forexml/data/store.py:52-68 | A range query over all files is the sorted restriction of the table |
| BarStore.BarStore.Write | forexml/data/store.py:27-50 | The loop over years, any order, ends in the specified files |
| BarStore.BarStore.Read | forexml/data/store.py:52-68 | Sorted rows with start <= time < end; the table's range when the files stand for a table |
| Bars.ReadTableOfSeries | forexml/data/store.py:61-66 | A range query over the table of a series is that slice of the series |
| Resample.BarsToBarsComposes | forexml/data/resample.py:53-69 | Fine then coarse equals straight to coarse, on every column |
| Resample.TicksComposeWithBars | forexml/data/resample.py:32-69 | Ticks to fine bars to coarse bars equals ticks to coarse bars |
| Resample.TicksAreUnitBars | forexml/data/resample.py:37-50 | Aggregating ticks is aggregating one-trade bars |
| ResampleColumns.TicksToBarsColumns | forexml/data/resample.py:32-50 | On ticks in any order: a bar at an edge exactly when a tick falls in its bucket; open and close half way between the quotes of the first and last tick, the highest and lowest such middle, the number of ticks, the last quotes |
| ResampleColumns.BarsToBarsColumns | forexml/data/resample.py:53-69 | On bars in any order: the open of the earliest row, close, bid and ask of the latest, highest high, lowest low, volumes added up |
| Resample.GroupBarsExact | forexml/data/resample.py:67-69 | The bar at an edge aggregates all rows of its bucket, and an edge appears exactly when some row falls in it |
| Resample.GroupedIsAscending | forexml/data/resample.py:67-69 | One bar per bucket, in time order |
| Resample.ResamplingConservesVolume | forexml/data/resample.py:61-61 | Total volume is conserved |
| Resample.TickVolume | forexml/data/resample.py:47-47 | Total volume of tick bars is the number of ticks |
| Resample.ResamplingKeepsShape | forexml/data/resample.py:57-60 | low <= open, close <= high is kept |
| Resample.TickBarsWellShaped | forexml/data/resample.py:42-46 | Bars made from ticks have it whatever the quotes |
| Stores.OpenPositionStore.LoadAll | forexml/live/positions.py:61-62 | Each row exactly once, in no particular order |
| Stores.OpenPositionStore.Save | forexml/live/positions.py:51-56 | Insert or replace by trade id |
| Stores.OpenPositionStore.Delete | forexml/live/positions.py:58-59 | Remove by trade id |
| Stores.TradeLedger.Record | forexml/ledger/ledger.py:103-110 | Append to memory and table |
| Stores.TradeLedger.LoadExisting | forexml/ledger/ledger.py:99-101 | Reload keeps every row, in time order |
| Stores.TradeLedger.ClosedTrades | forexml/ledger/ledger.py:121-122 | The close rows in order |
| Stores.CloseRowsAre | forexml/ledger/ledger.py:121-122 | Exactly the close rows, each as often as recorded, later ones later |
| Stores.SortEntriesSorts | forexml/ledger/ledger.py:100-101 | ORDER BY keeps the rows and orders them by time |
| Stores.SignalStore.ResolveOutcome | forexml/signals/store.py:78-84 | Updates the row with that id if there is one |
| Backtest.RoundTripLosesItsCosts | forexml/backtest/engine.py:120-133 | A trade closed at the quote it was opened at loses exactly the spread, both slippages and the closing commission; the opening commission is never charged; the opening slippage is that of the feature vector's news flag and regime |
| Records.RMultipleOfRisk | forexml/backtest/engine.py:131-132 | R times the amount at risk is the P&L; zero when nothing is at risk |
| Metrics.ComputeMetrics | forexml/analytics/metrics.py:39-97 | Trade count, net P&L, win rate, expectancy in R and average excursions over the values present, Sharpe and Sortino ratio by sign and square, profit factor as what was won over what was lost, worst fall, longest underwater stretch; zeros on no trades |
| Metrics.DrawdownIsWorstFall | forexml/analytics/metrics.py:71-74 | The running-max pass gives the minimum over all i <= j of equity[j] - equity[i], attained |
| Metrics.FallFromTheStart | forexml/analytics/metrics.py:71-74 | Measured from the starting equity the worst fall is deeper exactly when the curve dips below zero by more than the reported drawdown |
| Metrics.LongestDrawdown | forexml/analytics/metrics.py:76-80 | The counter loop gives the longest run of consecutive trades strictly below an earlier point |
| Metrics.CumSumIsSum | forexml/analytics/metrics.py:71-71 | The curve at i is the sum of the first i + 1 results |
| Metrics.ProfitableIffFactorAboveOne | forexml/analytics/metrics.py:44-52 | Net P&L is positive exactly when the profit factor exceeds one |
| Metrics.AveragesAre | forexml/analytics/metrics.py:50-95 | The reported averages of R, MAE and MFE are those of the rows that have the value; none where no row has |
| Metrics.FactorIsFactor | forexml/analytics/metrics.py:44-48 | Gross profit over gross loss; infinite without losses, zero when nothing was won either |
| Metrics.VarianceIs | forexml/analytics/metrics.py:58-64 | n times n - 1 times the variance is n times the sum of squares less the squared sum; none below two values |
| Metrics.LossesAre | forexml/analytics/metrics.py:62-63 | The downside sample is exactly the negative results |
| Metrics.AttributionSumsBack | forexml/analytics/metrics.py:99-109 | For any grouping and any order of groups, counts, net P&L and wins add up to the totals |
| Metrics.NetPnlIsEquityChange | forexml/analytics/metrics.py:43-43 | Over the closed trades of a run, net P&L is exactly the change of equity |

## Left out

- Restart.RestartChangesNothing: only while the order of the list shows in no poll, which RestartOrder.RestartsUnseenIff shows to be exactly when the claim holds.
- Simulation.ParityFromFirstBar: with the same supply of ids on both sides, where the code draws random ones; up to and including the bar on which the rule layer first raises.
- Recovery.RunKeepsTickets: crashes inside a poll are in CrashCuts and HarmlessCrashes; the broker changes positions only by these orders.
- Drift.RunDrift: a restart is assumed to be equipped with ids not used before.
- CloseRows.RunTally: runs without a stale list; with a broker, stale lists included, BrokerCloses.BrokerClosesOnce takes over.
- Float rounding; Bollinger bands; the standard deviation of the spike test.
- LiveExcursions.LiveRunIsExact: for simulated fills; with a broker, a refused close leaves the positions after it without that bar.
- Metrics.AttributionSumsBack: average R per group, and the sort by net P&L, which only reorders groups.
- DuckDB, Parquet and Polars themselves: tables are maps and sequences, each statement atomic and durable. A crash inside the rewrite of a yearly file is not modelled.
- Timestamps come back from the position table without a time zone, which the model's integer times do not show.
- LivePosition objects are values in a list whose entries are replaced in place; nothing else holds them.
- The signal store is always attached, as the command line attaches it; other subscribers of the signal bus are not modelled.
- Swap and `modify` ledger rows: never produced by either loop.
- The pip size is a parameter, not derived from the symbol.
- Network and file adapters and the MetaTrader5 module: an arbitrary bar feed, and a broker that fills or refuses at will.
- Sessions and calendar tags are arbitrary functions of the time; filters are arbitrary functions of vector and last bar.
- Rejection and near-miss texts beyond the fact of rejection.
- An exception of the rule layer ends a backtest run; the indicators never raise (periods are positive).
- PivotLevels: on one-minute bars its two days do not fit in the window, and elsewhere it adds nothing harder.
- Lifecycle transitions, walk-forward windows, decision log, machine-learning code and report rendering: no difficult content.

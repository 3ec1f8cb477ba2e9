# A verified model of the whale copy-trading engine

The repository watches large wallets trade on Raydium, copies selected buys through Jito
bundles, and sells the bought tokens again with a tick-driven watcher. This project models
the life of one position in Dafny and proves what holds over every run:

| file | what it models |
|---|---|
| `Primitives.dfy`, `Types.dfy` | machine integers, optional values, keys and swap events |
| `SwapDecoder.dfy`, `DecoderInvariance.dfy` | from a transaction notification to swap events, and properties of decoding as a whole |
| `StreamEpoch.dfy` | the bounded ingestion queue and the epoch that marks lost events |
| `Tipping.dfy` | the tip bid |
| `BotState.dfy` | the timed mint lock, the circuit breaker, the capacity permits |
| `Dispatcher.dfy` | the nested round robin over tip accounts, the opportunity deduplicator |
| `ExecutionJournal.dfy`, `CrashRecovery.dfy` | the write-ahead journal, and its runs with crashes and restarts |
| `ExecutionConsumer.dfy`, `ConsumerLoop.dfy` | the gates one signal passes, and the loop over signals, joined to the crash model |
| `BundleTracker.dfy` | interleaved result handling, pruning and registration of bundles |
| `ExitArithmetic.dfy`, `ExitWatcher.dfy` | price tests in 128-bit arithmetic, and the watcher loop |
| `RaydiumSwap.dfy`, `SellPipeline.dfy` | building and shielding a swap, the retry schedule, confirmation and booking |
| `Lifecycle.dfy` | a position from signal to exit at ordinary amounts |

`dafny verify dfyconfig.toml` checks everything.

Three design choices. Time is a number handed in by the caller, and everything the outside
world answers (remote calls, disk faults, clock readings, the rounding of a logarithm) is a
parameter, so a statement for all parameters is a statement for all behaviours. Code that
updates state in place is a class or a loop proved against a function of the old state, and
the run-level theorems are proved about those functions. Public keys are opaque values: the
base58 text of a 32-byte key is in one-to-one correspondence with it.

## Where the code does something other than expected

- The watcher has six exit tests, but a position starts with its high-water mark at entry and
  a snapback sells at the first price at or above entry, so profit lock, scale-out, hard stop and
  trailing stop are never reached (`ExitWatcher.RunIsReference`, alpha-whales/src/exits.rs:472-751).
- The comment on the panic guard speaks of a buy-settle dip; `pnl > -1500` restricts the panic exit
  to prices above 85% of entry, and clips open for extreme amounts (`ExitArithmetic.PanicGateIsExact`,
  `ExitWatcher.PanicFloorCanFail`).
- Expected proceeds are cast to u64 before slippage is taken. The minimum-out is the allowed share of the
  true proceeds if and only if they are below 2^64 (`SellPipeline.MinimumOutIsTrueShareExactly`); beyond, a
  sale may be refused (`SellPipeline.FloorCanBeLost`) or ask for less than its floor even when every amount
  is below 2^56 (`Lifecycle.OrdinaryFloorCanFail`, alpha-whales/src/exits.rs:1002-1021).
- A gain of 2^63 basis points or more can be booked as a loss, because the PnL is cast to i64
  (`Lifecycle.SnapbackBookedAsLoss`, alpha-whales/src/exits.rs:1322-1339); exactly when is
  `ExitArithmetic.GainIsNonNegativeExactly`.
- The sell loop rotates a tip index, but every retry opens a new client, so only the first tip
  account of a connection is ever paid (`SellPipeline.AttemptSellBundle`, alpha-whales/src/exits.rs:979-997).
- Positions bought through PumpPortal carry the pool text `pump`; no decoded swap has that pool, so
  their watcher never sees a price (`ExitWatcher.PumpPositionNeverSells`).
- The program's own shielded swap has 18 accounts and is read in the legacy layout, one place off; a
  transaction that carries one is refused whole when the market program has no balance entry (`DecoderInvariance.ShieldedSwapIsMisread`,
  `DecoderInvariance.ShieldedSwapIsNeverDecoded`).
- A notification that fails to decode loses events without a new epoch. Between two deliveries with equal
  epochs nothing was lost if and only if the failure counter stood still (`StreamEpoch.EqualEpochsLoseExactly`).
- A refusal after the mint lock was taken gives the lock back, with exactly two exceptions: a signal that
  expires after signing, and the pump path without a tip account. Both keep the mint locked for four hours
  although nothing was reserved (`ExecutionConsumerModule.LockKeptExactly`).
- An append that reaches the disk but reports a failure unlocks the mint and leaves an orphaned reservation.
  A start fails if and only if the file is too long or unreadable, holds a mint twice, or holds more capital
  than the ceiling, the orphan's included (`CrashRecovery.RestartsExactly`,
  `CrashRecovery.OrphanBlocksRestartExactly`). The mint is still submitted at most once.
- The pump path unwraps a missing tip account, which ends the task
  (`ExecutionConsumerModule.ExecutionConsumer.ProcessSignal`, alpha-whales/src/execution.rs:1711).
- The reservation counts the configured tip, not the bid, and no transaction fee on the Raydium path
  (alpha-whales/src/execution.rs:630-635, core/src/dispatcher.rs:590). It covers what its bundle pays if and
  only if bid and network fee together are within the configured tip and the fee that was counted
  (`ExecutionConsumerModule.SpendCoveredExactly`). A Raydium signal falls short when its bid exceeds the tip,
  and also when the bid equals the tip and the network charges anything
  (`ExecutionConsumerModule.ReservationCanFallShort`). With ordered percentiles and a profit share of at most
  100%, what all lifetimes spend is still within the ceiling, 1% of the submitted amounts and the network fees
  for which nothing was reserved (`ConsumerLoop.RunExecutionConsumer`).
- A watcher task gives its capacity slot back whatever became of the tokens
  (alpha-whales/src/exits.rs:550-567, 843-849): with the bag unsold if and only if the run is dry, the watcher
  ended without a sale, or its sale did not land (`SellPipeline.RunWatcherTask`).
- A signal of amount zero passes the tip gate when the median tip is zero and no net profit is required
  (`Tipping.ZeroProfitBidsExactly`), and its reservation cannot be read back
  (`ExecutionConsumerModule.WrittenIsReadableExactly`).
- `load` removes a writer lock it finds (alpha-whales/src/execution.rs:508-518), so a second executor on the
  same file holds the lock too whenever its load could remove the file (`ExecutionJournalModule.TwoWriters`).
- The consumer writes a landed row for any record it receives, rejected and expired ones included
  (alpha-whales/src/execution.rs:1847-1866): a bundle stands as landed if and only if it is confirmed or its
  record was received (`BundleTracking.LandedRowsExactly`, `BundleTracking.RejectedBundleHasLandedRow`).
- The tip can fall as the profit grows, at ten times the median, if and only if there is a step down there and
  the last profit before it bids (`Tipping.BidsMonotoneExactly`).
- A trip timestamp survives a win and a fresh losing streak when nobody queries in between, and can let
  trading through (`CircuitBreaker.StaleTripIsExact`).
- A stored Finalized status always has slot zero (`BundleTracking.EveryInterleavingIsConsistent`).

## Model

| member | source | states |
|---|---|---|
| `ExitWatcher.RunWatcher` | alpha-whales/src/exits.rs:376-751 | the loop over ticks, with all six exit tests in their order, attempts exactly the sales and ends exactly as the step function says, for every feed |
| `ExitWatcher.RunIsReference` | alpha-whales/src/exits.rs:472-751 | on every feed that machine equals one with two rules and no high-water mark, lock, scale-out or trail: same sales, same end, same final state |
| `ExitWatcher.WatcherRuns` | alpha-whales/src/exits.rs:376-607 | every run on a handed-over position, told by the ticks alone: until it stops every usable tick (own pool, two amounts, at most 30,000 ms old) was below entry and had not fallen below 87.98% of the one before while above 85% of entry, and fewer than twenty misses came in a row; it stops by selling the whole bag, once, at the amounts of a usable tick (at or above entry, or after a fall below 88%), on the twentieth miss, or on the closed channel; while it runs its state is the quiet one the feed determines |
| `ExitWatcher.SaleIsOnATick` | alpha-whales/src/exits.rs:421-458 | a sale is made on a tick of the position's pool at most 30,000 ms old, at WSOL lamports over token units of that tick, and every earlier such tick had quote times entry tokens below entry lamports times base |
| `ExitWatcher.StopsOnTick` | alpha-whales/src/exits.rs:544-568 | a usable tick below 87.98% of the previous price and above 85% of entry fires the panic exit whatever the rounding of the logarithm; a panic that fires is a justified sale |
| `ExitWatcher.ReferenceExplained` | alpha-whales/src/exits.rs:376-607 | the same from any previous price at or below entry and any stale count below twenty |
| `ExitWatcher.PanicFloorCanFail` | alpha-whales/src/exits.rs:544-568 | a run of a position of 2^62 lamports, which a reservation can hold, that panic-sells below 1% of entry because the i128 arithmetic clips |
| `ExitWatcher.PumpPositionNeverSells` | alpha-whales/src/execution.rs:2117-2170 | a position whose pool is the text `pump` never sells, on any feed |
| `ExitArithmetic.PanicGateIsExact` | alpha-whales/src/exits.rs:1322-1339 | below entry, PnL > -1500 bps if and only if the price is above 85% of entry or 1500 times the entry term exceeds 2^127 |
| `ExitArithmetic.SnapbackIsExact` | alpha-whales/src/exits.rs:573-607 | the checked 128-bit cross-multiplication decides `current >= entry` exactly for all u64 amounts |
| `ExitArithmetic.PanicPnlRange` | alpha-whales/src/exits.rs:1322-1339 | between 85% and 88% of entry the booked PnL is in [-1499, -1200] bps |
| `ExitArithmetic.LossIsNegativeExactly` | alpha-whales/src/exits.rs:1322-1339 | a price below entry is booked negative if and only if the loss is a whole basis point and the entry term fits i128 |
| `ExitArithmetic.GainIsNonNegativeExactly` | alpha-whales/src/exits.rs:1322-1339 | a price at or above entry is booked non-negative if and only if the gain overflows i128 or survives the cast to i64 |
| `SellPipeline.SlippageSchedule` | alpha-whales/src/exits.rs:1002-1011 | effective slippage is nondecreasing over the attempts and at most 5000 bps, 1000 when not an emergency |
| `SellPipeline.SlippageOfAttempt` | alpha-whales/src/exits.rs:1002-1011 | 3000, 4000, then 5000 bps for the two emergencies; otherwise the smaller of attempt times the configured slippage and 1000 |
| `SellPipeline.MinimumOutIsFloor` | alpha-whales/src/execution.rs:1446-1458 | at any slippage up to 100% the computation succeeds and is the exact share rounded down by less than one unit |
| `SellPipeline.ProceedsRoundDown` | alpha-whales/src/exits.rs:1013-1021 | the expected proceeds are the exact worth of the bag at the tick price, rounded down |
| `SellPipeline.ScheduleMonotone` | alpha-whales/src/exits.rs:1002-1032 | over attempts the tip never falls and is at least the minimum, and the minimum-out never rises |
| `SellPipeline.TipGrowsByHalf` | alpha-whales/src/exits.rs:1023-1032 | from attempt to attempt the tip grows by half up to rounding, until it saturates |
| `SellPipeline.TipsOfAttempts` | alpha-whales/src/exits.rs:1023-1032 | the five tips are the position's tip times 1, 3/2, 9/4, 27/8 and 81/16, rounded down, within 1000 lamports and the u64 maximum |
| `SellPipeline.AttemptSellBundle` | alpha-whales/src/exits.rs:949-1236 | the retry loop, with reconnects and the rotating tip index, submits exactly what independent attempts submit, each paying the first account of its own connection, and stops at the first acceptance or build error |
| `SellPipeline.SaleIsDecided` | alpha-whales/src/exits.rs:949-1236 | outcome and submissions by the network's answers alone: up to the first attempt that is accepted or fails to build, exactly the attempts with connection, blockhash, fetch and build are submitted, once each, in order, each paying the first tip account of its own connection; an acceptance is the last submission |
| `SellPipeline.SaleGoesThroughExactly` | alpha-whales/src/exits.rs:1206-1228 | a sale returns a given bundle id if and only if the bag is not empty, the first connection has tip accounts, and some attempt that could be submitted is answered with that non-empty id before any other is accepted or fails to build |
| `SellPipeline.MakeAttempt` | alpha-whales/src/exits.rs:1024-1204 | one pass of the loop body over a live connection; on a fresh connection it is the attempt by itself |
| `SellPipeline.SellInstructionReadsBack` | alpha-whales/src/exits.rs:1050-1074 | the bytes of a built sell instruction, shielded or not, offer the bag and ask for the minimum-out of its attempt; its accounts stand in order and the sentinel is among them if its prefix is right |
| `SellPipeline.SubmissionsOnSchedule` | alpha-whales/src/exits.rs:978-1074 | whatever the network does, every submission pays the tip of its attempt number, in increasing order; on the Raydium route the bytes of its instruction offer the bag and ask for that attempt's minimum-out, its seventeen accounts stand in order and it holds the sentinel whenever that has the right prefix; a PumpPortal submission has no instruction of its own |
| `SellPipeline.RetriesEscalate` | alpha-whales/src/exits.rs:978-1032 | of any two submissions of one sale the later tips no less, and on the Raydium route its bytes offer the same bag and ask for no more |
| `SellPipeline.ExitFloor` | alpha-whales/src/exits.rs:1002-1021 | for a position built from `amount_in`, every attempt of every sale asks for at least 90% of it (snapback) or half of 85% of it (panic), while proceeds fit u64 and the entry term does not clip |
| `SellPipeline.SnapbackMeetsFloor` | alpha-whales/src/exits.rs:573-607 | at or above entry the minimum-out is at least 90% of the spend at every attempt, while proceeds fit u64 |
| `SellPipeline.PanicMeetsFloor` | alpha-whales/src/exits.rs:544-568 | above 85% of entry the minimum-out is at least half of 85% of the spend at every attempt, while proceeds fit u64 |
| `SellPipeline.MinimumOutIsTrueShareExactly` | alpha-whales/src/exits.rs:1002-1021 | at every attempt the minimum-out is the allowed share of the true proceeds if and only if these fit u64 |
| `SellPipeline.SellBuildsExactly` | alpha-whales/src/exits.rs:1052-1066 | a Raydium sell instruction can be built if and only if the keys are valid, the user accounts are in order, the bag is not empty and the cast proceeds leave a lamport after slippage |
| `SellPipeline.FloorCanBeLost` | alpha-whales/src/exits.rs:1013-1021 | a concrete sale at no loss that is refused because its proceeds are cast to zero |
| `SellPipeline.PollConfirmation` | alpha-whales/src/exits.rs:821-841 | confirmed if and only if the first decisive answer is a success |
| `SellPipeline.ExecuteSellWithRetry` | alpha-whales/src/exits.rs:768-945 | success, streak and shadow release: nothing is booked unless a bundle was accepted and confirmed and the sale is final; mint locks are untouched |
| `SellPipeline.RunWatcherTask` | alpha-whales/src/exits.rs:271-751 | a whole watcher task: its slot always comes back, with the bag unsold if and only if the run is dry, the watcher ended without a sale or its sale did not land; shadow position and streak move exactly with the sale |
| `SellPipeline.ReasonFixesBooking` | alpha-whales/src/exits.rs:885-906 | in every run a confirmed panic extends the streak if and only if the entry term fits i128, and a confirmed snapback wipes it if and only if the gain survives the cast |
| `Lifecycle.OrdinaryExits` | alpha-whales/src/exits.rs:544-607 | with amounts below 2^56 every sale is at or above entry or strictly between 85% and 88% of it |
| `Lifecycle.OrdinaryFloor` | alpha-whales/src/exits.rs:1002-1021 | with amounts below 2^56 and proceeds below 2^64 every attempt of every sale meets its floor |
| `Lifecycle.OrdinaryFloorCanFail` | alpha-whales/src/exits.rs:1013-1021 | a run with amounts below 2^56 whose proceeds exceed u64, are cast to zero and miss the floor |
| `Lifecycle.OrdinaryBooking` | alpha-whales/src/exits.rs:885-906 | with amounts below 2^56 a confirmed panic has PnL in [-1499, -1200] and adds one to the streak; a confirmed snapback resets it if and only if its gain in bps survives the cast to i64, and so whenever that is below 2^63 |
| `Lifecycle.SnapbackBookedAsLoss` | alpha-whales/src/exits.rs:1322-1339 | a run with amounts below 2^56 whose snapback at a 10^15-fold gain is booked as a loss |
| `Lifecycle.SignalToExit` | alpha-whales/src/execution.rs:2095-2131 | from a handed-off signal with amounts below 2^56, through any feed and any network, on the route of its pool: only Raydium orders are sold, on the pool their quote named, and while proceeds are below 2^64 the bytes of every submission offer the bag and ask for the floor of the signal's own amount, with at least the minimum tip |
| `Lifecycle.OrderIsOfSignal` | alpha-whales/src/execution.rs:1603-1610 | a handed-off order has the signal's mint and amount, the pool of the quote or none, and 250, 200, 150, 100 or the configured slippage by lane; its signal was within the allowed age |
| `JournalReplay.ReplayIndexesReservations` | alpha-whales/src/execution.rs:531-612 | a successful replay indexes a mint if and only if the file holds a reservation of it |
| `JournalReplay.ReplayIsOkExactly` | alpha-whales/src/execution.rs:531-600 | a file replays if and only if every line is readable, no mint is reserved twice and the capital of all reservation lines fits u64; the index then holds exactly that capital |
| `JournalReplay.LoadsExactly` | alpha-whales/src/execution.rs:519-612 | a start succeeds if and only if moreover the file is within its size limit and its capital within the ceiling, and then holds exactly the reserved mints and capital |
| `JournalReplay.ReservationRefines` | alpha-whales/src/execution.rs:618-659 | a reservation that passed the checks replays if and only if its amount, time and texts are non-empty, and then to exactly the index kept in memory |
| `JournalReplay.ReserveChecksExactly` | alpha-whales/src/execution.rs:627-642 | the checks admit a request if and only if its mint is new and the reserved capital plus its four parts is within the ceiling; a known mint, a sum of 2^64 or more, and a sum above the ceiling each have their own error |
| `JournalReplay.ReadableExactly` | alpha-whales/src/execution.rs:531-597 | a line reads back if and only if it is blank, or a version 1 record with a mint, no zero amount, capital or time, and no empty text |
| `ExecutionJournalModule.ExecutionJournal.Load` | alpha-whales/src/execution.rs:502-612 | the loop over the file yields exactly the replayed index or the first error, and never writes to the log |
| `ExecutionJournalModule.ExecutionJournal.Append` | alpha-whales/src/execution.rs:702-721 | all three endings of an append: written, not written, written but reported as failed |
| `ExecutionJournalModule.ExecutionJournal.AcquireWriterLock` | alpha-whales/src/execution.rs:661-686 | the lock is obtained once per process and only when the file does not exist; a failed sync leaves the file behind |
| `ExecutionJournalModule.ExecutionJournal.Reserve` | alpha-whales/src/execution.rs:618-659 | succeeds if and only if the mint is new, amount, tip, fee and rent fit under the ceiling with what is reserved, the lock is held or can be created, and the append is durable; which error stands for which failure; the index changes exactly on success, the file also on an unacknowledged append |
| `ExecutionJournalModule.ExecutionJournal.RecordAcceptance` | alpha-whales/src/execution.rs:688-700 | appends the acceptance line and nothing else |
| `ExecutionJournalModule.TwoWriters` | alpha-whales/src/execution.rs:508-518 | of two executors on one file the second holds the writer lock as well if and only if its load could remove the lock file |
| `CrashRecovery.NextIsSafe` | alpha-whales/src/execution.rs:1548-1801 | every step of the journal protocol, including a crash between any two, keeps the safety and capital invariants |
| `CrashRecovery.AtMostOnce` | alpha-whales/src/execution.rs:1772-1813 | over every sequence of signals, crashes and restarts on one file, with any append faults and a ceiling of its own at each start: no mint is submitted twice, each submission follows a reservation of its mint in the file, and while a task runs the capital of all submissions of all lifetimes is within its index and its ceiling |
| `CrashRecovery.StepsStayUnder` | alpha-whales/src/execution.rs:618-659 | between two starts the submitted capital stays under the ceiling, also when the task has died |
| `CrashRecovery.SpendWithinOnePercent` | alpha-whales/src/execution.rs:1612-1641 | when bids are within 1% of the amounts, total spend, network fees included, is within reserved capital plus 1% of all amounts plus the network fees for which nothing was reserved |
| `CrashRecovery.NextRefines` | alpha-whales/src/execution.rs:618-700 | every all-or-nothing step keeps the index equal to the replay, or one written reservation behind |
| `CrashRecovery.IndexRefinesReplay` | alpha-whales/src/execution.rs:618-659 | so in every clean run |
| `CrashRecovery.CrashAndRestart` | alpha-whales/src/execution.rs:502-612 | after a crash anywhere in a clean run, a restart succeeds if and only if the file is within its size limit, and holds the old index plus the one reservation written but not committed |
| `CrashRecovery.RestartsExactly` | alpha-whales/src/execution.rs:502-612 | after a crash anywhere in any run, with any inputs and append faults, a start succeeds if and only if the file fits its limit, is readable, holds no mint twice and no more capital than the ceiling; it then holds exactly what was appended |
| `CrashRecovery.OrphanBlocksRestartExactly` | alpha-whales/src/execution.rs:702-721 | after an unacknowledged append and a later submission a start fails if and only if both name one mint, their capital exceeds the ceiling, or their records do not fit |
| `ExecutionConsumerModule.Refusal` | alpha-whales/src/execution.rs:1556-1793 | a signal is refused if and only if one of fourteen gates, each described by itself, is shut, and the first shut one names the reason |
| `ExecutionConsumerModule.VerdictMeans` | alpha-whales/src/execution.rs:1554-1808 | a signal is submitted if and only if the streak is below three or its cooldown of 1,800,000 ms is over, the mint is new and unlocked for 14,400,000 ms, a slot is free, the tip rule bids, some region has a tip account, the route yields a bundle, the signal has a time within the allowed age, no signal of its mint, wallet and second was committed, and its reservation fits and is written; Expired, DuplicateOpportunity and NotReserved name the one that failed; a handoff needs the recorded acknowledgement and carries the signal's own order |
| `ExecutionConsumerModule.CommitmentExactly` | alpha-whales/src/execution.rs:1738-1793 | of a prepared signal: expired if and only if its time is zero or too old, duplicate if and only if mint, wallet and second were seen, not reserved if and only if mint, ceiling, lock or append refuse |
| `ExecutionConsumerModule.ExecutionConsumer.Admit` | alpha-whales/src/execution.rs:1556-1604 | breaker, mint, journal, capacity and duplicate gates, with their effect on breaker, permits and lock table |
| `ExecutionConsumerModule.ExecutionConsumer.ClaimSlot` | alpha-whales/src/execution.rs:1580-1604 | a permit is taken before the lock is tried and dropped when the lock refuses; a full pool leaves the lock table untouched |
| `ExecutionConsumerModule.ExecutionConsumer.Prepare` | alpha-whales/src/execution.rs:1616-1737 | tip gate, route, tip account and signing, and the bid the bundle pays; the rotation moves exactly when a tip account is asked for |
| `ExecutionConsumerModule.ExecutionConsumer.ReserveAndSubmit` | alpha-whales/src/execution.rs:1772-1808 | file, index and submissions take exactly the crash-model steps append, commit, submit with the bid, record; nothing is submitted that was not reserved |
| `ExecutionConsumerModule.ExecutionConsumer.ProcessSignal` | alpha-whales/src/execution.rs:1554-1808 | one signal up to its handoff: the verdict, the whole new state of journal, breaker, permits, locks, deduplicator and rotation, and the crash-model steps it amounts to, bid included |
| `ExecutionConsumerModule.UnlockedMeansUnreserved` | alpha-whales/src/execution.rs:1594-1793 | a submitted mint stays locked and indexed; an unlocked one left no reservation in the file, except if and only if an append was unacknowledged |
| `ExecutionConsumerModule.LockKeptExactly` | alpha-whales/src/execution.rs:1633-1793 | a refusal after the lock was taken leaves the mint locked if and only if the signal expired after signing or the pump path found no tip account; nothing is written then |
| `ExecutionConsumerModule.SpendCoveredExactly` | alpha-whales/src/execution.rs:618-659 | a submitted signal reserves its amount, the configured tip, no fee on Raydium and 100,000 elsewhere, and the quoted rent or 2,039,280; that covers amount, bid, network fee and rent if and only if bid and network fee are within the configured tip and the fee that was counted |
| `ExecutionConsumerModule.ReservationCanFallShort` | alpha-whales/src/execution.rs:618-659 | for any bid up to a million lamports and any network fee, a Raydium signal under the least accepted tip passes every gate, and pays more than was reserved if and only if bid and fee exceed that tip |
| `ExecutionConsumerModule.BidWithinOnePercent` | alpha-whales/src/execution.rs:1612-1632 | on ordered percentiles and a profit share within 100% what a signal bids is at most 1% of its amount |
| `ExecutionConsumerModule.WrittenIsReadableExactly` | alpha-whales/src/execution.rs:618-700 | what a signal writes can be read back if and only if its amount is non-zero and its signature, blockhash and bundle id are not empty |
| `ExecutionConsumerModule.StepsAreClean` | alpha-whales/src/execution.rs:1490-1518 | a signal with a non-zero amount and non-empty texts takes only clean steps; its time is non-zero because it was fresh |
| `ConsumerLoop.EndTasks` | alpha-whales/src/exits.rs:851-906 | tasks that end give back exactly the permits they hold, and each final sale releases the shadow position of its mint and is booked |
| `ConsumerLoop.HandleSignal` | alpha-whales/src/execution.rs:1554-2001 | after each signal the permits held are those of the running tasks, one more exactly for a handoff |
| `ConsumerLoop.Serve` | alpha-whales/src/execution.rs:1554-2005 | the same over the whole loop: free permits, running tasks and shadow positions add up to three, file, index and submissions follow the crash model, and submitted capital stays under the ceiling |
| `ConsumerLoop.RunExecutionConsumer` | alpha-whales/src/execution.rs:1533-2005 | one lifetime after any history of lifetimes on the same file: no mint submitted twice over all of them, each submission after its reservation, held permits equal running tasks; once the file loads, the capital of all submissions of all lifetimes is within the ceiling and, with ordered tip percentiles, their spend within the ceiling, 1% of the amounts and the unreserved network fees; the file replays again when every append was all or nothing |
| `MintLock.TableAgrees` | core/src/state.rs:95-115 | the pruned table agrees with a per-mint register of the last standing lock |
| `MintLock.LockIsExact` | core/src/state.rs:95-109 | an attempt succeeds if and only if the mint was never locked, was unlocked since, or was locked four hours ago |
| `MintLock.LockWindow` | core/src/state.rs:95-115 | two successes on one mint with no unlock between are at least four hours apart |
| `CircuitBreaker.StreakMeaning` | core/src/state.rs:210-248 | the streak counts the losing closes since the last win or expired cooldown |
| `CircuitBreaker.BlockedNeedsThreeLosses` | core/src/state.rs:210-248 | a query blocks only after three of them |
| `CircuitBreaker.CooldownBlocks` | core/src/state.rs:210-248 | after a trip at t and until a win, a query blocks if and only if it is before t plus thirty minutes |
| `CircuitBreaker.CooldownReopens` | core/src/state.rs:210-248 | the first later query passes and resets streak and timestamp |
| `CircuitBreaker.StaleTripIsExact` | core/src/state.rs:210-248 | after a win and a fresh streak with no query between, the first query blocks if and only if the old timestamp is absent or inside its cooldown |
| `CircuitBreaker.QueryClearsStaleTrip` | core/src/state.rs:210-248 | one query before the third loss restores the blocking |
| `PermitPool.StepConserves` | core/src/state.rs:130-179 | every operation keeps available, held and retained permits at three, each permit in one place |
| `PermitPool.RunConserves` | core/src/state.rs:130-179 | so in every run in which tasks pass on only permits they hold |
| `PermitPool.PruneFreesExactly` | core/src/state.rs:174-179 | pruning frees one permit per expired entry and keeps every other entry |
| `BotStateModule.BotState.TryLockMint` | core/src/state.rs:95-109 | result and new table of an attempt |
| `BotStateModule.BotState.UnlockMint` | core/src/state.rs:112-115 | the mint alone is removed |
| `BotStateModule.BotState.TryAcquirePosition` | core/src/state.rs:130-132 | None if and only if no permit is free; otherwise a permit nobody holds |
| `BotStateModule.BotState.OpenPositionCount` | core/src/state.rs:135-137 | the subtraction does not underflow and counts held plus retained permits |
| `BotStateModule.BotState.RetainShadowPosition` | core/src/state.rs:143-162 | a permit moves to the shadow entry, or is freed when the mint has one already |
| `BotStateModule.BotState.ReleaseShadowPosition` | core/src/state.rs:168-170 | the entry's permit is freed, or nothing happens |
| `BotStateModule.BotState.PruneExpiredShadowPositions` | core/src/state.rs:174-179 | frees exactly the expired entries' permits |
| `BotStateModule.BotState.IsCircuitBreakerActive` | core/src/state.rs:210-248 | answer and new breaker state of a query |
| `BotStateModule.BotState.BookClose` | alpha-whales/src/exits.rs:892-906 | the streak moves by the sign of the PnL and the timestamp does not |
| `TipRotation.ChoiceMeaning` | core/src/dispatcher.rs:393-408 | the scan takes the first region with accounts after the cursor, or none if and only if all are empty |
| `TipRotation.RoundRobinIsFair` | core/src/dispatcher.rs:271-275 | over any number of calls, uses of any two regions with accounts, and of any two accounts of a region, differ by at most one |
| `DispatcherModule.RegionClient.TakeTipAccount` | core/src/dispatcher.rs:271-275 | the account at the cursor, and the cursor moves around the ring |
| `DispatcherModule.BundleDispatcher.TakeTipAccount` | core/src/dispatcher.rs:393-408 | the loop over regions makes one step of the rotation; None if and only if no region has an account |
| `DispatcherModule.OpportunityDeduplicator.TryAcquire` | core/src/dispatcher.rs:178-186 | acquired if and only if the key was unseen, and seen afterwards |
| `DispatcherModule.OpportunityDeduplicator.Prune` | core/src/dispatcher.rs:190-194 | keeps exactly the keys not older than the lifetime |
| `Tipping.AcceptTelemetry` | core/src/tipping.rs:282-286 | accepted percentiles are ordered |
| `Tipping.BidBounds` | core/src/tipping.rs:190-262 | every bid is within p95, the profit share, a quarter of the profit from ten medians on, leaves the minimum profit, and loses nothing in the cast |
| `Tipping.BidIsGreatestWithinCaps` | core/src/tipping.rs:232-250 | the bid is the greatest amount within every cap that applies: its bucket's percentile, a quarter of the profit in the top bucket, the profit share |
| `Tipping.BidsExactly` | core/src/tipping.rs:190-262 | the rule bids if and only if the telemetry is not older than allowed, the profit is at least two medians, and what is left after the greatest amount within the caps meets the required net profit; then it bids that amount |
| `Tipping.ZeroProfitBidsExactly` | core/src/tipping.rs:190-262 | a profit of zero bids if and only if the telemetry is fresh, the median is zero and no net profit is required |
| `Tipping.ConsumerBidWithinOnePercent` | alpha-whales/src/execution.rs:1612-1632 | the consumer's bid is at most 1% of the trade |
| `Tipping.BidsMonotoneExactly` | core/src/tipping.rs:190-262 | for any share and any minimum profit, bids are nondecreasing in the expected profit if and only if there is no step down at ten medians or the last profit before it does not bid |
| `Tipping.BidsMonotoneWhenP75IsLow` | core/src/tipping.rs:190-262 | in particular whenever twice p75 is at most five medians |
| `Tipping.TipTelemetryEngine.Refresh` | core/src/tipping.rs:111-165 | a good fetch overwrites the snapshot, a bad or unordered one keeps it |
| `StreamEpoch.EpochsGrow` | core/src/websocket.rs:652-678 | epochs never fall, and stay equal between two points if and only if no gap lies between |
| `StreamEpoch.EqualEpochsMeanNoGap` | core/src/websocket.rs:652-678 | two delivered events carry equal epochs if and only if no reconnect and no full-queue drop fell between them |
| `StreamEpoch.EqualEpochsLoseExactly` | core/src/websocket.rs:652-720 | between two deliveries with equal epochs nothing was lost if and only if every notification between them decoded, that is if the failure counter stood still; the queue dropped nothing |
| `StreamEpoch.DecodeFailureLeavesNoMark` | core/src/websocket.rs:680-720 | a run with an undecodable notification between two deliveries of one epoch |
| `StreamEpoch.SwapListener.EnqueueDecodedSwap` | core/src/websocket.rs:652-678 | filters, stamp, delivery or drop, and all counters |
| `StreamEpoch.SwapListener.Reconnect` | core/src/websocket.rs:777 | a reconnect opens an epoch and changes nothing else |
| `BundleTracking.EveryInterleavingIsConsistent` | core/src/bundle_tracker.rs:175-233 | in every interleaving of registrations, two-phase results, pruning and receives: each channel is empty while pending and afterwards holds exactly the stored record, the tracker's own landed rows belong one to one to confirmed bundles, a finalized status has slot zero |
| `BundleTracking.LandedRowsExactly` | alpha-whales/src/execution.rs:1840-1866 | in every interleaving a bundle has a landed row, written by tracker or consumer, if and only if it is confirmed or its record was received, and all its rows agree with the stored record |
| `BundleTracking.RejectedBundleHasLandedRow` | alpha-whales/src/execution.rs:1847-1866 | a run in which a rejected bundle stands as landed at slot zero |
| `BundleTracking.StatusSettlesOnce` | core/src/bundle_tracker.rs:199-233 | a bundle leaves Pending at most once, and then record and inbox never change again |
| `BundleTracking.NextKeeps` | core/src/bundle_tracker.rs:445-575 | every locked section of every task keeps the invariant |
| `BundleTracking.ResultMeans` | core/src/bundle_tracker.rs:445-551 | the six results on a pending bundle: accepted and processed become Landed with the result's slot and a landed row at that slot, finalized becomes Finalized at slot zero with a row at zero, rejected and dropped keep their reason and write no row, an empty result changes nothing; no other bundle changes |
| `BundleTrackerModule.BundleTracker.RegisterBundle` | core/src/bundle_tracker.rs:175-188 | a known id keeps its record and the caller gets a channel that stays empty |
| `BundleTrackerModule.BundleTracker.UpdateStatus` | core/src/bundle_tracker.rs:199-233 | terminal records are left alone; otherwise status, landed row and notification change together |
| `BundleTrackerModule.BundleTracker.ProcessBundleResult` | core/src/bundle_tracker.rs:445-551 | an uninterrupted call amounts to the steps of its result, whose effect is `BundleTracking.ResultMeans` |
| `BundleTrackerModule.BundleTracker.AwaitLanding` | alpha-whales/src/execution.rs:1840-1884 | a record received in time is written as a landed row whatever its status; a timeout or closed channel writes nothing |
| `BundleTrackerModule.BundleTracker.PruneExpired` | core/src/bundle_tracker.rs:554-575 | exactly the pending bundles submitted more than 120,000 ms ago become Expired |
| `RaydiumSwap.LeRoundTrip` | alpha-whales/src/execution.rs:1043-1046 | little-endian amounts read back as written |
| `RaydiumSwap.AmountsRoundTrip` | alpha-whales/src/execution.rs:1043-1046 | the data of a built swap is 17 bytes and gives back both amounts |
| `RaydiumSwap.BuiltStandsInOrder` | alpha-whales/src/execution.rs:1047-1075 | the seventeen accounts of a built swap, place by place: key, signer and writable flag; source at 14, destination at 15, the owner alone signs at 16 |
| `RaydiumSwap.ConstructsExactly` | alpha-whales/src/execution.rs:991-1041 | a swap can be built if and only if the pool keys are valid, both amounts are above zero, and owner, source and destination are distinct, not default, with neither token account a vault |
| `RaydiumSwap.ValidKeysExactly` | core/src/pool_cache.rs:182-210 | pool keys are valid if and only if none of the sixteen is the default key |
| `RaydiumSwap.ProtectIsIdempotent` | alpha-whales/src/execution.rs:163-190 | protecting twice is protecting once; the sentinel is present and every account keeps its place |
| `RaydiumSwap.PendingInstruction.ApplyJitodontfrontProtection` | alpha-whales/src/execution.rs:163-190 | the in-place append does exactly that, and an error leaves the accounts as they were |
| `SwapDecoder.AccountIndexForPubkey` | core/src/websocket.rs:423-441 | an index if and only if the key stands exactly once among valid keys |
| `SwapDecoder.UniqueTokenBalance` | core/src/websocket.rs:443-470 | a balance if and only if exactly one well-formed entry names the index, counted in the multiset of entries |
| `SwapDecoder.VaultReadIsUnique` | core/src/websocket.rs:443-488 | a vault has at most one reading |
| `SwapDecoder.ReadVault` | core/src/websocket.rs:578-594 | the reading of a vault when pre and post agree on the mint, an error only when there is none |
| `SwapDecoder.DecodeCandidate` | core/src/websocket.rs:577-619 | an event explained by its own two vaults, or an error only when no event is |
| `SwapDecoder.CollectCandidates` | core/src/websocket.rs:520-548 | the nested loops collect exactly the swaps, outer ones first and then inner groups, or fail when any instruction fails |
| `SwapDecoder.FindConflict` | core/src/websocket.rs:550-563 | true if and only if two swaps share a pool or a vault |
| `SwapDecoder.DecodeNotification` | core/src/websocket.rs:508-622 | the events the specification allows, or an error exactly when it allows none |
| `DecoderInvariance.ReadsExactly` | core/src/websocket.rs:356-421 | an instruction is read as a given swap if and only if it calls Raydium, by text or by place, its data is at most 64 bytes and starts with 9 or 11, it has 17 or 18 accounts, account 0 names the token program, accounts 1 and 4, 5 (or 5, 6) name the three keys, distinct and not default, and its place fits u8; it is passed over if and only if it calls no program, another one, or Raydium with other data |
| `DecoderInvariance.SitesExactly` | core/src/websocket.rs:520-548 | the instructions examined are exactly the outer ones, each at its own index, then those of the inner groups; a group of an absent outer instruction is an error |
| `DecoderInvariance.DecodesExactly` | core/src/websocket.rs:508-622 | a notification decodes if and only if it succeeded, its first signature is valid and the named one, both balance lists are there, every instruction is a readable swap or none, no two swaps share a pool or a vault, and the balances explain an event for each |
| `DecoderInvariance.DecodingIsUnique` | core/src/websocket.rs:508-622 | a notification decodes to at most one list of events |
| `DecoderInvariance.EventsFollowInstructions` | core/src/websocket.rs:508-622 | events stand one to one, in order, for exactly the instructions that are swaps, each naming its place; every other instruction is none |
| `DecoderInvariance.NoBalanceFeedsTwoEvents` | core/src/websocket.rs:550-563 | two events have different pools and read different account indices |
| `DecoderInvariance.EventMeaning` | core/src/websocket.rs:577-606 | each amount is the absolute change of its vault, non-zero, in opposite directions, one of WSOL and the other of the named target; the event carries the first signature, the slot and the time of observation |
| `DecoderInvariance.BalanceOrderIsIrrelevant` | core/src/websocket.rs:443-470 | permuting either balance list changes neither success nor events |
| `DecoderInvariance.VaultOrderIsIrrelevant` | core/src/websocket.rs:577-606 | exchanging base and quote vault in any of the swaps changes neither success nor events |
| `DecoderInvariance.BuiltSwapDecodes` | core/src/websocket.rs:382-420 | a built 17-account swap decodes to its pool and vaults if and only if the three are distinct |
| `DecoderInvariance.ShieldedSwapIsMisread` | core/src/websocket.rs:382-420 | with the sentinel appended the quote vault and the market program stand in the vault places |
| `DecoderInvariance.UnlistedVaultIsNeverDecoded` | core/src/websocket.rs:508-622 | a transaction with a swap whose quote vault has no balance entry is refused whole |
| `DecoderInvariance.ShieldedSwapIsNeverDecoded` | core/src/websocket.rs:508-622 | a transaction carrying the program's own shielded swap anywhere is refused whole when the market program has no balance entry, and always when the misread accounts coincide |

## Left out

- alpha-dbo: near copies of the modelled files, outside the workspace members.
- Connections, gRPC, HTTP, WebSocket and Geyser streams, PumpPortal, Telegram, the webhook server: they enter only as answers the environment may give.
- Signing, message compilation, address lookup tables, bincode, base58 and key derivation: keys, signatures and blockhashes are opaque values.
- JSON parsing and serialization: records, notifications and telemetry are modelled as parsed values, with unparsable ones as their own case.
- SQLite: only the landed rows are kept, those of the tracker and those of consumers, as lists; timestamps, the positions table and trade logs are not.
- Configuration, pool lookup and on-chain pool verification, quote validation and user-account checks: they decide only whether a signal has a route.
- Wall-clock arithmetic: time is an unbounded number; the four-hour watcher deadline is a run on a prefix of the feed.
- Wrap-around of the stream epoch and of the counters at 2^64.
- Rounding of floating point: the log velocity at the panic threshold is a free bit for the prices between its two roundings, the EMA-driven trail is any value in [3%, 20%], the scale-out multiple and the 1.5-fold tip scale are exact, and the trade size arrives in lamports.
- Torn writes and several processes on one journal: an append writes its whole record or nothing, and may report failure after writing.
- The consumer's wait for its bundle is a step of BundleTracking and a method of the tracker, not part of ProcessSignal; the slot and region it hands to the positions table, and the on-chain confirmation after it, are not modelled.
- Which error a rejected notification reports: only that it is rejected.
- `remove_bundle` and the polling and subscription loops of the bundle tracker.
- `connect_all`, `fan_out_submit` and region health in the dispatcher: a fan-out is one submission with or without an acknowledgement.
- ConsumerLoop.RunExecutionConsumer: a crash inside the handling of one signal is not an input of this method; CrashRecovery.AtMostOnce covers a crash between any two steps.

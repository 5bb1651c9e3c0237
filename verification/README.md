# Verification of the market back end

A Dafny model of the parts of this repository whose correctness does not show in any single function body: the
reorg-safe indexer and its store, the two realtime transports, the tick and price arithmetic, exact rational USD
amounts, keyset pagination and the image container walkers. `dafny verify dfyconfig.toml` checks all of it.

## What is modelled

**The indexer.** `ChainData` says what a hash determines (`World`: the block that has it and the logs it holds,
ordered and each with an index of its own) and what a linked chain is. `Store` has one map per table and one function
per transaction; `PostgresStore` is the store as an object whose methods loop over rows and take effect whole or not
at all; `Indexer` drives it from a node (`CanonicalRpc`) that may answer every call differently. The only assumption
about a node that answers as it likes is that a block is determined by its hash: `RepeatedHashLosesHeight` shows what
the upsert by hash would do without it. A node *holds still* when, from some call on, it answers from one chain. A
removed market takes its pool cursor with it because the foreign key cascades
(`backend/migrations/007_direct_pancake_v3_trades.sql:47-48`), and tokens and engine records are unique
(`backend/migrations/001_init.sql:71-73`).

The results are, in the order in which they build on each other: the tables agree with a chain of canonical blocks in
every reachable state (`StoreInvariants`, `StoreRuns`), and `StoreEffects` says what each transaction leaves in them;
what the store shows after any honest history is what a fresh index of its chain shows (`ReorgEquivalence`); the
canonical trades are the swaps of the scanned blocks, unless an orphaned block comes back (`TradeJournal`); and
`QuoteIndexer.SyncAttempt` has all of this as its contract, which `FollowNode` carries over any sequence of polls of a
node that changes between them. `PoolScans` says when the scan of the pools succeeds.

**Realtime delivery.** `RealtimeHub` and `SseStream` make every `await` a step boundary and keep the history of what
each client asked for and was sent. Clients, reads that succeed or fail, commits, slow sockets and full queues
interleave freely. `RealtimeOrder` says when the hub's events come in order and each once, `RealtimeLoss` when one can
be lost.

**Arithmetic, pages and containers.** `TickMath`, `PriceRange` and `EligibilityTicks` are the tick ratio, its inverse
and the price range; `Rationals`, `Eligibility`, `DecimalText` and `PancakeTrades` are the exact ratios and what is
computed with them; `Pagination` is the cursor predicate against the order of the query; `ImageContainers` walks
bytes.

## What turned out false

- A price range may start or end outside the ticks: its upper tick, for token1, below the lowest one exactly when the
  price's tick is below the lowest usable tick, and its lower tick, for token0, above the highest one exactly when the
  price's tick is above the highest usable tick (`PriceRange.FloorIsTick`, `CeilIsTick`, `RangeIsTicksExactly`; inputs in
  `UpperBoundaryCanLeaveTickRange` and `LowerBoundaryCanLeaveTickRange`). Within these bounds the range lies on its side
  of the price, except that a token0 range starts below it exactly when the tick is aligned and the price is off it
  (`PriceRange.LowerBoundaryAtOrAbovePrice`; an input in `LowerBoundaryCanLieBelowPrice`).
- A trade that is orphaned is never canonical again, because its insertion does nothing on conflict where blocks, raw
  logs and facts are revived: a scan leaves the trades complete exactly when it meets no orphaned row
  (`TradeJournal.FillKeepsJournal`, `OrphanedTradeStays`, `ReturningBlockLosesTrades`). `LostTrade.TheTradeIsLost` is
  such a history, step by step.
- Following pages loses a row exactly when two rows share sort value and launch id (`Pagination.PagesAreExact`,
  `TwoLaunchpadsLoseARow`): launch ids are unique per launchpad only.
- The hub may send events twice and out of order. It does so exactly when a replay or a broadcast is about to send a
  first row at or below what the client was sent last (`RealtimeOrder.RunOrder`); for a client that only asks when it
  joins, exactly when a broadcast reaches it before its replay starts to send (`OrderOfOneAsk`), and for one that asks
  again, also when it asks from below what it was sent (`ForwardOrder`, `AskingBackRepeats`). `SentTwice` is an input.
- The hub may lose an event for a client that asks again while an older replay of it, which starts above the new
  position and beyond the end of the outbox, has not read yet. Whether some continuation of an ask loses an event is
  decided by that, unless the client is told to resync anyway (`RealtimeLoss.AskSafeExactly`, `SafeExactly`).
  `AskingAheadLoses` is an input.
- The resync frame is never sent once the replay limit is a thousand or more, since reads are cut at a thousand rows,
  although the limit may be configured up to five thousand (`SseStream.OverflowExactly`).
- The animation check takes the flags of a VP8X chunk without data from the chunk that follows, and reads them from a
  header shorter than the ten bytes of section 2.7 of RFC 9649. It reports a still image as animated exactly when such a
  short header seems flagged (`ImageContainers.MisreadExactly`; inputs in `EmptyHeaderMisread` and `ShortHeaderMisread`).

## Model

| member | source | states |
|---|---|---|
| ChainData.FirstStartBlock | backend/src/indexer/registry.ts:66-68 | the least start block of the registry |
| ChainData.ActiveEntry | backend/src/indexer/registry.ts:70-78 | the last version of a contract that has started at a block, and none exactly when none has |
| ChainData.RegistryFilterLosesNothing | backend/src/indexer/indexer.ts:122-127 | asking the node for registered addresses and topics over a range loses no log the registry follows |
| ChainData.TrackedExactly | backend/src/indexer/indexer.ts:290-298 | a log is tracked exactly when the version of its contract that rules at its block declares its topic, or it is a swap of a tracked pool |
| ChainData.OrderedUnique | backend/src/domain/reorg.ts:14-19 | a sequence strictly ordered by the log comparison is determined by the set of its logs |
| ChainData.CompareIsLexicographic | backend/src/domain/reorg.ts:14-19 | a log compares below another exactly when its block is lower, or in one block its transaction index, or there its log index, or there its transaction hash |
| ChainData.HashLinking | backend/src/indexer/indexer.ts:210-240 | parent links carry agreement of two chains at one height down to every height below |
| LogValidation.ValidateAndDecodeLogs | backend/src/indexer/indexer.ts:263-299 | a response is accepted exactly when all logs are in range, none is removed and no two tracked logs claim one block number, transaction and index; the result holds exactly the tracked logs, each once, with rising block numbers, transaction indices within a block and log indices within a transaction |
| LogValidation.ResponseOrderAndRepetition | backend/src/indexer/indexer.ts:269-288 | permuting or repeating the response changes neither whether it is accepted nor what it is read as |
| LogValidation.GroupLogsByBlock | backend/src/indexer/indexer.ts:329-337 | each block's group is the subsequence of its logs |
| LogValidation.GroupingKeepsEveryLog | backend/src/indexer/indexer.ts:329-337 | grouping keeps every log as often as it came and only under its own block |
| LogValidation.DedupeLogs | backend/src/domain/reorg.ts:21-29 | the loop keeps the first log of each identity of the sorted list, and no log comes after one that it precedes |
| LogValidation.FirstOfEachIsOrdered | backend/src/domain/reorg.ts:21-29 | what is kept is ordered, has distinct identities and invents nothing |
| LogValidation.FirstOfEachKeepsLeast | backend/src/domain/reorg.ts:21-29 | every log is represented by one of its identity that comes no later |
| ForkPoint.SearchFindsForkPoint | backend/src/indexer/indexer.ts:220-231 | the first agreement on the way down is the top of the longest common prefix, and nothing above it is on the other chain |
| ForkPoint.SearchFailsOnlyBeyondHistory | backend/src/indexer/indexer.ts:214-232 | no agreement is met down to the oldest retained height exactly when the chains differ there |
| ForkPoint.FindCommonAncestor | backend/src/domain/reorg.ts:31-41 | the highest replacement block that the last canonical block of its hash matches in height, or none |
| ForkPoint.CommonAncestorIsForkPoint | backend/src/domain/reorg.ts:31-41 | on two linked chains listed in any order the helper finds the block at which the indexer's search stops |
| ForkPoint.AssertContiguous | backend/src/domain/reorg.ts:43-56 | a list is accepted exactly when some arrangement of it is a contiguous chain on the expected parent, and that arrangement is returned; the parent is blamed only when the lowest block is not on it |
| ForkPoint.ContiguousIsSorted | backend/src/domain/reorg.ts:43-56 | a contiguous arrangement is the only way to sort its blocks by height |
| StoreInvariants.ChainSafety | backend/src/indexer/postgres-store.ts:164-219 | the canonical blocks are one linked chain from the baseline to the cursor, and canonical rows belong to its blocks |
| StoreInvariants.InsertMarketKeeps | backend/src/indexer/postgres-store.ts:437-486 | the market table and the outbox fold gain a launched market together |
| StoreInvariants.CommitBlockKeeps | backend/src/indexer/postgres-store.ts:164-219 | a commit keeps every table's invariant on the chain one longer and adds one outbox row for each log, in order: no dedupe key suppresses one |
| StoreInvariants.CommitBlockAnnounces | backend/src/indexer/indexer.ts:301-312 | the rows that a commit appends stand in the order of its logs, each under the key of its log and generation: a launch as such with its market, any other event with its contract |
| StoreInvariants.RollbackKeeps | backend/src/indexer/postgres-store.ts:243-378 | a rollback keeps every invariant on the chain cut at the ancestor and appends the reorg row and one removal row for each removed market, in their order |
| StoreInvariants.AnnounceRemovals | backend/src/indexer/postgres-store.ts:358-376 | the removal rows take exactly the removed markets out of the fold; the next generation's keys are all free |
| StoreInvariants.BackfillLogKeeps | backend/src/indexer/postgres-store.ts:227-231 | a backfilled log, whatever the node said, is stored only with a canonical block and keeps every invariant |
| StoreInvariants.BackfillKeeps | backend/src/indexer/postgres-store.ts:221-241 | a backfill up to the cursor keeps every invariant |
| StoreInvariants.InitializeKeeps | backend/src/indexer/postgres-store.ts:91-108 | starting from an empty store establishes the invariant on the baseline alone |
| StoreEffects.CommitRecords | backend/src/indexer/postgres-store.ts:164-219 | a commit extends the cursor by one linked block and keeps the greatest observed head; every log has a canonical raw row, every claim a canonical fact with valid arguments and every launch a market, whose new rows tell the launch, its block and where its log stands; trades and pools stay |
| StoreEffects.CommitFailsForALog | backend/src/indexer/postgres-store.ts:164-219 | a commit of the next block fails only at a first log that is refused |
| StoreEffects.LogRefusedExactly | backend/src/indexer/postgres-store.ts:414-602 | a log is refused exactly when its block is unknown, its arguments are invalid, another canonical fact claims the same, or another market has the token or record of a new launch |
| StoreEffects.RollbackOrphans | backend/src/indexer/postgres-store.ts:287-356 | blocks, raw logs and facts stay with the same contents, and are canonical exactly if they were and lie at or below the ancestor |
| StoreEffects.RollbackRemoves | backend/src/indexer/postgres-store.ts:253-340 | exactly the markets launched above the ancestor go, with their trades and pool cursors; other trades above it are orphaned and other pool cursors set back, never below their start |
| StoreEffects.RollbackRecords | backend/src/indexer/postgres-store.ts:243-378 | a rollback of the tip puts the cursor on the ancestor in the next generation and announces the reorganisation and then each removal under that generation |
| StoreEffects.TrackingStarts | backend/src/indexer/postgres-store.ts:137-146 | every pool of a direct market launched in range has a cursor; one that is new starts at its market's launch with nothing scanned |
| StoreEffects.SwapRefusedExactly | backend/src/indexer/postgres-store.ts:603-685 | a backfilled swap is refused exactly when its block is not canonical at its height, its pool has no direct market or several, it exchanges nothing, or, having no row yet, its transaction and index gave another canonical trade |
| StoreEffects.OutboxKeysStayDistinct | backend/src/indexer/postgres-store.ts:198-200 | whatever a store call is given and whatever the tables hold, no two outbox rows get one key |
| StoreRuns.StepKeeps | backend/src/indexer/indexer.ts:97-173 | every store call the indexer makes keeps the invariant on the chain it leaves, and the outbox only grows, whether the transaction commits or fails |
| StoreRuns.RunSafety | backend/src/indexer/indexer.ts:120-161 | after any run against any node there is one linked canonical block per height up to the cursor, none elsewhere, and every canonical log, fact and trade belongs to one |
| StoreRuns.EventSourcing | backend/src/indexer/postgres-store.ts:186-208 | in every reachable state folding the outbox gives exactly the ids in the market table |
| StoreRuns.CursorProgress | backend/src/indexer/postgres-store.ts:110-117 | the observed head never falls and the generation counts exactly the rollbacks |
| StoreRuns.OutboxGrows | backend/src/indexer/postgres-store.ts:687-693 | the outbox of an earlier state is a prefix of the outbox of a later one |
| StoreRuns.PoolCursorBounds | backend/src/indexer/postgres-store.ts:310-315 | a pool's cursor stays between its market's launch and the chain cursor, through commits, rollbacks and backfills |
| StoreRuns.RepeatedHashLosesHeight | backend/src/indexer/postgres-store.ts:397-412 | committing a hash that is already canonical lower down would leave that height without a canonical block |
| ReorgEquivalence.CommitLogShows | backend/src/indexer/postgres-store.ts:186-208 | over any leftover orphaned rows one log commits exactly when it would into a view that never saw them, and shows the same |
| ReorgEquivalence.ChainViewCut | backend/src/indexer/postgres-store.ts:292-356 | cutting a chain short shows what the longer chain shows of the blocks that stay |
| ReorgEquivalence.CommitShows | backend/src/indexer/postgres-store.ts:164-219 | committing a block's registered logs succeeds exactly when the longer chain can be read afresh, and then shows that |
| ReorgEquivalence.RollbackShows | backend/src/indexer/postgres-store.ts:243-378 | a rollback leaves the store showing the shorter chain |
| ReorgEquivalence.BackfillShows | backend/src/indexer/postgres-store.ts:221-241 | a backfill changes nothing of what the registry's logs show |
| ReorgEquivalence.FreshIndexShows | backend/src/indexer/indexer.ts:97-173 | indexing a chain into an empty store succeeds exactly when the chain can be read, and shows it |
| ReorgEquivalence.HistoryDoesNotMatter | backend/src/indexer/indexer.ts:97-240 | after any honest history the canonical blocks, registered logs, facts and markets are those of a fresh index of the chain |
| TradeJournal.FillKeepsJournal | backend/src/indexer/postgres-store.ts:603-685 | after a whole scan the canonical trades are exactly the projected swaps of the scanned blocks if and only if no scanned log had a row already |
| TradeJournal.TradeTellsTheSwap | backend/src/indexer/postgres-store.ts:603-685 | a journal row tells the market of the pool, who swapped and the two amounts as token and quote amounts by the order of the addresses |
| TradeJournal.RewindKeepsJournal | backend/src/indexer/postgres-store.ts:304-340 | a rollback leaves exactly the trades of the scanned blocks that stay, of the markets that stay |
| TradeJournal.OrphanedTradeStays | backend/src/indexer/postgres-store.ts:654-657 | no step makes an orphaned trade canonical again |
| TradeJournal.RewindOrphans | backend/src/indexer/postgres-store.ts:304-309 | rolling back a scanned block orphans the trades of markets that stay |
| TradeJournal.ReturningBlockLosesTrades | backend/src/indexer/postgres-store.ts:654-657 | a scan that meets an orphaned row leaves the trades incomplete |
| TradeJournal.JournalRun | backend/src/indexer/indexer.ts:242-261 | while no scan meets an orphaned row the trades are complete after any honest history |
| LostTrade.TheHistoryIsHonest | backend/src/indexer/indexer.ts:97-173 | a ten-step history of indexing, scanning, two reorganisations and the return of a block, each step the indexer's on a node that holds still |
| LostTrade.TheTradeIsLost | backend/src/indexer/postgres-store.ts:654-657 | after it the swap's block is canonical and scanned, and its trade is orphaned |
| TradeJournal.JournalDetermined | backend/src/indexer/indexer.ts:242-261 | complete trades are determined by the chain, the markets and how far the pools are scanned |
| PostgresStore.PostgresIndexerStore.InitializeCursor | backend/src/indexer/postgres-store.ts:91-108 | a new cursor stands at the baseline in generation zero with the greater of the two heads; one that exists only sees its observed head rise; the cursor returned is the stored one |
| PostgresStore.PostgresIndexerStore.GetCanonicalBlock | backend/src/indexer/postgres-store.ts:126-133 | a canonical block of the height, or none exactly when there is none |
| PostgresStore.PostgresIndexerStore.CommitBlock | backend/src/indexer/postgres-store.ts:164-219 | the loop over logs takes effect whole, as the specified transaction on the block that follows the cursor, or not at all with its error |
| PostgresStore.PostgresIndexerStore.CommitPancakeV3PoolBackfill | backend/src/indexer/postgres-store.ts:221-241 | the loop over swaps takes effect whole, as the specified transaction, or not at all with its error |
| PostgresStore.PostgresIndexerStore.LoadPancakeV3PoolCursors | backend/src/indexer/postgres-store.ts:135-162 | every direct market launched in range has a cursor for its pool, cursors that exist are kept, and the pool returned is one of those left behind that is scanned the least far, starts first and has the lowest launch id; none exactly when none is left behind |
| PostgresStore.PostgresIndexerStore.Rollback | backend/src/indexer/postgres-store.ts:243-378 | the removed markets are exactly those launched above the ancestor, each once and in the order of launch block, log index and launch id, and the tables are those of the specified transaction |
| SyncSteps.StillAnswerIsAcceptable | backend/src/indexer/indexer.ts:263-288 | the answer of a node that holds still is never refused |
| SyncSteps.StillBlockLogs | backend/src/indexer/indexer.ts:122-137 | the logs kept for a height of a chunk are exactly the registered logs of the node's block there |
| SyncSteps.StillPoolLogs | backend/src/indexer/indexer.ts:249-257 | the logs kept for a pool's range are exactly its swaps in the blocks from its cursor on, with no gap |
| SyncSteps.NextRange | backend/src/indexer/indexer.ts:249-250 | the next range of a pool starts right above what it has had |
| SyncSteps.ScanAdvances | backend/src/indexer/indexer.ts:242-261 | each scan leaves strictly fewer blocks before the pools: the loop ends |
| SyncSteps.TakeStep | backend/src/indexer/indexer.ts:97-173 | under a still node every store call keeps the store equal to a fresh index and its trades complete |
| Indexer.CanonicalRpc.GetBlockByNumber | backend/src/indexer/http-rpc.ts:49-60 | an answer of another height than asked for is refused |
| Indexer.QuoteIndexer.EnsureCanonicalCursor | backend/src/indexer/indexer.ts:210-240 | against a still node the store is cut at the longest common prefix, and the search fails exactly when the chains differ at the oldest retained height |
| Indexer.QuoteIndexer.FindAncestor | backend/src/indexer/indexer.ts:214-232 | the block found is the highest on which store and node agree, and it is found exactly when one exists in the retained range |
| SyncSteps.NextBlockCommits | backend/src/indexer/indexer.ts:132-160 | on a still node the next block commits exactly when a fresh index would take it |
| Indexer.QuoteIndexer.IndexBlock | backend/src/indexer/indexer.ts:132-160 | a block is committed only onto its parent with logs of its hash, which are announced in their order in the block; on a still node it never looks like a race and is indexed exactly when a fresh index would take it; a failure is classed as a race exactly when its error is one of the four that say the chain moved |
| Indexer.QuoteIndexer.CatchUp | backend/src/indexer/indexer.ts:113-161 | chunk after chunk the cursor reaches the confirmed head, whenever the node holds still, answers and a fresh index would get there; the logs counted are the rows added to the outbox |
| PoolScans.ScanSucceedsExactly | backend/src/indexer/postgres-store.ts:221-241 | on a still node whose chain has each transaction in one block, the scan of a pool's range succeeds exactly when each of its swaps there projects to a trade of the pool's one direct market: no row is ever in the way |
| PoolScans.ScanFindsBlocked | backend/src/indexer/indexer.ts:242-261 | a scan that fails does so at a swap that cannot be stored, and a scan that succeeds leaves all such swaps still before their pools |
| Indexer.QuoteIndexer.SyncPancakeV3PoolBackfills | backend/src/indexer/indexer.ts:242-261 | the loop terminates with every pool launched by the confirmed head tracked and scanned up to it; on a still node that answers it succeeds if and only if no swap before a tracked pool is unable to be stored, before the scan and likewise after it |
| Indexer.QuoteIndexer.SyncAttempt | backend/src/indexer/indexer.ts:97-173 | against any node the store stays sound, the confirmed head is the observed one less the confirmation depth and at least zero, no block is committed above it or the old cursor, the blocks reported are those on top of what was kept, and the reorganisations reported are the rollbacks made; success on a still node leaves its blocks those of the node up to the cursor, everything it shows equal to a fresh index of them, every pool scanned, and its trades complete if no orphaned hash returned; and the blocks do catch up on a still node that answers, unless it lost more than may be rolled back or a fresh index would stop too, after which the attempt succeeds if and only if no swap before a pool is unable to be stored |
| Indexer.QuoteIndexer.Sync | backend/src/indexer/indexer.ts:72-95 | one to three attempts keep and establish the same; a race is given up only after the third, and a still node needs one |
| Indexer.QuoteIndexer.FollowNode | backend/src/indexer-main.ts:40-71 | over any polls of a node that changes freely between them, a poll that succeeds leaves the store equal to a fresh index of the node's chain; with trades, if the store started empty and no hash that left the chain came back |
| SyncSteps.BeforePoll | backend/src/indexer-main.ts:40-71 | where no hash returns, no orphaned trade is of a block of the chain that is polled next |
| OutboxReads.ReadIsNext | backend/src/infra/postgres-markets.ts:293-308 | a read holds the ids right after the position, without a gap, cut short only at its clamped limit |
| RealtimeHub.Delivery | backend/src/realtime/market-hub.ts:76-163 | in every interleaving, failing reads included, a client that is open and awaits no replay has been sent every event above its last request up to the broadcast position, unless since that request it was told to resync, a replay of it failed, or an event was committed at or below the start of a replay that had not read yet and that no other replay was to send |
| RealtimeHub.StepKeeps | backend/src/realtime/market-hub.ts:76-163 | every step keeps each event that a client has been passed by either sent or promised by a replay under way |
| RealtimeHub.ReplayPays | backend/src/realtime/market-hub.ts:96-104 | a replay that ends has sent what it promised, and moves the client past nothing unsent |
| RealtimeHub.BroadcastPays | backend/src/realtime/market-hub.ts:137-149 | a broadcast moves the position past nothing that an open client was not sent or promised |
| RealtimeHub.ShortFlushCatchesUp | backend/src/realtime/market-hub.ts:137-149 | a round whose read came back short leaves nothing committed by then unbroadcast |
| RealtimeHub.RoundsGoOn | backend/src/realtime/market-hub.ts:137-149 | another read follows exactly when 500 events or more waited; otherwise the round ends with none unbroadcast |
| RealtimeHub.StartsAtTheEnd | backend/src/realtime/market-hub.ts:41-50 | the hub starts at the greatest id of the outbox, so that nothing older is broadcast |
| RealtimeHub.AskIsAnswered | backend/src/realtime/market-hub.ts:76-96 | a client that joins or asks again is told to resync exactly when the broadcast is ahead of its position by more than the lag; otherwise a replay from there is under way |
| RealtimeHub.ReplayIsAnswered | backend/src/realtime/market-hub.ts:96-105 | a replay ends in a resync exactly when more than 500 events lie above its position; otherwise a socket that keeps up is sent all of them |
| RealtimeHub.NothingAfterClose | backend/src/realtime/market-hub.ts:84-85 | in every continuation a client whose socket was closed is sent nothing more, whatever it asks, and one that has left stays away |
| RealtimeHub.OneFlushAtATime | backend/src/realtime/market-hub.ts:134-152 | while one broadcast runs another starts nothing, and one whose read failed has sent nothing and may start again |
| RealtimeOrder.ReplayOrder | backend/src/realtime/market-hub.ts:101-104 | what a client was sent is strictly increasing after a replay's rows exactly when it was before and the first row is refused or lies above all of it |
| RealtimeOrder.OffersAsReplay | backend/src/realtime/market-hub.ts:140-147 | a broadcast does for one client what a replay of the rows above its position would do |
| RealtimeOrder.StepOrder | backend/src/realtime/market-hub.ts:76-163 | a step leaves what a client was sent strictly increasing exactly when it was and the step is not about to send a first row at or below it |
| RealtimeOrder.RunOrder | backend/src/realtime/market-hub.ts:76-163 | over every run from a hub without clients, events reached a client in order and each once if and only if no step was about to repeat |
| RealtimeOrder.ReplayRepeats | backend/src/realtime/market-hub.ts:96-104 | a replay that sends repeats exactly when an event above its position was sent before it |
| RealtimeOrder.BroadcastRepeats | backend/src/realtime/market-hub.ts:138-148 | a broadcast repeats exactly when the client takes its first row and some row lies above its position and at or below what it was sent last |
| RealtimeOrder.ForwardOrder | backend/src/realtime/market-hub.ts:76-163 | a client that never asks from below what it was sent gets events in order and each once if and only if no replay starts to send after an event above its position was sent |
| RealtimeOrder.OrderOfOneAsk | backend/src/realtime/market-hub.ts:76-105 | a client that only asks when it joins gets events in order and each once if and only if its replay, when it starts to send, finds the client still at the replay's position |
| RealtimeOrder.AskingBackRepeats | backend/src/realtime/market-hub.ts:119-126 | a client in order that asks again, and is not told to resync, stays in order through that replay exactly when it asks from the last event it was sent or later |
| RealtimeOrder.SentTwice | backend/src/realtime/market-hub.ts:101-104 | a replay under way while the broadcast passes sends the same events again, out of order |
| RealtimeOrder.SentTwiceIsReached | backend/src/realtime/market-hub.ts:76-89 | the state in which that happens is reached by joining before two commits |
| RealtimeLoss.AskSafeExactly | backend/src/realtime/market-hub.ts:119-126 | after an ask every continuation without another one delivers, if and only if no replay of the client that has not read yet starts above both the new position and the end of the outbox, or the client is closed, too far behind or has a replay under way that will tell it to resync |
| RealtimeLoss.SafeExactly | backend/src/realtime/market-hub.ts:91-149 | the same for any reachable state of a client that the hub still owes its events to |
| RealtimeLoss.EndangeredLoses | backend/src/realtime/market-hub.ts:96-149 | from every such endangered state commits, reads and broadcasts lead to a state in which nothing is pending and an event above the request was passed and never sent |
| RealtimeLoss.NeverBehindDelivers | backend/src/realtime/market-hub.ts:76-163 | over every run, a client that never asks behind such a replay is delivered everything it is owed |
| RealtimeLoss.JoinIsSafe | backend/src/realtime/market-hub.ts:76-89 | a client that has joined, from wherever it asked, loses nothing until it asks again |
| RealtimeLoss.AskingAheadLoses | backend/src/realtime/market-hub.ts:119-126 | a client that asked beyond the outbox and then from its start misses an event for good |
| RealtimeLoss.AskedAheadIsReached | backend/src/realtime/market-hub.ts:119-126 | the state in which that happens is reached |
| RealtimeHub.MarketRealtimeHub.AddClient | backend/src/realtime/market-hub.ts:76-96 | a client is taken exactly when there is room; it is told to resync exactly when the broadcast is ahead of it by more than the lag, and otherwise its replay is under way |
| RealtimeHub.MarketRealtimeHub.HandleSubscribe | backend/src/realtime/market-hub.ts:91-127 | the client stands where it asked; it is told to resync exactly when the broadcast is ahead of that by more than the lag, and otherwise another replay is under way |
| RealtimeHub.MarketRealtimeHub.Replayed | backend/src/realtime/market-hub.ts:96-105 | the loop over rows, which stops at the first that is not sent, is the specified step |
| RealtimeHub.MarketRealtimeHub.Flushed | backend/src/realtime/market-hub.ts:138-149 | the two nested loops are the specified step |
| SseStream.StreamsAreExact | backend/src/market-server.ts:75-165 | in every run the events a stream has sent are the ids of the outbox above its initial position up to its cursor, each once and in order; a resync is the last frame and had more rows behind it than may be replayed |
| SseStream.ResyncExactly | backend/src/market-server.ts:131-137 | a flush sends a resync exactly when the stream is open, takes the frame and more rows were read than may be replayed |
| SseStream.OverflowExactly | backend/src/infra/postgres-markets.ts:293-300 | so many rows are read exactly when more are pending and the limit is below a thousand |
| SseStream.ReadOverflowsExactly | backend/src/market-server.ts:131-133 | the read that a stream takes holds more rows than it may replay exactly when more wait behind its cursor and its limit is below a thousand |
| SseStream.PollDecides | backend/src/market-server.ts:127-149 | a poll of an idle stream whose queue takes everything ends it with a resync exactly when too many events wait, and otherwise, up to a thousand, sends them all and reaches the end of the outbox |
| SseStream.OpenAdmits | backend/src/market-server.ts:50-60 | a request is admitted exactly when a slot is free; its stream greets and starts to read from the position asked for |
| SseStream.CallbacksSay | backend/src/market-server.ts:144-165 | a heartbeat that is taken wakes the stream and one that is refused does nothing; a failed read is reported even to a full queue and leaves the stream where it was; a cancelled stream gives up its slot |
| SseStream.OneReadAtATime | backend/src/market-server.ts:127-149 | while a read is under way a poll starts no second one, and an answer that none waits for changes nothing |
| SseStream.SlotsAreCounted | backend/src/market-server.ts:50-60 | the active count is the number of streams that hold a slot, never above the limit, and freeing happens once |
| SseStream.DeliverySendsPrefix | backend/src/market-server.ts:138-143 | a delivery sends a prefix of its rows, all of them if it reaches the end, and the cursor follows |
| SseStream.FlushCatchesUp | backend/src/market-server.ts:127-149 | a flush of an open stream whose queue takes everything brings it to the end of the outbox |
| SseStream.EventStream.Flushed | backend/src/market-server.ts:132-148 | the loop over rows, which stops at the first refusal, is the specified step |
| SseStream.EventStream.SendFrame | backend/src/market-server.ts:105-116 | a full queue refuses a frame unless forced, a broken one closes the stream and frees its slot |
| Pagination.CursorConditionIsTheOrder | backend/src/infra/postgres-markets.ts:123-130 | the cursor condition holds exactly of the rows strictly after the cursor in the order of the query |
| Pagination.BeforeIsTotalOrder | backend/src/infra/postgres-markets.ts:217 | descending values with nulls last, then descending launch ids, is a strict total order on keys |
| Pagination.ListMarkets | backend/src/infra/postgres-markets.ts:275-283 | a page is the first rows that the cursor lets through, at most the limit, and names a next cursor exactly when more remain |
| Pagination.NextIsLater | backend/src/infra/postgres-markets.ts:275-282 | each next cursor lets strictly fewer rows through: following pages ends |
| Pagination.PagesAreExact | backend/src/infra/postgres-markets.ts:213-283 | for every page size following the pages yields the sorted table exactly, if and only if no two rows share sort value and launch id |
| Pagination.TwoLaunchpadsLoseARow | backend/src/infra/postgres-markets.ts:213-283 | two rows of one value and launch id and pages of one lose the second row |
| Pagination.DistinctLaunchIdsSuffice | backend/src/infra/postgres-markets.ts:213-283 | distinct launch ids are enough for that |
| TickMath.SqrtRatioStrictlyIncreasing | app/lib/quote.ts:144-157 | the tick ratio, with all its truncations, is strictly increasing over all ticks |
| TickMath.CarryGap | app/lib/quote.ts:149-154 | across a carry the product still falls by more than all truncation errors together |
| TickMath.ReciprocalStep | app/lib/quote.ts:155-156 | inverting keeps neighbouring ticks further apart than the final rounding |
| TickMath.ExtremeRatios | app/lib/quote.ts:160-181 | the ratios of the extreme ticks are the two bounds the price check writes out |
| TickMath.RoundUpIsCeiling | app/lib/quote.ts:156 | the final rounding is the ceiling of the division by 2^32 |
| TickMath.SqrtRatioIsRoot | app/lib/quote.ts:144-157 | the tick ratio is the one number whose scaled bracket holds the 128-bit ratio, or for positive ticks its 256-bit reciprocal |
| TickMath.MiddleRatio | app/lib/quote.ts:144-157 | the ratio of tick zero is 2^96 |
| PriceRange.IntegerSqrt | app/lib/quote.ts:123-133 | Newton's iteration ends, fails exactly below zero and returns the floor of the square root |
| PriceRange.SqrtRatioAtTick | app/lib/quote.ts:144-157 | the loop over bits is the tick ratio, bracketed as the ceiling of the 128-bit ratio or of its reciprocal, and refuses exactly the ticks out of range |
| PriceRange.GetTickAtSqrtRatio | app/lib/quote.ts:159-171 | the search ends, refuses exactly the prices out of range and returns a tick whose ratio is at or below the price while the next one's is above |
| PriceRange.TickOfUnique | app/lib/quote.ts:159-171 | that tick is unique |
| PriceRange.TickGalois | app/lib/quote.ts:159-171 | the ticks at or below a price's tick are exactly those whose ratio is at or below the price |
| PriceRange.TickOfInvertsRatio | app/lib/quote.ts:159-171 | the search inverts the tick ratio |
| PriceRange.BuildPriceRange | app/lib/quote.ts:135-201 | the price is the floor of the scaled square root, every accepted price has a tick, the range is aligned around it, and both its ends are ticks exactly for the prices from the lowest usable tick on (token1) or below the tick after the highest usable one (token0) |
| PriceRange.AlignRange | app/lib/quote.ts:186-200 | both ticks are multiples of the spacing and the boundary is the nearest one on its side |
| PriceRange.FloorIsTick | app/lib/quote.ts:199 | rounding a tick down to the spacing gives a tick exactly from the lowest usable tick on |
| PriceRange.CeilIsTick | app/lib/quote.ts:192 | rounding a tick up gives a tick exactly up to the highest usable tick |
| PriceRange.RangeIsTicksExactly | app/lib/quote.ts:186-200 | both ends of the range are ticks exactly for the prices that the two usable ends bound |
| PriceRange.UpperBoundaryAtOrBelowPrice | app/lib/quote.ts:196-200 | a token1 range ends at a tick at or below the price if and only if the price's tick is at or above the lowest usable one |
| PriceRange.LowerBoundaryAtOrAbovePrice | app/lib/quote.ts:189-194 | a token0 range starts at a tick at or above the price if and only if the price's tick is at or below the highest usable one, and is not aligned unless the price is exactly on it |
| PriceRange.RangeNonEmpty | app/lib/quote.ts:186-200 | a range is non-empty exactly when the tick is far enough from the usable end |
| PriceRange.UpperBoundaryCanLeaveTickRange | app/lib/quote.ts:199 | an accepted token1 price, with the default spacing, whose upper tick lies below the lowest tick and below its lower tick |
| PriceRange.LowerBoundaryCanLeaveTickRange | app/lib/quote.ts:192 | an accepted token0 price, with the default spacing, whose lower tick lies above the highest tick and above its upper tick |
| PriceRange.LowerBoundaryCanLieBelowPrice | app/lib/quote.ts:192 | an accepted token0 price whose range starts below it |
| EligibilityTicks.GetSqrtRatioAtTick | backend/src/domain/quote-eligibility.ts:991-1018 | the unrolled copy is the same tick ratio with the same bracket for every tick |
| Rationals.CanonicalUnique | backend/src/domain/quote-eligibility.ts:745-753 | equal values have equal reduced pairs |
| Rationals.ReduceIsCanonicalForm | backend/src/domain/quote-eligibility.ts:745-753 | reducing gives the one reduced pair of a value |
| Rationals.MakeRatio | backend/src/domain/quote-eligibility.ts:745-753 | accepts exactly non-negative over positive and returns a coprime pair of that value |
| Rationals.GcdLoop | backend/src/domain/quote-eligibility.ts:834-843 | the loop is Euclid's greatest common divisor |
| Rationals.GcdDividesBoth | backend/src/domain/quote-eligibility.ts:834-843 | it divides both arguments |
| Eligibility.PriceFromOtherSide | backend/src/domain/quote-eligibility.ts:636-649 | reading a pool from its other side gives structurally the inverse price |
| Eligibility.ReferencePerQuotePrice | backend/src/domain/quote-eligibility.ts:636-644 | a reduced positive price exactly for positive square-root prices |
| Eligibility.PriceOfOne | backend/src/domain/quote-eligibility.ts:636-644 | tokens of as many decimals are worth one another at the square-root price 2^96 |
| Eligibility.RatioByBps | backend/src/domain/quote-eligibility.ts:763-765 | the scaled ratio has the value of so many ten-thousandths |
| Eligibility.RawAmountGalois | backend/src/domain/quote-eligibility.ts:767-779 | a raw amount reaches the ceiling amount for a value exactly when it is worth at least that value |
| Eligibility.DecideDepth | backend/src/domain/quote-eligibility.ts:363-369 | eligible exactly when both quoted amounts stay within the impact bound and the balance is worth the minimum depth |
| Eligibility.ConservativePriceIsSafe | backend/src/domain/quote-eligibility.ts:326 | the price used is at most the current and the average one, so the balance meets the depth at both |
| Eligibility.ArithmeticMeanTick | backend/src/domain/quote-eligibility.ts:651-656 | the truncating division with its correction is the floor of the mean, refused exactly when the mean is no safe integer |
| DecimalText.SerializationRoundTrip | backend/src/domain/quote-eligibility.ts:798-803 | serialising and parsing gives a ratio back exactly when it is reduced |
| DecimalText.FormatRatioLoop | backend/src/domain/quote-eligibility.ts:813-824 | the digit loop is the specified printer |
| DecimalText.FormatDenotesTruncation | backend/src/domain/quote-eligibility.ts:813-824 | the text denotes the ratio truncated at the precision |
| DecimalText.PrintedDecimalBounds | backend/src/domain/quote-eligibility.ts:813-824 | the printed decimal is at most the ratio and short of it by less than one unit of the last place |
| DecimalText.PrintedShape | backend/src/domain/quote-eligibility.ts:813-824 | a fraction is printed exactly when the ratio is no integer and digits are asked for; it ends in a zero only as that zero alone, and the integer part has no zero in front |
| DecimalText.ParseOfDenoted | backend/src/domain/quote-eligibility.ts:805-811 | a decimal text parses to the reduced ratio it denotes |
| DecimalText.ParseAcceptsExactly | backend/src/domain/quote-eligibility.ts:805-811 | a text is accepted exactly when it writes digits, optionally with one to eighteen more after a dot |
| DecimalText.PrintThenParse | backend/src/domain/quote-eligibility.ts:805-824 | printing at eighteen places and parsing gives a reduced ratio back exactly when its denominator divides the scaled numerator |
| PancakeTrades.ProjectSwap | backend/src/indexer/pancake-v3-trades.ts:82-156 | a swap projects exactly when it is of the market's pool and its amounts are non-zero with opposite signs |
| PancakeTrades.ProjectedTradeConsistent | backend/src/indexer/pancake-v3-trades.ts:82-156 | the trade meets the table's checks, its price is reduced and is the quote amount per token amount, its signed amounts are those of the pool's tokens in address order, and its side tells which token came in |
| PancakeTrades.MirroredSwap | backend/src/indexer/pancake-v3-trades.ts:100-108 | a pool whose tokens order the other way, with its amounts exchanged, gives the same trade |
| ImageContainers.PngHasChunk | backend/src/domain/media.ts:762-772 | the loop reads in bounds, ends and is the specified walk |
| ImageContainers.PngHasExactlyItsChunks | backend/src/domain/media.ts:762-772 | on any chunk list written after the signature a type is found exactly when a chunk has it (section 5.3 of the PNG specification) |
| ImageContainers.WebpIsAnimated | backend/src/domain/media.ts:802-812 | the loop reads in bounds, ends and is the specified walk |
| ImageContainers.AnimationBitIsTwo | backend/src/domain/media.ts:808 | the flag that is read is the bit of weight two |
| ImageContainers.ReportsExactlyAnimations | backend/src/domain/media.ts:802-812 | on any chunk list an animation is reported exactly when a chunk is ANIM or ANMF or a VP8X chunk is flagged, where an empty one borrows its flags from the next chunk |
| ImageContainers.WholeHeadersAnimate | backend/src/domain/media.ts:802-812 | where VP8X chunks have their ten bytes that is a frame chunk or a flagged header (section 2.7 of RFC 9649) |
| ImageContainers.MisreadExactly | backend/src/domain/media.ts:802-812 | no animation of the format is overlooked, and a still image is reported as one exactly when a VP8X chunk of less than ten bytes is taken to be flagged |
| ImageContainers.EmptyHeaderMisread | backend/src/domain/media.ts:808 | a still image after an empty VP8X chunk is reported as animated |
| ImageContainers.ShortHeaderMisread | backend/src/domain/media.ts:808 | so is one after a flagged VP8X chunk of one to nine bytes |
| ImageContainers.WebpDimensions | backend/src/domain/media.ts:814-843 | the loop reads in bounds, ends and is the specified walk |
| ImageContainers.FirstStatedSizeGivesDimensions | backend/src/domain/media.ts:814-843 | on any chunk list the first chunk that states a size gives the dimensions, if they are in range |
| ImageContainers.CanvasRoundTrip | backend/src/domain/media.ts:822-826 | the canvas written into a VP8X chunk is read back (section 2.7 of RFC 9649) |
| ImageContainers.LosslessRoundTrip | backend/src/domain/media.ts:834-838 | the two 14-bit sides written into a lossless chunk are read back, for all sides |
| ImageContainers.LossyRoundTrip | backend/src/domain/media.ts:828-832 | the two sides written into a lossy chunk are read back, without their scale bits |
| ImageContainers.StatesNoSize | backend/src/domain/media.ts:822-838 | a chunk of another type, too short or without the signature states no size |
| ImageContainers.TruncatedWebpIsRefused | backend/src/domain/media.ts:816-820 | a file that ends within a chunk states nothing in it |
| ImageContainers.JpegDimensions | backend/src/domain/media.ts:781-800 | the loop reads in bounds, ends and is the specified walk |
| ImageContainers.FirstFrameGivesDimensions | backend/src/domain/media.ts:781-800 | after any other segments the first frame header gives the dimensions, if they are in range |
| ImageContainers.IsFrameMarker | backend/src/domain/media.ts:845-852 | the sixteen markers from C0 on without DHT, JPG and DAC (table B.1 of ITU-T T.81) |
| ImageContainers.BrokenSegmentIsRefused | backend/src/domain/media.ts:784-791 | no marker, a length below two or one beyond the end of the file ends the search |
| ImageContainers.HeaderGivesDimensions | backend/src/domain/media.ts:774-779 | a header chunk that comes first gives the dimensions, if they are in range |
| ImageContainers.PngDimensions | backend/src/domain/media.ts:774-779 | only sides between one and 4096 are returned |
| ImageContainers.DetectSafeImageMetadata | backend/src/domain/media.ts:249-260 | the containers are told apart by their first bytes and only still images pass, with sides between one and 4096 |
| ImageContainers.PngPassesExactly | backend/src/domain/media.ts:249-260 | a PNG file passes, with the sides its header states, exactly when no chunk animates it and they are in range |
| ImageContainers.WebpPassesExactly | backend/src/domain/media.ts:249-260 | a WebP file passes, with the first size a chunk states, exactly when no chunk animates it and the sides are in range |
| ImageContainers.JpegPassesExactly | backend/src/domain/media.ts:249-260 | a JPEG file passes, with the sides of its first frame header, exactly when they are in range |

## Left out

- Transport: HTTP, WebSocket and Postgres connections, timeouts, retries, CORS and environment parsing are plumbing; a
  node is what it answers and a transaction is one step.
- More than one indexer process: writers are serialised by the advisory lock, and one indexer runs against a changing
  node.
- Registry installation, status changes and code-hash validation (`indexer.ts:57-95`, `:175-208`): they change none of
  the modelled tables. A registry is fixed during a run.
- ABI decoding, keccak, Sharp and `parseUnits` are foreign libraries: a log carries its decoded event, with one flag for
  arguments that fail a check. Block times are not kept.
- Emissions are built inside the commit; the count check between logs and emissions and the payloads are left out.
- Candles, live stats, valuations and the outbox rows of database triggers, which carry no dedupe key and other topics.
- Indexer.QuoteIndexer.SyncAttempt: its count of logs adds up those of two phases; that of the blocks is specified where
  they are indexed, in `IndexChunk` and `CatchUp`, that of the pools' swaps is not.
- Validation of a response may fail for one of several reasons at once; which of them is reported is left open.
- Indexer.QuoteIndexer.SyncAttempt: says when the scan of the pools succeeds for chains that have each transaction in one
  block, and in terms of the tables it ends with; `SyncPancakeV3PoolBackfills` says it in terms of those it starts
  with. Where two direct markets share a pool, which of them its new cursor belongs to is left open.
- StoreRuns.RunSafety: the unique index on canonical heights is not modelled; the theorem shows that it is never what
  stops a step.
- TradeJournal.JournalRun: requires that no scan meets an orphaned trade, because the store does not revive one.
- ReorgEquivalence.HistoryDoesNotMatter: trades are not part of it; they depend on how far the pools are scanned and are
  treated by the trade journal.
- The retry delay of `backend/src/domain/reorg.ts` and the jitter functions of `media.ts`.
- RealtimeHub.Delivery: the log of events is append-only in id order, with one writer; heartbeats, pings and the
  listener's reconnection only add flushes and departures, which are steps of the model. A replay whose read fails just
  ends; that its unhandled rejection may end the process is left out.
- SseStream.StreamsAreExact: positions are natural numbers; the upper clamp of ids is left out.
- Pagination.PagesAreExact: the table does not change between pages, sort values are real numbers, and the text of a
  cursor is taken to decode to what was encoded; a cursor text of more than 512 characters is refused by the source and
  would start over. Rows that compare equal are ordered as a stable sort leaves them.
- The market list's filters and computed columns, media providers, caching and rate limits, and all user interface.
- Contracts and vendored libraries under `contracts`.

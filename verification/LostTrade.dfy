/** A history in which a swap's block leaves the chain and comes back, and the swap's trade does not. */
module LostTrade {
  import opened Outcomes
  import opened PancakeTrades
  import opened ChainData
  import opened Store
  import opened StoreInvariants
  import opened StoreRuns
  import opened ReorgEquivalence
  import opened TradeJournal

  const LAUNCH_TOPIC: Topic := 7
  const REGISTRY: Registry := [RegistryEntry(100, 1, {LAUNCH_TOPIC})]
  const LAUNCH := Launch(5, 1, 200, 300, 400, 9, true)
  const LAUNCHED := Log(100, 1, 1, 10, 0, 0, Some(LAUNCH_TOPIC), MarketLaunched(LAUNCH), false)
  const SWAPPED := Log(400, 2, 2, 20, 0, 0, Some(SWAP_TOPIC), Swap(1, 2, -5, 7), false)
  const ID := MarketId(100, 5)

  /** Blocks 0, 1 and 2 in a row, and block 3 in the place of 2. */
  function BlockOf(h: Hash): Block {
    Block(if h <= 2 then h else if h == 3 then 2 else 99, h, if h == 2 || h == 3 then 1 else 0)
  }

  function LogsOf(h: Hash): seq<Log> {
    if h == 1 then [LAUNCHED] else if h == 2 then [SWAPPED] else []
  }

  const WORLD := World(BlockOf, LogsOf)

  lemma TheWorldIsValid()
    ensures ValidWorld(WORLD)
  {
  }

  /** The block of the swap is indexed and scanned, replaced by another, and then itself replaces that one. */
  const HISTORY: seq<Step> := [
    Start(BlockOf(0), 2),
    Extend(BlockOf(1), [LAUNCHED], 2),
    Extend(BlockOf(2), [], 2),
    TrackPools(2, map[400 := ID]),
    FillPools([SWAPPED], {400}, 2),
    Rewind(BlockOf(1), BlockOf(2), []),
    Extend(BlockOf(3), [], 2),
    Rewind(BlockOf(1), BlockOf(3), []),
    Extend(BlockOf(2), [], 2),
    FillPools([SWAPPED], {400}, 2)]

  // ---------------------------------------------------------------------------
  // The tables on the way
  // ---------------------------------------------------------------------------

  const MARKETS := map[ID := MarketRow(LAUNCH, 1, 10, 0)]
  const LAUNCH_LOGS := map[KeyOf(LAUNCHED) := RawLogRow(LAUNCHED, true)]
  const LAUNCH_ROWS := [OutboxRow(MarketLaunch, Market(ID), LogEmission(KeyOf(LAUNCHED), 0))]

  function PoolAt(through: int): map<Address, PoolRow> {
    map[400 := PoolRow(ID, 1, through)]
  }

  function SwapLogs(canonical: bool): map<LogKey, RawLogRow> {
    LAUNCH_LOGS[KeyOf(SWAPPED) := RawLogRow(SWAPPED, canonical)]
  }

  function TheTrade(): Trade
    ensures ProjectSwap(SwapOf(SWAPPED), DirectMarketRow(ID, LAUNCH)) == Ok(TheTrade())
  {
    ProjectSwap(SwapOf(SWAPPED), DirectMarketRow(ID, LAUNCH)).value
  }

  function TradeRows(canonical: bool): map<LogKey, TradeRow> {
    map[KeyOf(SWAPPED) := TradeRow(ID, 2, TheTrade(), canonical)]
  }

  function ReorgRow(oldTip: Hash, generation: nat): OutboxRow {
    OutboxRow(ChainReorg, ChainWide, ReorgEmission(oldTip, 1, generation))
  }

  function Row(h: Hash, canonical: bool): BlockRow {
    BlockRow(BlockOf(h).number, BlockOf(h).parentHash, canonical)
  }

  function ScannedTables(): Db {
    Db(Some(Cursor(2, 2, 2, 2, 0)), map[0 := Row(0, true), 1 := Row(1, true), 2 := Row(2, true)],
       SwapLogs(true), map[], MARKETS, TradeRows(true), PoolAt(2), LAUNCH_ROWS)
  }

  function RewoundTables(): Db {
    Db(Some(Cursor(1, 1, 2, 1, 1)), map[0 := Row(0, true), 1 := Row(1, true), 2 := Row(2, false)],
       SwapLogs(false), map[], MARKETS, TradeRows(false), PoolAt(1), LAUNCH_ROWS + [ReorgRow(2, 1)])
  }

  function ReplacedTables(): Db {
    RewoundTables().(cursor := Some(Cursor(2, 3, 2, 2, 1)), blocks := RewoundTables().blocks[3 := Row(3, true)])
  }

  function ReturnedTables(): Db {
    Db(Some(Cursor(2, 2, 2, 2, 2)),
       map[0 := Row(0, true), 1 := Row(1, true), 2 := Row(2, true), 3 := Row(3, false)],
       SwapLogs(false), map[], MARKETS, TradeRows(false), PoolAt(1),
       LAUNCH_ROWS + [ReorgRow(2, 1)] + [ReorgRow(3, 2)])
  }

  function LostTables(): Db {
    ReturnedTables().(rawLogs := SwapLogs(true), pools := PoolAt(2))
  }

  function CommittedTables(): Db {
    Db(Some(Cursor(1, 1, 2, 1, 0)), map[0 := Row(0, true), 1 := Row(1, true)],
       LAUNCH_LOGS, map[], MARKETS, map[], map[], LAUNCH_ROWS)
  }

  lemma Commits()
    ensures After(EMPTY_DB, HISTORY[0]).cursor == Some(Cursor(0, 0, 2, 0, 0))
    ensures After(After(EMPTY_DB, HISTORY[0]), HISTORY[1]) == CommittedTables()
  {
    var started := After(EMPTY_DB, HISTORY[0]);
    assert started == EMPTY_DB.(cursor := Some(Cursor(0, 0, 2, 0, 0)), blocks := map[0 := Row(0, true)]);
    var with := InsertCanonicalBlock(started, BlockOf(1));
    assert [LAUNCHED][..0] == [];
    assert CommitLogs(with, BlockOf(1), 0, [LAUNCHED]) == CommitLog(with, BlockOf(1), 0, LAUNCHED);
    assert After(started, HISTORY[1]).outbox == LAUNCH_ROWS;
  }

  function TrackedTables(): Db {
    Db(Some(Cursor(2, 2, 2, 2, 0)), map[0 := Row(0, true), 1 := Row(1, true), 2 := Row(2, true)],
       LAUNCH_LOGS, map[], MARKETS, map[], PoolAt(0), LAUNCH_ROWS)
  }

  lemma Tracks()
    ensures After(CommittedTables(), HISTORY[2]) == TrackedTables().(pools := map[])
    ensures After(After(CommittedTables(), HISTORY[2]), HISTORY[3]) == TrackedTables()
  {
    var extended := After(CommittedTables(), HISTORY[2]);
    assert extended == TrackedTables().(pools := map[]);
    assert InsertPools(extended, map[400 := ID]).pools == PoolAt(0);
  }

  lemma TheOnlyMarket(db: Db)
    requires db.markets == MARKETS
    ensures DirectMarketOf(db, 400) == Some(ID)
  {
    assert OnlyMarket(db, 400, ID);
  }

  lemma Scans()
    ensures After(TrackedTables(), HISTORY[4]) == ScannedTables()
  {
    hide ProjectSwap, TheTrade;
    var db := TrackedTables();
    var stored := InsertRawLog(db, SWAPPED).value;
    assert stored == db.(rawLogs := SwapLogs(true));
    TheOnlyMarket(stored);
    assert InsertTrade(stored, SWAPPED) == Ok(stored.(trades := TradeRows(true)));
    assert [SWAPPED][..0] == [];
    assert BackfillLogs(db, [SWAPPED]) == Ok(stored.(trades := TradeRows(true)));
    assert AdvancePools(stored.(trades := TradeRows(true)), {400}, 2).pools == PoolAt(2);
  }

  /** What a rollback to block 1 does to the tables that do not hold blocks. */
  lemma RewindsRows(swapCanonical: bool, tradeCanonical: bool, through: int)
    requires 1 <= through
    ensures OrphanRawLogs(SwapLogs(swapCanonical), 1) == SwapLogs(false)
    ensures OrphanFacts(map[], 1) == map[] && RetainMarkets(MARKETS, []) == MARKETS
    ensures OrphanTrades(TradeRows(tradeCanonical), 1, []) == TradeRows(false)
    ensures RewindPools(PoolAt(through), 1, []) == PoolAt(1)
  {
    hide TheTrade;
  }

  lemma RewindsTo(db: Db, oldTip: Block, blocks: map<Hash, BlockRow>)
    requires db.cursor.Some? && db.cursor.value.number == oldTip.number && db.cursor.value.hash == oldTip.hash
    requires OrphanBlocks(db.blocks, 1) == blocks && 1 <= Through(db)
    requires exists swap, trade :: db == Db(db.cursor, db.blocks, SwapLogs(swap), map[], MARKETS, TradeRows(trade),
                                            PoolAt(Through(db)), db.outbox)
    requires !HasKey(db.outbox, ReorgEmission(oldTip.hash, 1, db.cursor.value.generation + 1))
    ensures var c := db.cursor.value;
            After(db, Rewind(BlockOf(1), oldTip, []))
            == Db(Some(Cursor(1, 1, c.observed, 1, c.generation + 1)), blocks, SwapLogs(false), map[], MARKETS,
                  TradeRows(false), PoolAt(1), db.outbox + [ReorgRow(oldTip.hash, c.generation + 1)])
  {
    var swap, trade :| db == Db(db.cursor, db.blocks, SwapLogs(swap), map[], MARKETS, TradeRows(trade),
                                PoolAt(Through(db)), db.outbox);
    hide OrphanBlocks, OrphanRawLogs, OrphanFacts, OrphanTrades, RewindPools, RetainMarkets, HasKey, TradeRows, SwapLogs, PoolAt;
    RewindsRows(swap, trade, Through(db));
  }

  function Through(db: Db): int {
    if 400 in db.pools then db.pools[400].indexedThrough else 0
  }

  lemma Rewinds()
    ensures After(ScannedTables(), HISTORY[5]) == RewoundTables()
  {
    hide TheTrade, TradeRows, SwapLogs, ProjectSwap;
    var db := ScannedTables();
    assert OrphanBlocks(db.blocks, 1) == RewoundTables().blocks;
    assert db == Db(db.cursor, db.blocks, SwapLogs(true), map[], MARKETS, TradeRows(true), PoolAt(Through(db)), db.outbox);
    RewindsTo(db, BlockOf(2), RewoundTables().blocks);
  }

  lemma Replaces()
    ensures After(RewoundTables(), HISTORY[6]) == ReplacedTables()
  {
    hide TheTrade;
  }

  function RewoundAgain(): Db {
    Db(Some(Cursor(1, 1, 2, 1, 2)), map[0 := Row(0, true), 1 := Row(1, true), 2 := Row(2, false), 3 := Row(3, false)],
       SwapLogs(false), map[], MARKETS, TradeRows(false), PoolAt(1),
       LAUNCH_ROWS + [ReorgRow(2, 1)] + [ReorgRow(3, 2)])
  }

  lemma RewindsAgain()
    ensures After(ReplacedTables(), HISTORY[7]) == RewoundAgain()
  {
    hide TheTrade, TradeRows, SwapLogs, ProjectSwap;
    var db := ReplacedTables();
    assert OrphanBlocks(db.blocks, 1) == RewoundAgain().blocks;
    assert db == Db(db.cursor, db.blocks, SwapLogs(false), map[], MARKETS, TradeRows(false), PoolAt(Through(db)), db.outbox);
    RewindsTo(db, BlockOf(3), RewoundAgain().blocks);
  }

  lemma Returns()
    ensures After(RewoundAgain(), HISTORY[8]) == ReturnedTables()
  {
    hide TheTrade, TradeRows, SwapLogs, ProjectSwap, PoolAt;
    assert InsertCanonicalBlock(RewoundAgain(), BlockOf(2)).blocks == ReturnedTables().blocks;
  }

  lemma Loses()
    ensures After(ReturnedTables(), HISTORY[9]) == LostTables()
  {
    hide ProjectSwap, TheTrade;
    var db := ReturnedTables();
    var stored := InsertRawLog(db, SWAPPED).value;
    assert stored == db.(rawLogs := SwapLogs(true));
    TheOnlyMarket(stored);
    assert InsertTrade(stored, SWAPPED) == Ok(stored);
    assert [SWAPPED][..0] == [];
    assert BackfillLogs(db, [SWAPPED]) == Ok(stored);
    assert AdvancePools(stored, {400}, 2).pools == PoolAt(2);
  }

  // ---------------------------------------------------------------------------
  // The history is honest, and loses the trade
  // ---------------------------------------------------------------------------

  lemma RunsOn(k: nat)
    requires k < |HISTORY|
    ensures RunDb(HISTORY[..k + 1]) == After(RunDb(HISTORY[..k]), HISTORY[k])
  {
    hide After;
    assert HISTORY[..k + 1][..k] == HISTORY[..k];
  }

  /** The tables before each step. */
  function TablesAt(k: nat): Db {
    if k == 0 then EMPTY_DB
    else if k == 1 then After(EMPTY_DB, HISTORY[0])
    else if k == 2 then CommittedTables()
    else if k == 3 then TrackedTables().(pools := map[])
    else if k == 4 then TrackedTables()
    else if k == 5 then ScannedTables()
    else if k == 6 then RewoundTables()
    else if k == 7 then ReplacedTables()
    else if k == 8 then RewoundAgain()
    else if k == 9 then ReturnedTables()
    else LostTables()
  }

  lemma TheSteps(k: nat)
    requires k < |HISTORY|
    ensures After(TablesAt(k), HISTORY[k]) == TablesAt(k + 1)
  {
    hide After, CommittedTables, TrackedTables, ScannedTables, RewoundTables, ReplacedTables, RewoundAgain, ReturnedTables;
    hide LostTables;
    if k <= 1 {
      Commits();
    } else if k <= 3 {
      Tracks();
    } else if k == 4 {
      Scans();
    } else if k == 5 {
      Rewinds();
    } else if k == 6 {
      Replaces();
    } else if k == 7 {
      RewindsAgain();
    } else if k == 8 {
      Returns();
    } else {
      Loses();
    }
  }

  lemma {:induction false} TheRun(k: nat)
    requires k <= |HISTORY|
    ensures RunDb(HISTORY[..k]) == TablesAt(k)
  {
    hide After, TablesAt;
    if k == 0 {
      StartsEmpty();
    } else {
      TheRun(k - 1);
      RunsOn(k - 1);
      TheSteps(k - 1);
    }
  }

  lemma StartsEmpty()
    ensures RunDb(HISTORY[..0]) == TablesAt(0)
  {
  }

  lemma WhatIsRegistered()
    ensures RegisteredLogs(WORLD, REGISTRY, 1) == [LAUNCHED]
    ensures RegisteredLogs(WORLD, REGISTRY, 2) == [] && RegisteredLogs(WORLD, REGISTRY, 3) == []
  {
    assert Applies(REGISTRY[0], 100, 1) && !Applies(REGISTRY[0], 400, 2);
    assert ActiveEntry(REGISTRY, 100, 1) == Some(REGISTRY[0]);
    assert ActiveEntry(REGISTRY, 400, 2) == None;
    assert Registered(REGISTRY, LAUNCHED) && !Registered(REGISTRY, SWAPPED);
    hide Registered;
    KeepsOne(LAUNCHED);
    KeepsOne(SWAPPED);
  }

  lemma KeepsOne(log: Log)
    ensures KeepRegistered(REGISTRY, [log]) == if Registered(REGISTRY, log) then [log] else []
  {
    hide Registered;
    assert [log][..0] == [];
  }

  lemma HonestExtend(db: Db, h: Hash)
    requires 1 <= h <= 3
    ensures Honest(WORLD, REGISTRY, 0, db, Extend(BlockOf(h), if h == 1 then [LAUNCHED] else [], 2))
  {
    hide RegisteredLogs;
    WhatIsRegistered();
  }

  lemma HonestRewind(db: Db, oldTip: Block)
    requires db.markets == MARKETS && CanonicalAt(db, 1, 1)
    ensures Honest(WORLD, REGISTRY, 0, db, Rewind(BlockOf(1), oldTip, []))
  {
  }

  lemma HonestFill(db: Db)
    requires db.cursor.Some? && db.cursor.value.number == 2
    ensures Honest(WORLD, REGISTRY, 0, db, FillPools([SWAPPED], {400}, 2))
  {
  }

  lemma HonestTrack(db: Db)
    requires db.markets == MARKETS
    ensures Honest(WORLD, REGISTRY, 0, db, TrackPools(2, map[400 := ID]))
  {
  }

  lemma HonestStart()
    ensures Honest(WORLD, REGISTRY, 0, EMPTY_DB, Start(BlockOf(0), 2))
  {
  }

  lemma EveryStepIsHonest(k: nat)
    requires k < |HISTORY|
    ensures Honest(WORLD, REGISTRY, 0, TablesAt(k), HISTORY[k])
  {
    hide TheTrade, After, Honest, SwapLogs, TradeRows, PoolAt, CanonicalAt, Row;
    if k == 0 {
      HonestStart();
    } else if k == 3 {
      HonestTrack(TablesAt(3));
    } else if k == 4 || k == 9 {
      HonestFill(TablesAt(k));
    } else if k == 5 || k == 7 {
      BlockOneStays();
      HonestRewind(TablesAt(k), if k == 5 then BlockOf(2) else BlockOf(3));
    } else {
      HonestExtend(TablesAt(k), if k == 1 then 1 else if k == 6 then 3 else 2);
    }
  }

  lemma BlockOneStays()
    ensures CanonicalAt(ScannedTables(), 1, 1) && CanonicalAt(ReplacedTables(), 1, 1)
  {
    hide TheTrade, SwapLogs, TradeRows, PoolAt;
  }

  lemma TheHistoryIsHonest()
    ensures HonestRun(WORLD, REGISTRY, 0, HISTORY)
  {
    hide TablesAt, Honest;
    forall k | 0 <= k < |HISTORY| ensures Honest(WORLD, REGISTRY, 0, RunDb(HISTORY[..k]), HISTORY[k]) {
      TheRun(k);
      EveryStepIsHonest(k);
    }
  }

  /** After this history, each of whose steps is the indexer's on a node that held still, the swap is in a canonical
      block that its pool has been scanned past, and its trade is orphaned. */
  lemma TheTradeIsLost()
    ensures ValidWorld(WORLD) && HonestRun(WORLD, REGISTRY, 0, HISTORY)
    ensures CanonicalAt(RunDb(HISTORY), SWAPPED.blockHash, SWAPPED.blockNumber)
    ensures Scanned(WORLD, [0, 1, 2], RunDb(HISTORY).pools, SWAPPED)
    ensures Orphaned(RunDb(HISTORY), KeyOf(SWAPPED)) && !JournalComplete(WORLD, [0, 1, 2], RunDb(HISTORY))
  {
    TheWorldIsValid();
    TheHistoryIsHonest();
    TheRun(|HISTORY|);
    hide HonestRun, ValidWorld, RunDb, JournalComplete;
    assert HISTORY[..|HISTORY|] == HISTORY;
    TheTablesLack();
  }

  lemma TheTablesLack()
    ensures TablesAt(|HISTORY|) == LostTables() && CanonicalAt(LostTables(), 2, 2)
    ensures Scanned(WORLD, [0, 1, 2], LostTables().pools, SWAPPED)
    ensures Orphaned(LostTables(), KeyOf(SWAPPED)) && !JournalComplete(WORLD, [0, 1, 2], LostTables())
  {
    hide TheTrade, HasTrade;
    assert LogsOf(2) == [SWAPPED];
    NoncanonicalIsNoTrade(LostTables(), SWAPPED);
  }
}

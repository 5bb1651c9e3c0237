/** Which swaps the trade table holds: those of each pool's scanned blocks, unless an orphaned block comes back. */
module TradeJournal {
  import opened Outcomes
  import opened PancakeTrades
  import opened ChainData
  import opened Store
  import opened StoreInvariants
  import opened StoreRuns
  import opened ReorgEquivalence

  /** A swap of a tracked pool in a canonical block between the market's launch and the pool's cursor. */
  ghost predicate Scanned(w: World, chain: seq<Hash>, pools: map<Address, PoolRow>, log: Log) {
    && log.blockHash in chain && log in w.logsOf(log.blockHash) && PoolSwap(log, pools.Keys)
    && pools[log.address].startBlock <= log.blockNumber <= pools[log.address].indexedThrough
  }

  ghost predicate ScannedKey(w: World, chain: seq<Hash>, pools: map<Address, PoolRow>, key: LogKey) {
    exists log :: Scanned(w, chain, pools, log) && KeyOf(log) == key
  }

  /** `row` is the canonical trade that `log` projects to for the market that has its pool. */
  predicate IsTradeOf(markets: map<MarketId, MarketRow>, owner: MarketId, log: Log, row: TradeRow) {
    && log.event.Swap? && owner in markets
    && ProjectSwap(SwapOf(log), DirectMarketRow(owner, markets[owner].launch)).Ok?
    && row == TradeRow(owner, log.blockNumber,
                       ProjectSwap(SwapOf(log), DirectMarketRow(owner, markets[owner].launch)).value, true)
  }

  /** What such a row says: the market that has the pool, who swapped, and the pool's two amounts as the token's and the
      quote's, told apart by the order of their addresses. */
  lemma TradeTellsTheSwap(markets: map<MarketId, MarketRow>, owner: MarketId, log: Log, row: TradeRow)
    requires IsTradeOf(markets, owner, log, row)
    ensures var (launch, t) := (markets[owner].launch, row.trade);
            && row.canonical && row.market == owner && row.blockNumber == log.blockNumber
            && t.launchpad == owner.launchpad && t.launchId == owner.launchId
            && t.venue == log.address == launch.pool
            && t.trader == log.event.sender && t.recipient == log.event.recipient
            && (launch.token < launch.quoteToken ==>
                  t.tokenAmountSigned == log.event.amount0 && t.quoteAmountSigned == log.event.amount1)
            && (launch.quoteToken < launch.token ==>
                  t.quoteAmountSigned == log.event.amount0 && t.tokenAmountSigned == log.event.amount1)
  {
    ProjectedTradeConsistent(SwapOf(log), DirectMarketRow(owner, markets[owner].launch));
    hide ProjectSwap;
  }

  ghost predicate HasTrade(db: Db, log: Log) {
    && KeyOf(log) in db.trades && log.address in db.pools
    && IsTradeOf(db.markets, db.pools[log.address].owner, log, db.trades[KeyOf(log)])
  }

  /** The canonical trades are the projections of the scanned swaps, no more and no fewer. */
  ghost predicate JournalComplete(w: World, chain: seq<Hash>, db: Db) {
    && (forall k :: k in db.trades && db.trades[k].canonical ==> ScannedKey(w, chain, db.pools, k))
    && (forall log :: Scanned(w, chain, db.pools, log) ==> HasTrade(db, log))
  }

  lemma ScannedLogsKnow(w: World, chain: seq<Hash>, pools: map<Address, PoolRow>, log: Log)
    requires ValidWorld(w) && Scanned(w, chain, pools, log)
    ensures log.blockNumber == w.blockOf(log.blockHash).number
  {
    LogsKnowTheirBlock(w, log.blockHash, log);
  }

  // ---------------------------------------------------------------------------
  // Steps that do not scan
  // ---------------------------------------------------------------------------

  lemma ExtendKeepsJournal(w: World, base: nat, chain: seq<Hash>, db: Db, after: Db, h: Hash)
    requires ValidWorld(w) && chain != [] && Inv(w, base, chain, db) && JournalComplete(w, chain, db)
    requires w.blockOf(h).number == base + |chain|
    requires after.trades == db.trades && after.pools == db.pools
    requires forall id :: id in db.markets ==> id in after.markets && after.markets[id] == db.markets[id]
    ensures JournalComplete(w, chain + [h], after)
  {
    hide ValidWorld, BlocksInv, RawLogsInv, FactsInv, TradesInv, OutboxInv, FoldMarkets, ProjectSwap, MarketsInv;
    forall log ensures Scanned(w, chain + [h], after.pools, log) <==> Scanned(w, chain, db.pools, log) {
      if Scanned(w, chain + [h], after.pools, log) && log.blockHash == h {
        ScannedLogsKnow(w, chain + [h], after.pools, log);
      }
    }
    forall k | k in after.trades && after.trades[k].canonical ensures ScannedKey(w, chain + [h], after.pools, k) {
      var log :| Scanned(w, chain, db.pools, log) && KeyOf(log) == k;
      assert Scanned(w, chain + [h], after.pools, log);
    }
  }

  lemma TrackKeepsJournal(w: World, base: nat, chain: seq<Hash>, db: Db, through: int, owners: map<Address, MarketId>)
    requires JournalComplete(w, chain, db) && PoolOwners(db, through, owners)
    ensures JournalComplete(w, chain, InsertPools(db, owners))
  {
    hide ProjectSwap;
    var after := InsertPools(db, owners);
    forall log ensures Scanned(w, chain, after.pools, log) <==> Scanned(w, chain, db.pools, log) {
    }
    forall k | k in after.trades && after.trades[k].canonical ensures ScannedKey(w, chain, after.pools, k) {
      var log :| Scanned(w, chain, db.pools, log) && KeyOf(log) == k;
      assert Scanned(w, chain, after.pools, log);
    }
  }

  lemma RewoundScan(
    w: World, base: nat, chain: seq<Hash>, db: Db, kept: nat, removed: seq<MarketId>, log: Log)
    requires ValidWorld(w) && Inv(w, base, chain, db) && 0 < kept <= |chain|
    requires RemovalOrder(db, base + kept - 1, removed)
    ensures Scanned(w, chain[..kept], RewindPools(db.pools, base + kept - 1, removed), log) <==>
            Scanned(w, chain, db.pools, log) && log.blockNumber < base + kept && db.pools[log.address].owner !in removed
  {
    hide ValidWorld, BlocksInv, RawLogsInv, FactsInv, TradesInv, OutboxInv, FoldMarkets, MarketsInv, RemovalBefore;
    OrphanedBlocks(w, base, chain, db.blocks, kept);
    if log.blockHash in chain && log in w.logsOf(log.blockHash) {
      LogsKnowTheirBlock(w, log.blockHash, log);
    } else {
      assert log.blockHash in chain[..kept] ==> log.blockHash in chain;
    }
  }

  lemma RewindKeepsJournal(
    w: World, base: nat, chain: seq<Hash>, db: Db, kept: nat, removed: seq<MarketId>, after: Db)
    requires ValidWorld(w) && Inv(w, base, chain, db) && JournalComplete(w, chain, db) && 0 < kept <= |chain|
    requires RemovalOrder(db, base + kept - 1, removed)
    requires after.trades == OrphanTrades(db.trades, base + kept - 1, removed)
    requires after.pools == RewindPools(db.pools, base + kept - 1, removed)
    requires after.markets == RetainMarkets(db.markets, removed)
    ensures JournalComplete(w, chain[..kept], after)
  {
    hide ValidWorld, Inv, RemovalOrder, ProjectSwap, RewindPools;
    forall k | k in after.trades && after.trades[k].canonical ensures ScannedKey(w, chain[..kept], after.pools, k) {
      var log :| Scanned(w, chain, db.pools, log) && KeyOf(log) == k;
      assert HasTrade(db, log);
      RewoundScan(w, base, chain, db, kept, removed, log);
      assert Scanned(w, chain[..kept], after.pools, log);
    }
    forall log | Scanned(w, chain[..kept], after.pools, log) ensures HasTrade(after, log) {
      RewoundScan(w, base, chain, db, kept, removed, log);
      assert HasTrade(db, log);
      RewoundOwner(db.pools, base + kept - 1, removed, log.address);
    }
  }

  lemma RewoundOwner(pools: map<Address, PoolRow>, number: nat, removed: seq<MarketId>, pool: Address)
    requires pool in RewindPools(pools, number, removed)
    ensures pool in pools && RewindPools(pools, number, removed)[pool].owner == pools[pool].owner
  {
  }

  // ---------------------------------------------------------------------------
  // Scanning
  // ---------------------------------------------------------------------------

  /** The logs are all the swaps of `pool` between its cursor and `through`. */
  ghost predicate ScanOf(w: World, chain: seq<Hash>, pools: map<Address, PoolRow>, pool: Address, logs: seq<Log>, through: int) {
    && pool in pools
    && forall log :: log in logs <==>
         log.blockHash in chain && log in w.logsOf(log.blockHash) && PoolSwap(log, {pool})
         && pools[pool].indexedThrough < log.blockNumber <= through
  }

  /** The row a backfill adds for a log of a pool that one market has. */
  ghost predicate Added(db: Db, logs: seq<Log>, key: LogKey, row: TradeRow) {
    exists log :: log in logs && KeyOf(log) == key && IsTradeOf(db.markets, row.market, log, row)
                  && OnlyMarket(db, log.address, row.market)
  }

  lemma BackfillLogTrades(db: Db, log: Log)
    requires BackfillLog(db, log).Ok?
    ensures var after := BackfillLog(db, log).value;
            && after.markets == db.markets && after.pools == db.pools
            && (forall k :: k in db.trades ==> k in after.trades && after.trades[k] == db.trades[k])
            && KeyOf(log) in after.trades
            && (forall k :: k in after.trades && k !in db.trades ==> Added(db, [log], k, after.trades[k]))
  {
    hide ProjectSwap, InsertRawLog, TradeTaken;
    var stored := InsertRawLog(db, log).value;
    var market := DirectMarketOf(stored, log.address).value;
    assert OnlyMarket(db, log.address, market);
    assert log in [log];
  }

  lemma {:induction false} BackfillLogsTrades(db: Db, logs: seq<Log>)
    requires BackfillLogs(db, logs).Ok?
    ensures var after := BackfillLogs(db, logs).value;
            && after.markets == db.markets && after.pools == db.pools
            && (forall k :: k in db.trades ==> k in after.trades && after.trades[k] == db.trades[k])
            && (forall log :: log in logs ==> KeyOf(log) in after.trades)
            && (forall k :: k in after.trades && k !in db.trades ==> Added(db, logs, k, after.trades[k]))
  {
    hide BackfillLog, Added;
    if logs != [] {
      var n := |logs| - 1;
      assert logs == logs[..n] + [logs[n]];
      BackfillLogsTrades(db, logs[..n]);
      var before := BackfillLogs(db, logs[..n]).value;
      BackfillLogTrades(before, logs[n]);
      var after := BackfillLogs(db, logs).value;
      forall k | k in after.trades && k !in db.trades ensures Added(db, logs, k, after.trades[k]) {
        AddedMore(db, before, logs, k, after.trades[k]);
      }
    }
  }

  lemma AddedMore(db: Db, before: Db, logs: seq<Log>, key: LogKey, row: TradeRow)
    requires logs != [] && before.markets == db.markets
    ensures Added(db, logs[..|logs| - 1], key, row) || Added(before, [logs[|logs| - 1]], key, row) ==> Added(db, logs, key, row)
  {
    hide IsTradeOf;
    if Added(db, logs[..|logs| - 1], key, row) {
      var log :| log in logs[..|logs| - 1] && KeyOf(log) == key && IsTradeOf(db.markets, row.market, log, row)
                 && OnlyMarket(db, log.address, row.market);
      assert log in logs;
    }
    if Added(before, [logs[|logs| - 1]], key, row) {
      assert logs[|logs| - 1] in logs;
      assert OnlyMarket(db, logs[|logs| - 1].address, row.market);
    }
  }

  /** The pool is scanned up to `through` where it was scanned up to its cursor. */
  lemma AdvancedScan(w: World, chain: seq<Hash>, db: Db, pool: Address, logs: seq<Log>, through: int, log: Log)
    requires ScanOf(w, chain, db.pools, pool, logs, through)
    requires db.pools[pool].startBlock - 1 <= db.pools[pool].indexedThrough
    ensures Scanned(w, chain, AdvancePools(db, {pool}, through).pools, log) <==>
            Scanned(w, chain, db.pools, log) || log in logs
  {
  }

  lemma RowsOfScan(w: World, base: nat, chain: seq<Hash>, db: Db, pool: Address, logs: seq<Log>, through: int)
    requires ValidWorld(w) && Inv(w, base, chain, db) && chain != [] && JournalComplete(w, chain, db)
    requires ScanOf(w, chain, db.pools, pool, logs, through) && BackfillLogs(db, logs).Ok?
    requires forall log :: log in logs ==> KeyOf(log) !in db.trades
    ensures forall log :: log in logs ==> HasTrade(BackfillLogs(db, logs).value, log)
  {
    hide ValidWorld, Inv, BackfillLogs, ProjectSwap;
    BackfillLogsTrades(db, logs);
    var after := BackfillLogs(db, logs).value;
    forall log | log in logs ensures HasTrade(after, log) {
      var key := KeyOf(log);
      assert Added(db, logs, key, after.trades[key]);
      var same :| same in logs && KeyOf(same) == key && IsTradeOf(db.markets, after.trades[key].market, same, after.trades[key])
                  && OnlyMarket(db, same.address, after.trades[key].market);
      SameKeySameLog(w, same, log);
      OwnerHasPool(w, base, chain, db, pool);
    }
  }

  lemma OwnerHasPool(w: World, base: nat, chain: seq<Hash>, db: Db, pool: Address)
    requires Inv(w, base, chain, db) && pool in db.pools
    ensures HasPool(db, pool, db.pools[pool].owner)
    ensures db.pools[pool].startBlock - 1 <= db.pools[pool].indexedThrough
  {
  }

  /** A scan leaves the journal complete exactly when none of its logs has a row already: such rows are orphaned. */
  lemma FillKeepsJournal(
    w: World, base: nat, chain: seq<Hash>, db: Db, pool: Address, logs: seq<Log>, through: int)
    requires ValidWorld(w) && Inv(w, base, chain, db) && chain != [] && JournalComplete(w, chain, db)
    requires ScanOf(w, chain, db.pools, pool, logs, through) && Backfill(db, logs, {pool}, through).Ok?
    ensures JournalComplete(w, chain, Backfill(db, logs, {pool}, through).value)
            <==> forall log :: log in logs ==> KeyOf(log) !in db.trades
  {
    assert pool in db.pools;
    hide ValidWorld, Inv, BackfillLogs, IsTradeOf, ScanOf;
    var filled := BackfillLogs(db, logs).value;
    var after := AdvancePools(filled, {pool}, through);
    BackfillLogsTrades(db, logs);
    OwnerHasPool(w, base, chain, db, pool);
    forall log ensures Scanned(w, chain, after.pools, log) <==> Scanned(w, chain, db.pools, log) || log in logs {
      AdvancedScan(w, chain, db, pool, logs, through, log);
    }
    if forall log :: log in logs ==> KeyOf(log) !in db.trades {
      RowsOfScan(w, base, chain, db, pool, logs, through);
      FilledJournal(w, chain, db, filled, after, logs);
    } else {
      var log :| log in logs && KeyOf(log) in db.trades;
      NotYetScanned(w, chain, db, pool, logs, through, log);
      assert Scanned(w, chain, after.pools, log);
      assert !after.trades[KeyOf(log)].canonical;
      assert !HasTrade(after, log) by {
        NoncanonicalIsNoTrade(after, log);
      }
    }
  }

  lemma NoncanonicalIsNoTrade(db: Db, log: Log)
    requires KeyOf(log) in db.trades && !db.trades[KeyOf(log)].canonical
    ensures !HasTrade(db, log)
  {
    hide ProjectSwap;
  }

  /** A log above its pool's cursor has no canonical row. */
  lemma NotYetScanned(
    w: World, chain: seq<Hash>, db: Db, pool: Address, logs: seq<Log>, through: int, log: Log)
    requires ValidWorld(w) && JournalComplete(w, chain, db) && ScanOf(w, chain, db.pools, pool, logs, through)
    requires log in logs && KeyOf(log) in db.trades
    ensures !db.trades[KeyOf(log)].canonical
  {
    hide ValidWorld, HasTrade;
    if db.trades[KeyOf(log)].canonical {
      var same :| Scanned(w, chain, db.pools, same) && KeyOf(same) == KeyOf(log);
      SameKeySameLog(w, same, log);
    }
  }

  lemma FilledJournal(w: World, chain: seq<Hash>, db: Db, filled: Db, after: Db, logs: seq<Log>)
    requires JournalComplete(w, chain, db)
    requires forall log :: Scanned(w, chain, after.pools, log) <==> Scanned(w, chain, db.pools, log) || log in logs
    requires filled.markets == db.markets && filled.pools == db.pools
    requires after.trades == filled.trades && after.markets == filled.markets
    requires forall a :: a in db.pools ==> a in after.pools && after.pools[a].owner == db.pools[a].owner
    requires forall k :: k in db.trades ==> k in filled.trades && filled.trades[k] == db.trades[k]
    requires forall k :: k in filled.trades && k !in db.trades ==> Added(db, logs, k, filled.trades[k])
    requires forall log :: log in logs ==> HasTrade(filled, log)
    ensures JournalComplete(w, chain, after)
  {
    hide IsTradeOf, Scanned;
    forall k | k in after.trades && after.trades[k].canonical ensures ScannedKey(w, chain, after.pools, k) {
      if k in db.trades {
        var log :| Scanned(w, chain, db.pools, log) && KeyOf(log) == k;
        assert Scanned(w, chain, after.pools, log);
      } else {
        var log :| log in logs && KeyOf(log) == k;
        assert Scanned(w, chain, after.pools, log);
      }
    }
    forall log | Scanned(w, chain, after.pools, log) ensures HasTrade(after, log) {
      if log in logs {
        assert HasTrade(filled, log);
      } else {
        assert HasTrade(db, log);
      }
    }
  }

  // ---------------------------------------------------------------------------
  // Orphaned trades
  // ---------------------------------------------------------------------------

  /** The row is there and is not canonical. */
  predicate Orphaned(db: Db, key: LogKey) {
    key in db.trades && !db.trades[key].canonical
  }

  predicate KeepsMarkets(db: Db, after: Db) {
    forall id :: id in db.markets ==> id in after.markets && after.markets[id] == db.markets[id]
  }

  lemma CommitLogKeepsMarkets(db: Db, block: Block, generation: nat, log: Log)
    requires CommitLog(db, block, generation, log).Ok?
    ensures KeepsMarkets(db, CommitLog(db, block, generation, log).value)
  {
    hide InsertRawLog, InsertFact, HasKey, LaunchTaken, ValidLaunch;
    match log.event {
      case MarketLaunched(_) =>
      case _ =>
    }
  }

  lemma {:induction false} CommitLogsKeepTrades(db: Db, block: Block, generation: nat, logs: seq<Log>)
    requires CommitLogs(db, block, generation, logs).Ok?
    ensures var after := CommitLogs(db, block, generation, logs).value;
            after.trades == db.trades && after.pools == db.pools && KeepsMarkets(db, after)
  {
    hide CommitLog;
    if logs != [] {
      CommitLogsKeepTrades(db, block, generation, logs[..|logs| - 1]);
      CommitLogKeepsMarkets(CommitLogs(db, block, generation, logs[..|logs| - 1]).value, block, generation, logs[|logs| - 1]);
    }
  }

  /** No step makes an orphaned trade canonical again: its row stays orphaned until its market is removed. */
  lemma OrphanedTradeStays(w: World, base: nat, db: Db, step: Step, key: LogKey)
    requires Orphaned(db, key)
    ensures Orphaned(After(db, step), key) || key !in After(db, step).trades
  {
    hide CommitLogs, BackfillLogs, CanonicalAt, Rollback, HasKey;
    if Apply(db, step).Ok? {
      match step {
        case Extend(block, logs, observed) =>
          CommitLogsKeepTrades(InsertCanonicalBlock(db, block), block, db.cursor.value.generation, logs);
        case Rewind(ancestor, oldTip, removed) =>
          RollbackTables(db, ancestor, oldTip, removed);
        case FillPools(logs, pools, through) =>
          BackfillLogsTrades(db, logs);
        case _ =>
      }
    }
  }

  /** Rolling back a scanned block whose market stays orphans its trades. */
  lemma RewindOrphans(
    w: World, base: nat, chain: seq<Hash>, db: Db, ancestor: Block, oldTip: Block, removed: seq<MarketId>, log: Log)
    requires ValidWorld(w) && JournalComplete(w, chain, db) && Scanned(w, chain, db.pools, log)
    requires log.blockNumber > ancestor.number && db.pools[log.address].owner !in removed
    requires Rollback(db, ancestor, oldTip, removed).Ok?
    ensures Orphaned(Rollback(db, ancestor, oldTip, removed).value, KeyOf(log))
  {
    hide ValidWorld, Rollback, Scanned, ProjectSwap;
    assert HasTrade(db, log);
    RollbackTables(db, ancestor, oldTip, removed);
  }

  /** So a scan that meets an orphaned row, as one does when its block comes back, cannot leave the journal complete. */
  lemma ReturningBlockLosesTrades(
    w: World, base: nat, chain: seq<Hash>, db: Db, pool: Address, logs: seq<Log>, through: int, log: Log)
    requires ValidWorld(w) && Inv(w, base, chain, db) && chain != [] && JournalComplete(w, chain, db)
    requires ScanOf(w, chain, db.pools, pool, logs, through) && Backfill(db, logs, {pool}, through).Ok?
    requires log in logs && Orphaned(db, KeyOf(log))
    ensures var after := Backfill(db, logs, {pool}, through).value;
            && Scanned(w, chain, after.pools, log) && Orphaned(after, KeyOf(log))
            && !JournalComplete(w, chain, after)
  {
    assert pool in db.pools;
    hide ValidWorld, Inv, BackfillLogs, ScanOf, JournalComplete;
    FillKeepsJournal(w, base, chain, db, pool, logs, through);
    BackfillLogsTrades(db, logs);
    OwnerHasPool(w, base, chain, db, pool);
    AdvancedScan(w, chain, db, pool, logs, through, log);
  }

  // ---------------------------------------------------------------------------
  // Whole runs
  // ---------------------------------------------------------------------------

  /** An honest step whose scans are whole and meet no row that is already there. */
  ghost predicate FreshScan(w: World, registry: Registry, base: nat, chain: seq<Hash>, db: Db, step: Step) {
    Honest(w, registry, base, db, step)
    && match step
       case FillPools(logs, pools, through) =>
         exists pool :: pools == {pool} && ScanOf(w, chain, db.pools, pool, logs, through)
                        && forall log :: log in logs ==> !Orphaned(db, KeyOf(log))
       case _ => true
  }

  lemma JournalStep(w: World, registry: Registry, base: nat, chain: seq<Hash>, db: Db, step: Step)
    requires ValidWorld(w) && Inv(w, base, chain, db) && JournalComplete(w, chain, db)
    requires FreshScan(w, registry, base, chain, db, step)
    ensures JournalComplete(w, ChainAfter(base, chain, db, step), After(db, step))
  {
    hide ValidWorld, Tables, CommitLogs, Rollback, Backfill, RemovalOrder, PoolOwners, InsertPools, ScanOf, JournalComplete;
    hide RegisteredLogs, CanonicalAt;
    if Apply(db, step).Ok? {
      match step {
        case Start(baseline, observed) =>
          StartJournal(w, baseline, observed);
        case Observe(observed) =>
          FrameJournal(w, chain, db, After(db, step));
        case Extend(block, logs, observed) =>
          CommitNeedsCursor(db, block, logs, observed);
          CursorExtends(w, base, chain, db, block, logs, observed);
          CommitLogsKeepTrades(InsertCanonicalBlock(db, block), block, db.cursor.value.generation, logs);
          ExtendKeepsJournal(w, base, chain, db, After(db, step), block.hash);
        case Rewind(ancestor, oldTip, removed) =>
          RewindStep(w, base, chain, db, ancestor, oldTip, removed);
          RollbackTables(db, ancestor, oldTip, removed);
          RewindKeepsJournal(w, base, chain, db, ancestor.number - base + 1, removed, After(db, step));
        case TrackPools(through, owners) =>
          TrackKeepsJournal(w, base, chain, db, through, owners);
        case FillPools(logs, pools, through) =>
          var pool :| pools == {pool} && ScanOf(w, chain, db.pools, pool, logs, through)
                      && forall log :: log in logs ==> !Orphaned(db, KeyOf(log));
          ScanMeetsNothing(w, chain, db, pool, logs, through);
          assert {pool} == pools;
          FillKeepsJournal(w, base, chain, db, pool, logs, through);
      }
    }
  }

  lemma ScanMeetsNothing(w: World, chain: seq<Hash>, db: Db, pool: Address, logs: seq<Log>, through: int)
    requires ValidWorld(w) && JournalComplete(w, chain, db) && ScanOf(w, chain, db.pools, pool, logs, through)
    requires forall log :: log in logs ==> !Orphaned(db, KeyOf(log))
    ensures forall log :: log in logs ==> KeyOf(log) !in db.trades
  {
    hide ValidWorld, JournalComplete, ScanOf;
    forall log | log in logs ensures KeyOf(log) !in db.trades {
      if KeyOf(log) in db.trades {
        NotYetScanned(w, chain, db, pool, logs, through, log);
      }
    }
  }

  lemma StartJournal(w: World, baseline: Block, observed: nat)
    ensures JournalComplete(w, [], EMPTY_DB)
    ensures JournalComplete(w, [baseline.hash], InitializeCursor(EMPTY_DB, baseline, observed))
  {
  }

  lemma FrameJournal(w: World, chain: seq<Hash>, db: Db, after: Db)
    requires JournalComplete(w, chain, db)
    requires after.trades == db.trades && after.pools == db.pools && after.markets == db.markets
    ensures JournalComplete(w, chain, after)
  {
    hide ProjectSwap;
  }

  ghost predicate FreshScanRun(w: World, registry: Registry, base: nat, run: seq<Step>) {
    forall n :: 0 <= n < |run| ==> FreshScan(w, registry, base, RunChain(base, run[..n]), RunDb(run[..n]), run[n])
  }

  /** While no scan meets an orphaned row, the journal is complete after any history. */
  lemma {:induction false} JournalRun(w: World, registry: Registry, base: nat, run: seq<Step>)
    requires ValidWorld(w) && FreshScanRun(w, registry, base, run)
    ensures Inv(w, base, RunChain(base, run), RunDb(run))
    ensures JournalComplete(w, RunChain(base, run), RunDb(run))
  {
    hide ValidWorld, Inv, JournalComplete, After, ChainAfter;
    if run == [] {
      StartJournal(w, Block(0, 0, 0), 0);
      RunKeeps(w, base, run);
    } else {
      var n := |run| - 1;
      forall m | 0 <= m < n
        ensures FreshScan(w, registry, base, RunChain(base, run[..n][..m]), RunDb(run[..n][..m]), run[..n][m])
      {
        assert run[..n][..m] == run[..m];
      }
      JournalRun(w, registry, base, run[..n]);
      StepKeeps(w, base, RunChain(base, run[..n]), RunDb(run[..n]), run[n]);
      JournalStep(w, registry, base, RunChain(base, run[..n]), RunDb(run[..n]), run[n]);
    }
  }

  /** Where no orphaned hash has come back to the chain, no scan meets an orphaned row. */
  lemma NoHashReturned(w: World, chain: seq<Hash>, db: Db, pool: Address, logs: seq<Log>, through: int)
    requires ScanOf(w, chain, db.pools, pool, logs, through)
    requires forall k :: Orphaned(db, k) ==> k.blockHash !in chain
    ensures forall log :: log in logs ==> !Orphaned(db, KeyOf(log))
  {
  }

  /** The canonical trade of `log`, as the journal has it. */
  ghost predicate CanonicalTrade(db: Db, key: LogKey, row: TradeRow) {
    key in db.trades && db.trades[key].canonical && db.trades[key] == row
  }

  /** A complete journal is determined by the chain, the markets and how far the pools are scanned. */
  lemma JournalDetermined(w: World, chain: seq<Hash>, db: Db, other: Db, key: LogKey, row: TradeRow)
    requires JournalComplete(w, chain, db) && JournalComplete(w, chain, other)
    requires db.markets == other.markets && db.pools == other.pools
    ensures CanonicalTrade(db, key, row) <==> CanonicalTrade(other, key, row)
  {
    hide ProjectSwap, Scanned;
    if key in db.trades && db.trades[key].canonical {
      var log :| Scanned(w, chain, db.pools, log) && KeyOf(log) == key;
      assert HasTrade(db, log) && HasTrade(other, log);
    }
    if key in other.trades && other.trades[key].canonical {
      var log :| Scanned(w, chain, db.pools, log) && KeyOf(log) == key;
      assert HasTrade(db, log) && HasTrade(other, log);
    }
  }
}

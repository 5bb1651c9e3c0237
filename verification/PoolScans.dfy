/** When the scan of the pools succeeds on a node that holds still: the swaps that stop it. */
module PoolScans {
  import opened Outcomes
  import opened PancakeTrades
  import opened ChainData
  import opened Store
  import opened StoreInvariants
  import opened ReorgEquivalence
  import opened TradeJournal
  import opened SyncSteps

  /** A transaction is in one block of a chain, so its logs are. */
  ghost predicate TransactionsOnce(w: World, chain: seq<Hash>) {
    forall a: Log, b: Log :: HoldsLog(w, chain, a) && HoldsLog(w, chain, b) && a.txHash == b.txHash && a.logIndex == b.logIndex
                             ==> KeyOf(a) == KeyOf(b)
  }

  /** The log's pool has exactly one direct market, and the log projects to a trade of it. */
  predicate Trades(db: Db, log: Log) {
    var market := DirectMarketOf(db, log.address);
    market.Some? && log.event.Swap?
    && ProjectSwap(SwapOf(log), DirectMarketRow(market.value, db.markets[market.value].launch)).Ok?
  }

  /** A swap that is still before its pool, and cannot be stored. */
  ghost predicate Blocked(w: World, chain: seq<Hash>, db: Db, through: int, log: Log) {
    && HoldsLog(w, chain, log) && PoolSwap(log, db.pools.Keys)
    && db.pools[log.address].indexedThrough < log.blockNumber <= through && !Trades(db, log)
  }

  ghost predicate NothingBlocked(w: World, chain: seq<Hash>, db: Db, through: int) {
    forall log :: !Blocked(w, chain, db, through, log)
  }

  lemma SameMarketSameTrades(db: Db, other: Db, log: Log)
    requires db.markets == other.markets
    ensures DirectMarketOf(db, log.address) == DirectMarketOf(other, log.address)
    ensures Trades(db, log) <==> Trades(other, log)
  {
    hide ProjectSwap;
    var here, there := DirectMarketOf(db, log.address), DirectMarketOf(other, log.address);
    assert forall id :: OnlyMarket(db, log.address, id) <==> OnlyMarket(other, log.address, id);
    if here.Some? {
      assert OnlyMarket(other, log.address, here.value) && here.value in other.markets;
    }
    if there.Some? {
      assert OnlyMarket(db, log.address, there.value) && there.value in db.markets;
    }
  }

  // ---------------------------------------------------------------------------
  // One scan
  // ---------------------------------------------------------------------------

  /** The canonical trades came from logs of the chain. */
  ghost predicate TradesOfChain(w: World, chain: seq<Hash>, trades: map<LogKey, TradeRow>) {
    forall k :: k in trades && trades[k].canonical ==> exists log :: HoldsLog(w, chain, log) && KeyOf(log) == k
  }

  lemma StoredTradesOfChain(w: World, base: nat, chain: seq<Hash>, db: Db)
    requires ValidWorld(w) && Inv(w, base, chain, db) && Genuine(w, db)
    ensures TradesOfChain(w, chain, db.trades)
  {
    hide ValidWorld;
    forall k | k in db.trades && db.trades[k].canonical ensures exists log :: HoldsLog(w, chain, log) && KeyOf(log) == k {
      assert chain != [];
      assert k in db.rawLogs && k.blockHash in chain;
      var i :| 0 <= i < |chain| && chain[i] == k.blockHash;
      assert db.rawLogs[k].log in w.logsOf(chain[i]);
      assert HoldsLog(w, chain, db.rawLogs[k].log);
    }
  }

  lemma NotTaken(w: World, chain: seq<Hash>, trades: map<LogKey, TradeRow>, log: Log)
    requires TransactionsOnce(w, chain) && TradesOfChain(w, chain, trades) && HoldsLog(w, chain, log)
    ensures !TradeTaken(trades, KeyOf(log))
  {
    hide HoldsLog;
    forall other | other in trades && trades[other].canonical && other.txHash == log.txHash && other.logIndex == log.logIndex
      ensures other == KeyOf(log)
    {
      var source :| HoldsLog(w, chain, source) && KeyOf(source) == other;
    }
  }

  lemma FilledTradesOfChain(w: World, chain: seq<Hash>, db: Db, logs: seq<Log>)
    requires TradesOfChain(w, chain, db.trades) && BackfillLogs(db, logs).Ok?
    requires forall log :: log in logs ==> HoldsLog(w, chain, log)
    ensures TradesOfChain(w, chain, BackfillLogs(db, logs).value.trades)
  {
    hide BackfillLogs, HoldsLog, IsTradeOf;
    BackfillLogsTrades(db, logs);
    var after := BackfillLogs(db, logs).value;
    forall k | k in after.trades && after.trades[k].canonical ensures exists log :: HoldsLog(w, chain, log) && KeyOf(log) == k {
      if k !in db.trades {
        assert Added(db, logs, k, after.trades[k]);
      }
    }
  }

  lemma {:induction false} BackfillLogsKeepBlocks(db: Db, logs: seq<Log>)
    requires BackfillLogs(db, logs).Ok?
    ensures BackfillLogs(db, logs).value.blocks == db.blocks
  {
    hide InsertRawLog, InsertTrade;
    if logs != [] {
      BackfillLogsKeepBlocks(db, logs[..|logs| - 1]);
    }
  }

  lemma LogStoredExactly(db: Db, log: Log)
    requires CanonicalAt(db, log.blockHash, log.blockNumber) && !TradeTaken(db.trades, KeyOf(log))
    ensures BackfillLog(db, log).Ok? <==> Trades(db, log)
  {
    hide ProjectSwap, DirectMarketOf, TradeTaken;
    var stored := InsertRawLog(db, log).value;
    SameMarketSameTrades(db, stored, log);
  }

  /** A scan of canonical logs succeeds exactly when every one of them trades. */
  lemma {:induction false} LogsStoredExactly(w: World, chain: seq<Hash>, db: Db, logs: seq<Log>)
    requires TransactionsOnce(w, chain) && TradesOfChain(w, chain, db.trades)
    requires forall log :: log in logs ==> HoldsLog(w, chain, log) && CanonicalAt(db, log.blockHash, log.blockNumber)
    ensures BackfillLogs(db, logs).Ok? <==> forall log :: log in logs ==> Trades(db, log)
  {
    hide TransactionsOnce, TradesOfChain, HoldsLog, BackfillLog, Trades;
    if logs != [] {
      var n := |logs| - 1;
      assert logs == logs[..n] + [logs[n]];
      LogsStoredExactly(w, chain, db, logs[..n]);
      if BackfillLogs(db, logs[..n]).Ok? {
        var before := BackfillLogs(db, logs[..n]).value;
        FilledTradesOfChain(w, chain, db, logs[..n]);
        BackfillLogsKeepBlocks(db, logs[..n]);
        BackfillLogsTrades(db, logs[..n]);
        NotTaken(w, chain, before.trades, logs[n]);
        LogStoredExactly(before, logs[n]);
        SameMarketSameTrades(db, before, logs[n]);
      }
    }
  }

  /** On a still node the scan of a pool's next range succeeds exactly when each of its swaps there trades. */
  lemma ScanSucceedsExactly(
    w: World, registry: Registry, base: nat, chain: seq<Hash>, db: Db, remote: StillChain, past: History,
    pool: Address, logs: seq<Log>, through: int)
    requires ValidWorld(w) && Good(w, registry, base, chain, db, remote, past) && remote.Some? && chain != []
    requires ScanOf(w, chain, db.pools, pool, logs, through) && TransactionsOnce(w, chain)
    ensures Backfill(db, logs, {pool}, through).Ok? <==> forall log :: log in logs ==> Trades(db, log)
  {
    hide ValidWorld, Inv, BackfillLogs, Trades, JournalComplete, ChainView, Genuine, TransactionsOnce;
    StoredTradesOfChain(w, base, chain, db);
    forall log | log in logs ensures HoldsLog(w, chain, log) && CanonicalAt(db, log.blockHash, log.blockNumber) {
      ScannedLogIsCanonical(w, base, chain, db, log);
    }
    LogsStoredExactly(w, chain, db, logs);
  }

  lemma ScannedLogIsCanonical(w: World, base: nat, chain: seq<Hash>, db: Db, log: Log)
    requires ValidWorld(w) && Inv(w, base, chain, db) && log.blockHash in chain && log in w.logsOf(log.blockHash)
    ensures HoldsLog(w, chain, log) && CanonicalAt(db, log.blockHash, log.blockNumber)
  {
    hide ValidWorld, Inv;
    var i :| 0 <= i < |chain| && chain[i] == log.blockHash;
    LogsKnowTheirBlock(w, log.blockHash, log);
    ChainHeights(w, base, chain, db);
    StoredBlock(w, base, chain, db, base + i);
  }

  lemma ChainHeights(w: World, base: nat, chain: seq<Hash>, db: Db)
    requires Inv(w, base, chain, db)
    ensures forall i :: 0 <= i < |chain| ==> w.blockOf(chain[i]).number == base + i
  {
  }

  // ---------------------------------------------------------------------------
  // All scans
  // ---------------------------------------------------------------------------

  /** Where a scan stops, some swap is blocked; where it succeeds, whatever was blocked still is. */
  lemma ScanFindsBlocked(
    w: World, registry: Registry, base: nat, chain: seq<Hash>, db: Db, remote: StillChain, past: History,
    pool: Address, logs: seq<Log>, to: int, through: int)
    requires ValidWorld(w) && Good(w, registry, base, chain, db, remote, past) && remote.Some? && chain != []
    requires ScanOf(w, chain, db.pools, pool, logs, to) && to <= through && TransactionsOnce(w, chain)
    ensures Backfill(db, logs, {pool}, to).Fail? ==> !NothingBlocked(w, chain, db, through)
    ensures Backfill(db, logs, {pool}, to).Ok?
            ==> (NothingBlocked(w, chain, Backfill(db, logs, {pool}, to).value, through) <==> NothingBlocked(w, chain, db, through))
  {
    hide ValidWorld, Good, Backfill, Trades, TransactionsOnce, ScanOf;
    ScanSucceedsExactly(w, registry, base, chain, db, remote, past, pool, logs, to);
    if Backfill(db, logs, {pool}, to).Fail? {
      var log :| log in logs && !Trades(db, log);
      UnscannedLog(w, chain, db, pool, logs, to, log);
      assert Blocked(w, chain, db, through, log);
    } else {
      forall log ensures Blocked(w, chain, Backfill(db, logs, {pool}, to).value, through, log) <==> Blocked(w, chain, db, through, log) {
        BlockedStays(w, chain, db, pool, logs, to, through, log);
      }
    }
  }

  lemma UnscannedLog(w: World, chain: seq<Hash>, db: Db, pool: Address, logs: seq<Log>, to: int, log: Log)
    requires ScanOf(w, chain, db.pools, pool, logs, to) && log in logs
    ensures HoldsLog(w, chain, log) && PoolSwap(log, db.pools.Keys)
    ensures db.pools[log.address].indexedThrough < log.blockNumber <= to
  {
    var i :| 0 <= i < |chain| && chain[i] == log.blockHash;
    assert log in w.logsOf(chain[i]);
  }

  lemma BlockedStays(w: World, chain: seq<Hash>, db: Db, pool: Address, logs: seq<Log>, to: int, through: int, log: Log)
    requires ValidWorld(w) && ScanOf(w, chain, db.pools, pool, logs, to) && Backfill(db, logs, {pool}, to).Ok? && to <= through
    requires forall other :: other in logs ==> Trades(db, other)
    ensures Blocked(w, chain, Backfill(db, logs, {pool}, to).value, through, log) <==> Blocked(w, chain, db, through, log)
  {
    hide ValidWorld, BackfillLogs, Trades;
    var after := Backfill(db, logs, {pool}, to).value;
    BackfillLogsTrades(db, logs);
    SameMarketSameTrades(db, after, log);
    if HoldsLog(w, chain, log) {
      var i :| 0 <= i < |chain| && log in w.logsOf(chain[i]);
      LogsKnowTheirBlock(w, chain[i], log);
    }
  }

  /** Once every pool has had its blocks no swap is left to block it. */
  lemma NothingPendingNothingBlocked(w: World, base: nat, chain: seq<Hash>, db: Db, through: int)
    requires Inv(w, base, chain, db) && forall a :: !Pending(db, through, a)
    ensures NothingBlocked(w, chain, db, through)
  {
    hide HoldsLog, Trades;
    forall log | PoolSwap(log, db.pools.Keys) && db.pools[log.address].indexedThrough < log.blockNumber <= through
      ensures Pending(db, through, log.address)
    {
      NextRange(w, base, chain, db, log.address);
    }
  }

  lemma GoodNothingBlocked(
    w: World, registry: Registry, base: nat, chain: seq<Hash>, db: Db, remote: StillChain, past: History, through: int)
    requires Good(w, registry, base, chain, db, remote, past) && forall a :: !Pending(db, through, a)
    ensures NothingBlocked(w, chain, db, through)
  {
    hide Inv, Complete, JournalComplete;
    NothingPendingNothingBlocked(w, base, chain, db, through);
  }

  lemma OnceInPrefix(w: World, chain: seq<Hash>, remote: seq<Hash>)
    requires TransactionsOnce(w, remote) && chain <= remote
    ensures TransactionsOnce(w, chain)
  {
    forall log | HoldsLog(w, chain, log) ensures HoldsLog(w, remote, log) {
      var i :| 0 <= i < |chain| && log in w.logsOf(chain[i]);
      assert log in w.logsOf(remote[i]);
    }
  }

  /** What one scan on a still node says of the swaps before the pools. */
  lemma StillScan(
    w: World, registry: Registry, base: nat, chain: seq<Hash>, db: Db, remote: StillChain, past: History,
    pool: Address, logs: seq<Log>, to: int, through: int)
    requires ValidWorld(w) && Good(w, registry, base, chain, db, remote, past) && chain != [] && to <= through
    requires remote.Some? ==> ScanOf(w, chain, db.pools, pool, logs, to)
    ensures remote.Some? && TransactionsOnce(w, chain)
            ==> && (Backfill(db, logs, {pool}, to).Fail? ==> !NothingBlocked(w, chain, db, through))
                && (Backfill(db, logs, {pool}, to).Ok?
                    ==> (NothingBlocked(w, chain, Backfill(db, logs, {pool}, to).value, through)
                         <==> NothingBlocked(w, chain, db, through)))
  {
    hide ValidWorld, Good, Backfill, ScanOf, TransactionsOnce, NothingBlocked;
    if remote.Some? && TransactionsOnce(w, chain) {
      ScanFindsBlocked(w, registry, base, chain, db, remote, past, pool, logs, to, through);
    }
  }

  /** What a scan that succeeds keeps, and how far it brings its pool. */
  lemma ScanTaken(
    w: World, registry: Registry, base: nat, chain: seq<Hash>, db: Db, remote: StillChain, past: History,
    pool: Address, logs: seq<Log>, to: int, through: int)
    requires ValidWorld(w) && Good(w, registry, base, chain, db, remote, past) && Backfill(db, logs, {pool}, to).Ok?
    requires db.cursor.Some? && through <= db.cursor.value.number && AllTracked(db, through)
    requires pool in db.pools && db.pools[pool].indexedThrough < to <= through
    requires remote.Some? ==> ScanOf(w, chain, db.pools, pool, logs, to) && chain <= remote.value
    requires remote.Some? ==> forall log :: log in logs ==> log in w.logsOf(log.blockHash) && log.blockNumber > base
    ensures var after := Backfill(db, logs, {pool}, to).value;
            && Good(w, registry, base, chain, after, remote, past) && db.outbox <= after.outbox
            && after.cursor == db.cursor && AllTracked(after, through)
            && Unscanned(after.pools, through) < Unscanned(db.pools, through)
  {
    hide ValidWorld, Good, Backfill, ScanOf, Unscanned, AllTracked;
    FillTaken(w, registry, base, chain, db, remote, past, pool, logs, to);
    ScanAdvances(db, pool, logs, to, through);
    TrackedStays(db, Backfill(db, logs, {pool}, to).value, through);
  }

  /** What goes wrong with a swap is no race. */
  lemma {:induction false} BackfillIsNoRace(db: Db, logs: seq<Log>)
    ensures BackfillLogs(db, logs).Fail? ==> !IsRace(BackfillLogs(db, logs).error)
  {
    hide InsertTrade, InsertRawLog, IsRace;
    if logs != [] {
      var n := |logs| - 1;
      BackfillIsNoRace(db, logs[..n]);
      if BackfillLogs(db, logs[..n]).Ok? {
        SwapIsNoRace(BackfillLogs(db, logs[..n]).value, logs[n]);
      }
    }
  }

  lemma ScanIsNoRace(db: Db, logs: seq<Log>, pools: set<Address>, through: int)
    ensures Backfill(db, logs, pools, through).Fail? ==> !IsRace(Backfill(db, logs, pools, through).error)
  {
    hide BackfillLogs, IsRace;
    BackfillIsNoRace(db, logs);
  }

  lemma SwapIsNoRace(db: Db, log: Log)
    ensures BackfillLog(db, log).Fail? ==> !IsRace(BackfillLog(db, log).error)
  {
    hide DirectMarketOf, TradeTaken, CanonicalAt;
    if InsertRawLog(db, log).Ok? {
      var stored := InsertRawLog(db, log).value;
      var market := DirectMarketOf(stored, log.address);
      if market.Some? && log.event.Swap? {
        ProjectionIsNoRace(SwapOf(log), DirectMarketRow(market.value, stored.markets[market.value].launch));
      }
    }
  }

  lemma ProjectionIsNoRace(log: SwapLog, market: DirectMarket)
    ensures ProjectSwap(log, market).Fail? ==> !IsRace(ProjectSwap(log, market).error)
  {
  }
}

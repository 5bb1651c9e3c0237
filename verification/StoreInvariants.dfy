/** What every transaction of the store keeps, whatever the node answers. */
module StoreInvariants {
  import opened Outcomes
  import opened PancakeTrades
  import opened ChainData
  import opened Store

  // ---------------------------------------------------------------------------
  // Table by table
  // ---------------------------------------------------------------------------

  /** The canonical rows are the blocks of `chain`; every row says of its block what its hash determines. */
  ghost predicate BlocksInv(w: World, base: nat, chain: seq<Hash>, blocks: map<Hash, BlockRow>) {
    && chain != [] && Linked(w, base, chain)
    && (forall h :: h in blocks ==> blocks[h].number == w.blockOf(h).number
                                    && blocks[h].parentHash == w.blockOf(h).parentHash)
    && (forall h :: h in chain <==> h in blocks && blocks[h].canonical)
  }

  ghost predicate RawLogRowOk(w: World, chain: seq<Hash>, blocks: map<Hash, BlockRow>, k: LogKey, row: RawLogRow) {
    && KeyOf(row.log) == k && k.blockHash in blocks
    && row.log.blockNumber == w.blockOf(k.blockHash).number
    && (row.canonical ==> k.blockHash in chain)
  }

  ghost predicate RawLogsInv(w: World, chain: seq<Hash>, blocks: map<Hash, BlockRow>, rawLogs: map<LogKey, RawLogRow>) {
    forall k :: k in rawLogs ==> RawLogRowOk(w, chain, blocks, k, rawLogs[k])
  }

  ghost predicate FactsInv(w: World, chain: seq<Hash>, rawLogs: map<LogKey, RawLogRow>, facts: map<LogKey, FactRow>) {
    && (forall k :: k in facts ==>
          && k in rawLogs
          && facts[k].blockNumber == w.blockOf(k.blockHash).number
          && (facts[k].canonical ==> k.blockHash in chain))
    && (forall k :: k in facts && facts[k].canonical ==> !FactTaken(facts, k, facts[k].subject))
  }

  ghost predicate MarketsInv(base: nat, chain: seq<Hash>, markets: map<MarketId, MarketRow>) {
    && (forall id :: id in markets ==> base < markets[id].launchBlock < base + |chain| && ValidLaunch(markets[id].launch)
                                       && id.launchId == markets[id].launch.launchId)
    && (forall a, b :: a in markets && b in markets && a != b
                       ==> markets[a].launch.token != markets[b].launch.token
                           && markets[a].launch.recordId != markets[b].launch.recordId)
  }

  ghost predicate TradesInv(
    w: World, chain: seq<Hash>, rawLogs: map<LogKey, RawLogRow>, markets: map<MarketId, MarketRow>,
    trades: map<LogKey, TradeRow>)
  {
    && (forall k :: k in trades ==>
          && k in rawLogs && trades[k].market in markets
          && trades[k].blockNumber == w.blockOf(k.blockHash).number
          && (trades[k].canonical ==> k.blockHash in chain))
    && (forall k :: k in trades && trades[k].canonical ==> !TradeTaken(trades, k))
  }

  ghost predicate PoolsInv(base: nat, chain: seq<Hash>, markets: map<MarketId, MarketRow>, pools: map<Address, PoolRow>) {
    forall a :: a in pools ==>
      && pools[a].owner in markets && markets[pools[a].owner].launch.engineKind == 1
      && markets[pools[a].owner].launch.pool == a && markets[pools[a].owner].launchBlock == pools[a].startBlock
      && pools[a].startBlock - 1 <= pools[a].indexedThrough < base + |chain|
  }

  function GenerationOf(key: DedupeKey): nat {
    key.generation
  }

  /** Keys are unique and of no later generation; this generation's log emissions are of canonical blocks. */
  ghost predicate OutboxInv(chain: seq<Hash>, generation: nat, outbox: seq<OutboxRow>) {
    && (forall i, j :: 0 <= i < j < |outbox| ==> outbox[i].dedupeKey != outbox[j].dedupeKey)
    && (forall i :: 0 <= i < |outbox| ==> GenerationOf(outbox[i].dedupeKey) <= generation)
    && (forall i :: 0 <= i < |outbox| && outbox[i].dedupeKey.LogEmission? && outbox[i].dedupeKey.generation == generation
                    ==> outbox[i].dedupeKey.key.blockHash in chain)
  }

  /** The markets a reader knows who has followed the outbox from its first row. */
  function FoldMarkets(outbox: seq<OutboxRow>): set<MarketId> {
    if outbox == [] then {}
    else
      var before := FoldMarkets(outbox[..|outbox| - 1]);
      var row := outbox[|outbox| - 1];
      if !row.aggregate.Market? then before
      else match row.topic
        case MarketLaunch => before + {row.aggregate.id}
        case MarketRemoval => before - {row.aggregate.id}
        case _ => before
  }

  ghost predicate Tables(w: World, base: nat, chain: seq<Hash>, generation: nat, db: Db) {
    && BlocksInv(w, base, chain, db.blocks)
    && RawLogsInv(w, chain, db.blocks, db.rawLogs)
    && FactsInv(w, chain, db.rawLogs, db.facts)
    && MarketsInv(base, chain, db.markets)
    && TradesInv(w, chain, db.rawLogs, db.markets, db.trades)
    && PoolsInv(base, chain, db.markets, db.pools)
    && OutboxInv(chain, generation, db.outbox)
    && FoldMarkets(db.outbox) == db.markets.Keys
  }

  ghost predicate CursorInv(base: nat, chain: seq<Hash>, cursor: Option<Cursor>) {
    && chain != [] && cursor.Some?
    && cursor.value.number == base + |chain| - 1 && cursor.value.hash == chain[|chain| - 1]
    && cursor.value.finalized == cursor.value.number <= cursor.value.observed
  }

  /** Either the store is as it was installed, or its tables agree with `chain` from the baseline to the cursor. */
  ghost predicate Inv(w: World, base: nat, chain: seq<Hash>, db: Db) {
    if chain == [] then db == EMPTY_DB
    else CursorInv(base, chain, db.cursor) && Tables(w, base, chain, db.cursor.value.generation, db)
  }

  // ---------------------------------------------------------------------------
  // Chain safety, read off the invariant
  // ---------------------------------------------------------------------------

  /** Each height from the baseline to the cursor has exactly one canonical block, linked to the one below. */
  lemma ChainSafety(w: World, base: nat, chain: seq<Hash>, db: Db)
    requires Inv(w, base, chain, db) && chain != []
    ensures db.cursor.value.number == base + |chain| - 1
    ensures forall i :: 0 <= i < |chain| ==> CanonicalAt(db, chain[i], base + i)
    ensures forall h :: h in db.blocks && db.blocks[h].canonical
                        ==> base <= db.blocks[h].number < base + |chain| && h == chain[db.blocks[h].number - base]
    ensures CanonicalAt(db, db.cursor.value.hash, db.cursor.value.number)
    ensures forall i :: 0 < i < |chain| ==> db.blocks[chain[i]].parentHash == chain[i - 1]
    ensures forall k :: k in db.rawLogs && db.rawLogs[k].canonical
                        ==> CanonicalAt(db, k.blockHash, db.rawLogs[k].log.blockNumber)
    ensures forall k :: k in db.facts && db.facts[k].canonical ==> CanonicalAt(db, k.blockHash, db.facts[k].blockNumber)
    ensures forall k :: k in db.trades && db.trades[k].canonical ==> CanonicalAt(db, k.blockHash, db.trades[k].blockNumber)
  {
    forall h | h in db.blocks && db.blocks[h].canonical
      ensures base <= db.blocks[h].number < base + |chain| && h == chain[db.blocks[h].number - base]
    {
      var i :| 0 <= i < |chain| && chain[i] == h;
      assert w.blockOf(chain[i]).number == base + i;
    }
    forall i | 0 <= i < |chain| ensures CanonicalAt(db, chain[i], base + i) {
      assert w.blockOf(chain[i]).number == base + i;
      assert chain[i] in chain;
    }
    assert db.cursor.value.hash == chain[|chain| - 1];
  }

  // ---------------------------------------------------------------------------
  // Committing
  // ---------------------------------------------------------------------------

  /** The block extends the chain, and is what its hash determines. */
  ghost predicate Extends(w: World, base: nat, chain: seq<Hash>, block: Block) {
    chain != [] && w.blockOf(block.hash) == block && block.number == base + |chain|
    && block.parentHash == chain[|chain| - 1]
  }

  lemma NewToChain(w: World, base: nat, chain: seq<Hash>, blocks: map<Hash, BlockRow>, h: Hash)
    requires BlocksInv(w, base, chain, blocks) && w.blockOf(h).number == base + |chain|
    ensures h !in chain
  {
    forall i | 0 <= i < |chain| ensures chain[i] != h {
      assert w.blockOf(chain[i]).number == base + i;
    }
  }

  lemma CursorExtends(w: World, base: nat, chain: seq<Hash>, db: Db, block: Block, logs: seq<Log>, observed: nat)
    requires Inv(w, base, chain, db) && w.blockOf(block.hash) == block && CommitBlock(db, block, logs, observed).Ok?
    ensures Extends(w, base, chain, block)
  {
  }

  lemma BlockAdded(w: World, base: nat, chain: seq<Hash>, blocks: map<Hash, BlockRow>, block: Block)
    requires BlocksInv(w, base, chain, blocks) && Extends(w, base, chain, block)
    ensures BlocksInv(w, base, chain + [block.hash], blocks[block.hash := BlockRow(block.number, block.parentHash, true)])
  {
    var longer := chain + [block.hash];
    assert Linked(w, base, longer);
    assert forall h :: h in longer <==> h in chain || h == block.hash;
  }

  /** Rows of a chain's blocks are rows of a longer chain's blocks. */
  lemma RowsFollowChain(w: World, chain: seq<Hash>, longer: seq<Hash>, db: Db, blocks: map<Hash, BlockRow>)
    requires RawLogsInv(w, chain, db.blocks, db.rawLogs) && FactsInv(w, chain, db.rawLogs, db.facts)
    requires TradesInv(w, chain, db.rawLogs, db.markets, db.trades)
    requires db.blocks.Keys <= blocks.Keys && forall h :: h in chain ==> h in longer
    ensures RawLogsInv(w, longer, blocks, db.rawLogs) && FactsInv(w, longer, db.rawLogs, db.facts)
    ensures TradesInv(w, longer, db.rawLogs, db.markets, db.trades)
  {
    hide FactTaken, TradeTaken;
  }

  lemma AddBlock(w: World, base: nat, chain: seq<Hash>, generation: nat, db: Db, block: Block)
    requires Tables(w, base, chain, generation, db) && Extends(w, base, chain, block)
    ensures Tables(w, base, chain + [block.hash], generation, InsertCanonicalBlock(db, block))
  {
    hide BlocksInv, RawLogsInv, FactsInv, TradesInv, FoldMarkets, ValidLaunch;
    BlockAdded(w, base, chain, db.blocks, block);
    RowsFollowChain(w, chain, chain + [block.hash], db, InsertCanonicalBlock(db, block).blocks);
  }

  ghost predicate Unannounced(outbox: seq<OutboxRow>, log: Log, generation: nat) {
    !HasKey(outbox, LogEmission(KeyOf(log), generation))
  }

  lemma RawLogsGrow(w: World, chain: seq<Hash>, db: Db, log: Log)
    requires RawLogsInv(w, chain, db.blocks, db.rawLogs) && InsertRawLog(db, log).Ok?
    requires log.blockHash in chain && log.blockNumber == w.blockOf(log.blockHash).number
    ensures RawLogsInv(w, chain, db.blocks, InsertRawLog(db, log).value.rawLogs)
    ensures db.rawLogs.Keys + {KeyOf(log)} == InsertRawLog(db, log).value.rawLogs.Keys
  {
  }

  lemma RowsKeepLogs(w: World, chain: seq<Hash>, db: Db, rawLogs: map<LogKey, RawLogRow>)
    requires FactsInv(w, chain, db.rawLogs, db.facts) && TradesInv(w, chain, db.rawLogs, db.markets, db.trades)
    requires db.rawLogs.Keys <= rawLogs.Keys
    ensures FactsInv(w, chain, rawLogs, db.facts) && TradesInv(w, chain, rawLogs, db.markets, db.trades)
  {
    hide FactTaken, TradeTaken;
  }

  lemma InsertRawLogKeeps(w: World, base: nat, chain: seq<Hash>, generation: nat, db: Db, log: Log)
    requires Tables(w, base, chain, generation, db) && InsertRawLog(db, log).Ok?
    requires log.blockHash in chain && log.blockNumber == w.blockOf(log.blockHash).number
    ensures Tables(w, base, chain, generation, InsertRawLog(db, log).value)
    ensures KeyOf(log) in InsertRawLog(db, log).value.rawLogs
  {
    hide BlocksInv, RawLogsInv, FactsInv, MarketsInv, TradesInv, PoolsInv, OutboxInv, FoldMarkets, InsertRawLog;
    RawLogsGrow(w, chain, db, log);
    RowsKeepLogs(w, chain, db, InsertRawLog(db, log).value.rawLogs);
  }

  lemma InsertFactKeeps(w: World, base: nat, chain: seq<Hash>, generation: nat, db: Db, log: Log, subject: Subject)
    requires Tables(w, base, chain, generation, db) && InsertFact(db, log, subject).Ok?
    requires log.blockHash in chain && log.blockNumber == w.blockOf(log.blockHash).number && KeyOf(log) in db.rawLogs
    ensures Tables(w, base, chain, generation, InsertFact(db, log, subject).value)
  {
    var after := InsertFact(db, log, subject).value;
    var key := KeyOf(log);
    assert !FactTaken(db.facts, key, after.facts[key].subject);
    forall k, other | k in after.facts && other in after.facts && k != other
                      && after.facts[k].canonical && after.facts[other].canonical
      ensures after.facts[k].subject != after.facts[other].subject
    {
      if k != key && other != key {
        assert !FactTaken(db.facts, k, db.facts[k].subject);
      }
    }
  }

  lemma FoldAppend(outbox: seq<OutboxRow>, row: OutboxRow)
    ensures FoldMarkets(outbox + [row]) ==
            if row.aggregate.Market? && row.topic == MarketLaunch then FoldMarkets(outbox) + {row.aggregate.id}
            else if row.aggregate.Market? && row.topic == MarketRemoval then FoldMarkets(outbox) - {row.aggregate.id}
            else FoldMarkets(outbox)
  {
    assert (outbox + [row])[..|outbox|] == outbox;
  }

  /** The market table and the fold gain the launched market together: the emission is never suppressed. */
  lemma InsertMarketKeeps(
    w: World, base: nat, chain: seq<Hash>, generation: nat, db: Db, block: Block, log: Log)
    requires Tables(w, base, chain, generation, db) && log.event.MarketLaunched? && InsertMarket(db, block, log).Ok?
    requires base < block.number < base + |chain|
    requires log.blockHash in chain && Unannounced(db.outbox, log, generation)
    ensures Tables(w, base, chain, generation,
                   InsertOutbox(InsertMarket(db, block, log).value, BuildEmission(log, generation)))
  {
    hide BlocksInv, RawLogsInv, FactsInv, TradesInv, MarketsInv, PoolsInv, OutboxInv, FoldMarkets, InsertMarket, HasKey;
    MarketsGrow(base, chain, db, block, log);
    TradesKeepMarkets(w, chain, db, InsertMarket(db, block, log).value);
    FoldAppend(db.outbox, BuildEmission(log, generation));
    EmissionIsFree(chain, generation, db.outbox, log);
  }

  lemma EmissionIsFree(chain: seq<Hash>, generation: nat, outbox: seq<OutboxRow>, log: Log)
    requires OutboxInv(chain, generation, outbox) && log.blockHash in chain && Unannounced(outbox, log, generation)
    ensures OutboxInv(chain, generation, outbox + [BuildEmission(log, generation)])
  {
  }

  lemma MarketsGrow(base: nat, chain: seq<Hash>, db: Db, block: Block, log: Log)
    requires MarketsInv(base, chain, db.markets) && PoolsInv(base, chain, db.markets, db.pools)
    requires log.event.MarketLaunched? && InsertMarket(db, block, log).Ok? && base < block.number < base + |chain|
    ensures MarketsInv(base, chain, InsertMarket(db, block, log).value.markets)
    ensures PoolsInv(base, chain, InsertMarket(db, block, log).value.markets, db.pools)
    ensures InsertMarket(db, block, log).value.markets.Keys == db.markets.Keys + {MarketIdOf(log)}
  {
    hide PoolsInv, MarketsInv, LaunchTaken;
    if MarketIdOf(log) !in db.markets {
      MarketAdded(base, chain, db.markets, block, log);
      PoolsKeepMarkets(base, chain, db.markets, db.pools, InsertMarket(db, block, log).value.markets);
    }
  }

  lemma MarketAdded(base: nat, chain: seq<Hash>, markets: map<MarketId, MarketRow>, block: Block, log: Log)
    requires MarketsInv(base, chain, markets) && log.event.MarketLaunched? && MarketIdOf(log) !in markets
    requires ValidLaunch(log.event.launch) && !LaunchTaken(markets, log.event.launch)
    requires base < block.number < base + |chain|
    ensures MarketsInv(base, chain, markets[MarketIdOf(log) :=
              MarketRow(log.event.launch, block.number, log.txHash, log.logIndex)])
  {
    hide ValidLaunch;
  }

  lemma PoolsKeepMarkets(
    base: nat, chain: seq<Hash>, markets: map<MarketId, MarketRow>, pools: map<Address, PoolRow>,
    more: map<MarketId, MarketRow>)
    requires PoolsInv(base, chain, markets, pools)
    requires forall id :: id in markets ==> id in more && more[id] == markets[id]
    ensures PoolsInv(base, chain, more, pools)
  {
  }

  lemma TradesKeepMarkets(w: World, chain: seq<Hash>, db: Db, after: Db)
    requires TradesInv(w, chain, db.rawLogs, db.markets, db.trades)
    requires after == db.(markets := after.markets) && db.markets.Keys <= after.markets.Keys
    ensures TradesInv(w, chain, after.rawLogs, after.markets, after.trades)
  {
    hide TradeTaken;
  }

  lemma InsertEventKeeps(w: World, base: nat, chain: seq<Hash>, generation: nat, db: Db, log: Log)
    requires Tables(w, base, chain, generation, db) && !log.event.MarketLaunched?
    requires log.blockHash in chain && Unannounced(db.outbox, log, generation)
    ensures Tables(w, base, chain, generation, InsertOutbox(db, BuildEmission(log, generation)))
  {
    FoldAppend(db.outbox, BuildEmission(log, generation));
  }

  lemma CommitLogKeeps(
    w: World, base: nat, chain: seq<Hash>, generation: nat, db: Db, block: Block, log: Log)
    requires Tables(w, base, chain, generation, db) && CommitLog(db, block, generation, log).Ok?
    requires base < block.number < base + |chain|
    requires log.blockHash in chain && log.blockNumber == w.blockOf(log.blockHash).number
    requires Unannounced(db.outbox, log, generation)
    ensures var after := CommitLog(db, block, generation, log).value;
            Tables(w, base, chain, generation, after) && after.outbox == db.outbox + [BuildEmission(log, generation)]
            && after.cursor == db.cursor
  {
    hide Tables, InsertRawLog, InsertFact, InsertMarket, HasKey;
    var stored := InsertRawLog(db, log).value;
    InsertRawLogKeeps(w, base, chain, generation, db, log);
    match log.event {
      case PriceAttested(digest, _) =>
        InsertFactKeeps(w, base, chain, generation, stored, log, Attestation(digest));
        InsertEventKeeps(w, base, chain, generation, InsertFact(stored, log, Attestation(digest)).value, log);
      case DirectMarketLaunched(launchId, _) =>
        var subject := DirectLaunch(log.address, launchId);
        InsertFactKeeps(w, base, chain, generation, stored, log, subject);
        InsertEventKeeps(w, base, chain, generation, InsertFact(stored, log, subject).value, log);
      case MarketLaunched(_) =>
        InsertMarketKeeps(w, base, chain, generation, stored, block, log);
      case _ =>
        InsertEventKeeps(w, base, chain, generation, stored, log);
    }
  }

  /** The rows that a block's logs add to the outbox. */
  function Emissions(logs: seq<Log>, generation: nat): seq<OutboxRow> {
    seq(|logs|, i requires 0 <= i < |logs| => BuildEmission(logs[i], generation))
  }

  /** The row announces the log under its own key: a launch by its market, any other event by its contract. */
  predicate Announces(row: OutboxRow, log: Log, generation: nat) {
    && row.dedupeKey == LogEmission(LogKey(log.blockHash, log.txHash, log.logIndex), generation)
    && match log.event
       case MarketLaunched(launch) =>
         row.topic == MarketLaunch && row.aggregate == Market(MarketId(log.address, launch.launchId))
       case _ => row.topic == QuoteEvent && row.aggregate == Contract(log.address)
  }

  /** `after` is `before` with one row more for each log, in the order of the logs. */
  ghost predicate Announced(before: seq<OutboxRow>, after: seq<OutboxRow>, logs: seq<Log>, generation: nat) {
    && before <= after && |after| == |before| + |logs|
    && forall i :: 0 <= i < |logs| ==> Announces(after[|before| + i], logs[i], generation)
  }

  lemma EmissionsAnnounce(before: seq<OutboxRow>, logs: seq<Log>, generation: nat)
    ensures Announced(before, before + Emissions(logs, generation), logs, generation)
  {
  }

  ghost predicate LogsOfBlock(logs: seq<Log>, block: Block) {
    && (forall log :: log in logs ==> log.blockHash == block.hash && log.blockNumber == block.number)
    && (forall i, j :: 0 <= i < j < |logs| ==> KeyOf(logs[i]) != KeyOf(logs[j]))
  }

  lemma {:induction false} CommitLogsKeep(
    w: World, base: nat, chain: seq<Hash>, generation: nat, db: Db, block: Block, logs: seq<Log>)
    requires Tables(w, base, chain, generation, db) && CommitLogs(db, block, generation, logs).Ok?
    requires w.blockOf(block.hash) == block && block.hash in chain && base < block.number < base + |chain|
    requires LogsOfBlock(logs, block)
    requires forall log :: log in logs ==> Unannounced(db.outbox, log, generation)
    ensures var after := CommitLogs(db, block, generation, logs).value;
            Tables(w, base, chain, generation, after) && after.outbox == db.outbox + Emissions(logs, generation)
            && after.cursor == db.cursor
  {
    hide Tables, CommitLog;
    if logs != [] {
      var n := |logs| - 1;
      CommitLogsKeep(w, base, chain, generation, db, block, logs[..n]);
      var before := CommitLogs(db, block, generation, logs[..n]).value;
      assert logs[n] in logs;
      NotYetAnnounced(db.outbox, logs, n, generation);
      CommitLogKeeps(w, base, chain, generation, before, block, logs[n]);
      assert Emissions(logs, generation) == Emissions(logs[..n], generation) + [BuildEmission(logs[n], generation)];
    } else {
      assert Emissions(logs, generation) == [];
    }
  }

  lemma NotYetAnnounced(outbox: seq<OutboxRow>, logs: seq<Log>, n: nat, generation: nat)
    requires n < |logs| && Unannounced(outbox, logs[n], generation)
    requires forall i, j :: 0 <= i < j < |logs| ==> KeyOf(logs[i]) != KeyOf(logs[j])
    ensures Unannounced(outbox + Emissions(logs[..n], generation), logs[n], generation)
  {
  }

  /** A committed block adds one outbox row for each of its logs, in order: no dedupe key is ever taken. */
  lemma CommitBlockKeeps(w: World, base: nat, chain: seq<Hash>, db: Db, block: Block, logs: seq<Log>, observed: nat)
    requires Inv(w, base, chain, db) && CommitBlock(db, block, logs, observed).Ok?
    requires w.blockOf(block.hash) == block && LogsOfBlock(logs, block)
    ensures var after := CommitBlock(db, block, logs, observed).value;
            Inv(w, base, chain + [block.hash], after)
            && after.outbox == db.outbox + Emissions(logs, db.cursor.value.generation)
  {
    hide CommitLogs, BlocksInv, RawLogsInv, FactsInv, MarketsInv, TradesInv, PoolsInv, FoldMarkets;
    var generation := db.cursor.value.generation;
    var with := InsertCanonicalBlock(db, block);
    CursorExtends(w, base, chain, db, block, logs, observed);
    AddBlock(w, base, chain, generation, db, block);
    NewToChain(w, base, chain, db.blocks, block.hash);
    CommitLogsKeep(w, base, chain + [block.hash], generation, with, block, logs);
  }

  /** What those rows say. */
  lemma CommitBlockAnnounces(w: World, base: nat, chain: seq<Hash>, db: Db, block: Block, logs: seq<Log>, observed: nat)
    requires Inv(w, base, chain, db) && CommitBlock(db, block, logs, observed).Ok?
    requires w.blockOf(block.hash) == block && LogsOfBlock(logs, block)
    ensures db.cursor.Some?
    ensures Announced(db.outbox, CommitBlock(db, block, logs, observed).value.outbox, logs, db.cursor.value.generation)
  {
    assert db.cursor.Some?;
    hide Inv, CommitBlock, Announced, Emissions, LogsOfBlock;
    CommitBlockKeeps(w, base, chain, db, block, logs, observed);
    EmissionsAnnounce(db.outbox, logs, db.cursor.value.generation);
  }

  // ---------------------------------------------------------------------------
  // Starting
  // ---------------------------------------------------------------------------

  lemma InitializeKeeps(w: World, base: nat, baseline: Block, observed: nat)
    requires w.blockOf(baseline.hash) == baseline && baseline.number == base
    ensures Inv(w, base, [baseline.hash], InitializeCursor(EMPTY_DB, baseline, observed))
  {
  }

  lemma ObserveKeeps(w: World, base: nat, chain: seq<Hash>, db: Db, observed: nat)
    requires Inv(w, base, chain, db)
    ensures Inv(w, base, chain, UpdateObservedHead(db, observed))
  {
  }

  // ---------------------------------------------------------------------------
  // Rolling back
  // ---------------------------------------------------------------------------

  /** The canonical blocks that a rollback keeps are those of the shorter chain. */
  lemma OrphanedBlocks(w: World, base: nat, chain: seq<Hash>, blocks: map<Hash, BlockRow>, kept: nat)
    requires BlocksInv(w, base, chain, blocks) && 0 < kept <= |chain|
    ensures BlocksInv(w, base, chain[..kept], OrphanBlocks(blocks, base + kept - 1))
    ensures forall h :: h in chain ==> (h in chain[..kept] <==> w.blockOf(h).number <= base + kept - 1)
  {
    LinkedPrefix(w, base, chain, kept);
    forall h | h in chain ensures h in chain[..kept] <==> w.blockOf(h).number <= base + kept - 1 {
      var i :| 0 <= i < |chain| && chain[i] == h;
      assert w.blockOf(chain[i]).number == base + i;
      if i < kept {
        assert chain[..kept][i] == h;
      } else {
        forall j | 0 <= j < kept ensures chain[j] != h {
          assert w.blockOf(chain[j]).number == base + j;
        }
      }
    }
  }

  lemma OrphanedRawLogs(w: World, base: nat, chain: seq<Hash>, db: Db, kept: nat)
    requires BlocksInv(w, base, chain, db.blocks) && 0 < kept <= |chain|
    requires RawLogsInv(w, chain, db.blocks, db.rawLogs)
    ensures RawLogsInv(w, chain[..kept], OrphanBlocks(db.blocks, base + kept - 1), OrphanRawLogs(db.rawLogs, base + kept - 1))
  {
    hide BlocksInv;
    OrphanedBlocks(w, base, chain, db.blocks, kept);
  }

  lemma OrphanedFacts(w: World, base: nat, chain: seq<Hash>, db: Db, kept: nat)
    requires BlocksInv(w, base, chain, db.blocks) && 0 < kept <= |chain|
    requires FactsInv(w, chain, db.rawLogs, db.facts)
    ensures FactsInv(w, chain[..kept], OrphanRawLogs(db.rawLogs, base + kept - 1), OrphanFacts(db.facts, base + kept - 1))
  {
    OrphanedBlocks(w, base, chain, db.blocks, kept);
    hide BlocksInv;
    var (facts, after) := (db.facts, OrphanFacts(db.facts, base + kept - 1));
    forall k | k in after && after[k].canonical ensures !FactTaken(after, k, after[k].subject) {
      assert !FactTaken(facts, k, facts[k].subject);
      assert forall other :: other in after && after[other].canonical ==> facts[other] == after[other];
    }
  }

  lemma OrphanedTrades(w: World, base: nat, chain: seq<Hash>, db: Db, kept: nat, removed: seq<MarketId>)
    requires BlocksInv(w, base, chain, db.blocks) && 0 < kept <= |chain|
    requires TradesInv(w, chain, db.rawLogs, db.markets, db.trades)
    ensures TradesInv(w, chain[..kept], OrphanRawLogs(db.rawLogs, base + kept - 1), RetainMarkets(db.markets, removed),
                      OrphanTrades(db.trades, base + kept - 1, removed))
  {
    OrphanedBlocks(w, base, chain, db.blocks, kept);
    var (trades, after) := (db.trades, OrphanTrades(db.trades, base + kept - 1, removed));
    forall k | k in after && after[k].canonical ensures !TradeTaken(after, k) {
      assert !TradeTaken(trades, k);
      assert forall other :: other in after && after[other].canonical ==> trades[other] == after[other];
    }
  }

  lemma RetainedMarkets(base: nat, chain: seq<Hash>, db: Db, kept: nat, removed: seq<MarketId>)
    requires 0 < kept <= |chain| && RemovalOrder(db, base + kept - 1, removed)
    requires MarketsInv(base, chain, db.markets) && PoolsInv(base, chain, db.markets, db.pools)
    ensures MarketsInv(base, chain[..kept], RetainMarkets(db.markets, removed))
    ensures PoolsInv(base, chain[..kept], RetainMarkets(db.markets, removed),
                     RewindPools(db.pools, base + kept - 1, removed))
  {
    hide RemovalBefore, ValidLaunch;
    MarketsKept(base, chain, db, kept, removed);
    hide MarketsInv;
  }

  lemma MarketsKept(base: nat, chain: seq<Hash>, db: Db, kept: nat, removed: seq<MarketId>)
    requires 0 < kept <= |chain| && RemovalOrder(db, base + kept - 1, removed) && MarketsInv(base, chain, db.markets)
    ensures MarketsInv(base, chain[..kept], RetainMarkets(db.markets, removed))
  {
    hide RemovalBefore, ValidLaunch;
  }

  /** The rows that announce the removals, one for each and in their order. */
  function RemovalRows(removed: seq<MarketId>, generation: nat): seq<OutboxRow> {
    seq(|removed|, i requires 0 <= i < |removed| =>
      OutboxRow(MarketRemoval, Market(removed[i]), RemovalEmission(removed[i], generation)))
  }

  lemma RowIsFree(outbox: seq<OutboxRow>, removed: seq<MarketId>, n: nat, generation: nat)
    requires n < |removed| && !HasKey(outbox, RemovalEmission(removed[n], generation))
    requires forall i, j :: 0 <= i < j < |removed| ==> removed[i] != removed[j]
    ensures !HasKey(outbox + RemovalRows(removed[..n], generation), RemovalEmission(removed[n], generation))
  {
  }

  /** Every removal is announced: no key of its generation is taken. */
  lemma {:induction false} RemovalsInOrder(db: Db, removed: seq<MarketId>, generation: nat)
    requires forall i, j :: 0 <= i < j < |removed| ==> removed[i] != removed[j]
    requires forall id :: id in removed ==> !HasKey(db.outbox, RemovalEmission(id, generation))
    ensures Announce(db, removed, generation).outbox == db.outbox + RemovalRows(removed, generation)
  {
    hide HasKey;
    if removed != [] {
      var n := |removed| - 1;
      RemovalsInOrder(db, removed[..n], generation);
      assert removed[n] in removed;
      RowIsFree(db.outbox, removed, n, generation);
      var row := OutboxRow(MarketRemoval, Market(removed[n]), RemovalEmission(removed[n], generation));
      assert RemovalRows(removed, generation) == RemovalRows(removed[..n], generation) + [row];
    }
  }

  /** Announcing the removals takes exactly the removed markets out of the fold; no announcement is suppressed. */
  lemma {:induction false} AnnounceRemovals(db: Db, removed: seq<MarketId>, chain: seq<Hash>, generation: nat)
    requires OutboxInv(chain, generation, db.outbox)
    requires forall i, j :: 0 <= i < j < |removed| ==> removed[i] != removed[j]
    requires forall id :: id in removed ==> !HasKey(db.outbox, RemovalEmission(id, generation))
    ensures var after := Announce(db, removed, generation);
            && OutboxInv(chain, generation, after.outbox)
            && |after.outbox| == |db.outbox| + |removed|
            && FoldMarkets(after.outbox) == FoldMarkets(db.outbox) - (set id | id in removed)
            && after == db.(outbox := after.outbox)
            && forall id :: id !in removed && !HasKey(db.outbox, RemovalEmission(id, generation))
                            ==> !HasKey(after.outbox, RemovalEmission(id, generation))
  {
    if removed != [] {
      var n := |removed| - 1;
      AnnounceRemovals(db, removed[..n], chain, generation);
      var before := Announce(db, removed[..n], generation);
      var row := OutboxRow(MarketRemoval, Market(removed[n]), RemovalEmission(removed[n], generation));
      assert removed[n] !in removed[..n] && removed[n] in removed;
      FoldAppend(before.outbox, row);
      assert removed == removed[..n] + [removed[n]];
      assert Announce(db, removed, generation).outbox == before.outbox + [row];
    }
  }

  lemma RollbackKeeps(
    w: World, base: nat, chain: seq<Hash>, db: Db, ancestor: Block, oldTip: Block, removed: seq<MarketId>, kept: nat)
    requires Inv(w, base, chain, db) && 0 < kept <= |chain|
    requires ancestor.hash == chain[kept - 1] && ancestor.number == base + kept - 1
    requires RemovalOrder(db, ancestor.number, removed)
    requires Rollback(db, ancestor, oldTip, removed).Ok?
    ensures var after := Rollback(db, ancestor, oldTip, removed).value;
            Inv(w, base, chain[..kept], after)
            && after.outbox == db.outbox
                 + [OutboxRow(ChainReorg, ChainWide, ReorgEmission(oldTip.hash, ancestor.hash, db.cursor.value.generation + 1))]
                 + RemovalRows(removed, db.cursor.value.generation + 1)
  {
    hide BlocksInv, RawLogsInv, FactsInv, MarketsInv, TradesInv, PoolsInv, OutboxInv, FoldMarkets, RemovalOrder;
    hide OrphanBlocks, OrphanRawLogs, OrphanFacts, OrphanTrades, RewindPools, RemovalRows;
    var c := db.cursor.value;
    var next := c.generation + 1;
    var row := OutboxRow(ChainReorg, ChainWide, ReorgEmission(oldTip.hash, ancestor.hash, next));
    OrphanedBlocks(w, base, chain, db.blocks, kept);
    OrphanedRawLogs(w, base, chain, db, kept);
    OrphanedFacts(w, base, chain, db, kept);
    OrphanedTrades(w, base, chain, db, kept, removed);
    RetainedMarkets(base, chain, db, kept, removed);
    NextGenerationIsFree(chain, chain[..kept], c.generation, db.outbox, row, removed);
    FoldAppend(db.outbox, row);
    var noted := InsertOutbox(db, row);
    var rewound := Rewound(db, ancestor, oldTip, removed);
    RemovedOnce(db, ancestor.number, removed);
    AnnounceRemovals(rewound, removed, chain[..kept], next);
    RemovalsInOrder(rewound, removed, next);
    assert RetainMarkets(db.markets, removed).Keys == db.markets.Keys - (set id | id in removed);
  }

  lemma RemovedOnce(db: Db, number: nat, removed: seq<MarketId>)
    requires RemovalOrder(db, number, removed)
    ensures forall i, j :: 0 <= i < j < |removed| ==> removed[i] != removed[j]
  {
  }

  lemma NextGenerationIsFree(
    chain: seq<Hash>, shorter: seq<Hash>, generation: nat, outbox: seq<OutboxRow>, row: OutboxRow, removed: seq<MarketId>)
    requires OutboxInv(chain, generation, outbox)
    requires row.dedupeKey.ReorgEmission? && row.dedupeKey.generation == generation + 1
    ensures !HasKey(outbox, row.dedupeKey) && OutboxInv(shorter, generation + 1, outbox + [row])
    ensures forall id :: id in removed ==> !HasKey(outbox + [row], RemovalEmission(id, generation + 1))
  {
  }

  // ---------------------------------------------------------------------------
  // Pools and trades
  // ---------------------------------------------------------------------------

  lemma InsertPoolsKeeps(
    w: World, base: nat, chain: seq<Hash>, generation: nat, db: Db, through: int, owners: map<Address, MarketId>)
    requires Tables(w, base, chain, generation, db) && PoolOwners(db, through, owners)
    ensures Tables(w, base, chain, generation, InsertPools(db, owners))
  {
  }

  lemma TradesGrow(
    w: World, chain: seq<Hash>, rawLogs: map<LogKey, RawLogRow>, markets: map<MarketId, MarketRow>,
    trades: map<LogKey, TradeRow>, key: LogKey, row: TradeRow)
    requires TradesInv(w, chain, rawLogs, markets, trades) && key !in trades && !TradeTaken(trades, key)
    requires key in rawLogs && row.market in markets && key.blockHash in chain
    requires row.blockNumber == w.blockOf(key.blockHash).number
    ensures TradesInv(w, chain, rawLogs, markets, trades[key := row])
  {
    var after := trades[key := row];
    forall k, other | k in after && other in after && k != other && after[k].canonical && after[other].canonical
      ensures k.txHash != other.txHash || k.logIndex != other.logIndex
    {
      if k != key && other != key {
        assert !TradeTaken(trades, k);
      }
    }
  }

  lemma InsertTradeKeeps(w: World, base: nat, chain: seq<Hash>, generation: nat, db: Db, log: Log)
    requires Tables(w, base, chain, generation, db) && InsertTrade(db, log).Ok? && KeyOf(log) in db.rawLogs
    ensures Tables(w, base, chain, generation, InsertTrade(db, log).value)
  {
    hide ProjectSwap, RawLogsInv, FactsInv, MarketsInv, PoolsInv, OutboxInv, FoldMarkets, TradeTaken, TradesInv;
    var key := KeyOf(log);
    if key !in db.trades {
      TradesGrow(w, chain, db.rawLogs, db.markets, db.trades, key, InsertTrade(db, log).value.trades[key]);
    }
  }

  lemma TradeNeedsCanonicalBlock(
    w: World, base: nat, chain: seq<Hash>, generation: nat, db: Db, stored: Db, log: Log)
    requires Tables(w, base, chain, generation, db) && stored.blocks == db.blocks && InsertTrade(stored, log).Ok?
    ensures log.blockHash in chain && log.blockNumber == w.blockOf(log.blockHash).number
  {
  }

  /** A backfilled log is stored only with a canonical block, so its row is as good as a committed one. */
  lemma BackfillLogKeeps(w: World, base: nat, chain: seq<Hash>, generation: nat, db: Db, log: Log)
    requires Tables(w, base, chain, generation, db) && BackfillLog(db, log).Ok?
    ensures Tables(w, base, chain, generation, BackfillLog(db, log).value)
    ensures BackfillLog(db, log).value.cursor == db.cursor && BackfillLog(db, log).value.outbox == db.outbox
  {
    hide Tables, InsertRawLog, InsertTrade;
    TradeNeedsCanonicalBlock(w, base, chain, generation, db, InsertRawLog(db, log).value, log);
    InsertRawLogKeeps(w, base, chain, generation, db, log);
    InsertTradeKeeps(w, base, chain, generation, InsertRawLog(db, log).value, log);
  }

  lemma {:induction false} BackfillLogsKeep(w: World, base: nat, chain: seq<Hash>, generation: nat, db: Db, logs: seq<Log>)
    requires Tables(w, base, chain, generation, db) && BackfillLogs(db, logs).Ok?
    ensures Tables(w, base, chain, generation, BackfillLogs(db, logs).value)
    ensures BackfillLogs(db, logs).value.cursor == db.cursor && BackfillLogs(db, logs).value.outbox == db.outbox
  {
    hide Tables, BackfillLog;
    if logs != [] {
      var n := |logs| - 1;
      BackfillLogsKeep(w, base, chain, generation, db, logs[..n]);
      BackfillLogKeeps(w, base, chain, generation, BackfillLogs(db, logs[..n]).value, logs[n]);
    }
  }

  lemma BackfillKeeps(w: World, base: nat, chain: seq<Hash>, db: Db, logs: seq<Log>, pools: set<Address>, through: int)
    requires Inv(w, base, chain, db) && chain != [] && through <= db.cursor.value.number
    requires Backfill(db, logs, pools, through).Ok?
    ensures Inv(w, base, chain, Backfill(db, logs, pools, through).value)
  {
    hide BackfillLogs;
    BackfillLogsKeep(w, base, chain, db.cursor.value.generation, db, logs);
  }
}

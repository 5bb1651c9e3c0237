/** The indexer's tables, and its transactions as functions that give the new tables or the error that undoes them. */
module Store {
  import opened Outcomes
  import opened PancakeTrades
  import opened ChainData

  datatype Cursor = Cursor(number: nat, hash: Hash, observed: nat, finalized: nat, generation: nat)

  datatype BlockRow = BlockRow(number: nat, parentHash: Hash, canonical: bool)

  datatype RawLogRow = RawLogRow(log: Log, canonical: bool)

  /** What at most one canonical fact may speak of: an attestation's digest, or a launch of an engine. */
  datatype Subject = Attestation(digest: Hash) | DirectLaunch(engine: Address, launchId: nat)

  datatype FactRow = FactRow(subject: Subject, blockNumber: nat, canonical: bool)

  datatype MarketId = MarketId(launchpad: Address, launchId: nat)

  datatype MarketRow = MarketRow(launch: Launch, launchBlock: nat, launchTxHash: Hash, launchLogIndex: nat)

  datatype TradeRow = TradeRow(market: MarketId, blockNumber: nat, trade: Trade, canonical: bool)

  datatype PoolRow = PoolRow(owner: MarketId, startBlock: nat, indexedThrough: int)

  datatype OutboxTopic = QuoteEvent | MarketLaunch | ChainReorg | MarketRemoval

  datatype Aggregate = ChainWide | Contract(address: Address) | Market(id: MarketId)

  datatype DedupeKey =
    | LogEmission(key: LogKey, generation: nat)
    | ReorgEmission(oldTip: Hash, ancestor: Hash, generation: nat)
    | RemovalEmission(id: MarketId, generation: nat)

  datatype OutboxRow = OutboxRow(topic: OutboxTopic, aggregate: Aggregate, dedupeKey: DedupeKey)

  datatype Db = Db(
    cursor: Option<Cursor>,
    blocks: map<Hash, BlockRow>,
    rawLogs: map<LogKey, RawLogRow>,
    facts: map<LogKey, FactRow>,
    markets: map<MarketId, MarketRow>,
    trades: map<LogKey, TradeRow>,
    pools: map<Address, PoolRow>,
    outbox: seq<OutboxRow>)

  const EMPTY_DB := Db(None, map[], map[], map[], map[], map[], map[], [])

  function Max(a: int, b: int): int {
    if a > b then a else b
  }

  function Min(a: int, b: int): int {
    if a < b then a else b
  }

  // ---------------------------------------------------------------------------
  // Single statements
  // ---------------------------------------------------------------------------

  function InsertCanonicalBlock(db: Db, block: Block): Db {
    db.(blocks := db.blocks[block.hash := BlockRow(block.number, block.parentHash, true)])
  }

  function InsertRawLog(db: Db, log: Log): (r: Outcome<Db>)
    ensures r.Ok? ==> r.value == db.(rawLogs := r.value.rawLogs)
  {
    var key := KeyOf(log);
    if log.blockHash !in db.blocks then
      Fail("raw_logs_block_missing")
    else if key in db.rawLogs then
      var kept := db.rawLogs[key].log.(event := log.event);
      Ok(db.(rawLogs := db.rawLogs[key := RawLogRow(kept, true)]))
    else
      Ok(db.(rawLogs := db.rawLogs[key := RawLogRow(log, true)]))
  }

  predicate FactTaken(facts: map<LogKey, FactRow>, key: LogKey, subject: Subject) {
    exists other :: other in facts && other != key && facts[other].canonical && facts[other].subject == subject
  }

  function InsertFact(db: Db, log: Log, subject: Subject): (r: Outcome<Db>)
    ensures r.Ok? ==> r.value == db.(facts := r.value.facts)
  {
    var key := KeyOf(log);
    var row := if key in db.facts then db.facts[key].(canonical := true) else FactRow(subject, log.blockNumber, true);
    if FactTaken(db.facts, key, row.subject) then
      Fail("one_canonical_fact")
    else
      Ok(db.(facts := db.facts[key := row]))
  }

  function MarketIdOf(log: Log): MarketId
    requires log.event.MarketLaunched?
  {
    MarketId(log.address, log.event.launch.launchId)
  }

  /** Another market already has the token, or the engine's record. */
  predicate LaunchTaken(markets: map<MarketId, MarketRow>, launch: Launch) {
    exists id :: id in markets
                 && (markets[id].launch.token == launch.token || markets[id].launch.recordId == launch.recordId)
  }

  predicate ValidLaunch(launch: Launch) {
    launch.valid && 1 <= launch.engineKind <= 2
  }

  function InsertMarket(db: Db, block: Block, log: Log): (r: Outcome<Db>)
    requires log.event.MarketLaunched?
    ensures r.Ok? ==> r.value == db.(markets := r.value.markets)
  {
    var launch := log.event.launch;
    if !ValidLaunch(launch) then
      Fail("invalid_QUOTEMarketLaunched")
    else if MarketIdOf(log) in db.markets then
      Ok(db)
    else if LaunchTaken(db.markets, launch) then
      Fail("markets_unique")
    else
      var row := MarketRow(launch, block.number, log.txHash, log.logIndex);
      Ok(db.(markets := db.markets[MarketIdOf(log) := row]))
  }

  predicate HasKey(outbox: seq<OutboxRow>, key: DedupeKey) {
    exists i :: 0 <= i < |outbox| && outbox[i].dedupeKey == key
  }

  function InsertOutbox(db: Db, row: OutboxRow): Db {
    if HasKey(db.outbox, row.dedupeKey) then db else db.(outbox := db.outbox + [row])
  }

  // ---------------------------------------------------------------------------
  // Starting, and committing a block
  // ---------------------------------------------------------------------------

  function InitializeCursor(db: Db, baseline: Block, observed: nat): Db {
    var withBlock := InsertCanonicalBlock(db, baseline);
    match db.cursor
    case None =>
      withBlock.(cursor := Some(Cursor(baseline.number, baseline.hash, Max(observed, baseline.number),
                                       baseline.number, 0)))
    case Some(c) =>
      withBlock.(cursor := Some(c.(observed := Max(c.observed, Max(observed, baseline.number)))))
  }

  function UpdateObservedHead(db: Db, observed: nat): Db {
    match db.cursor
    case None => db
    case Some(c) => db.(cursor := Some(c.(observed := Max(c.observed, observed))))
  }

  function BuildEmission(log: Log, generation: nat): OutboxRow {
    var key := LogEmission(KeyOf(log), generation);
    if log.event.MarketLaunched? then
      OutboxRow(MarketLaunch, Market(MarketIdOf(log)), key)
    else
      OutboxRow(QuoteEvent, Contract(log.address), key)
  }

  /** The row of its own that an event gets, if it is of a kind that does. */
  function ApplyEvent(db: Db, block: Block, log: Log): (r: Outcome<Db>)
    ensures r.Ok? ==> r.value == db.(facts := r.value.facts, markets := r.value.markets)
  {
    match log.event
    case PriceAttested(digest, valid) =>
      if valid then InsertFact(db, log, Attestation(digest)) else Fail("invalid_QuotePriceAttestationConsumed")
    case DirectMarketLaunched(launchId, valid) =>
      if valid then InsertFact(db, log, DirectLaunch(log.address, launchId)) else Fail("invalid_DirectMarketLaunched")
    case MarketLaunched(_) => InsertMarket(db, block, log)
    case _ => Ok(db)
  }

  function CommitLog(db: Db, block: Block, generation: nat, log: Log): (r: Outcome<Db>)
    ensures r.Ok? ==> r.value.cursor == db.cursor && r.value.blocks == db.blocks && r.value.trades == db.trades
                      && r.value.pools == db.pools
  {
    var stored :- InsertRawLog(db, log);
    var applied :- ApplyEvent(stored, block, log);
    Ok(InsertOutbox(applied, BuildEmission(log, generation)))
  }

  function CommitLogs(db: Db, block: Block, generation: nat, logs: seq<Log>): Outcome<Db> {
    if logs == [] then Ok(db)
    else
      var before :- CommitLogs(db, block, generation, logs[..|logs| - 1]);
      CommitLog(before, block, generation, logs[|logs| - 1])
  }

  function AdvanceCursor(db: Db, block: Block, observed: nat): Db {
    match db.cursor
    case None => db
    case Some(c) =>
      db.(cursor := Some(Cursor(block.number, block.hash, Max(c.observed, Max(observed, block.number)),
                                block.number, c.generation)))
  }

  function CommitBlock(db: Db, block: Block, logs: seq<Log>, observed: nat): Outcome<Db> {
    if db.cursor.None? then
      Fail("cursor_missing")
    else if block.number != db.cursor.value.number + 1 then
      Fail("cursor_height_mismatch")
    else if block.parentHash != db.cursor.value.hash then
      Fail("cursor_parent_mismatch")
    else
      var committed :- CommitLogs(InsertCanonicalBlock(db, block), block, db.cursor.value.generation, logs);
      Ok(AdvanceCursor(committed, block, observed))
  }

  // ---------------------------------------------------------------------------
  // Rolling back
  // ---------------------------------------------------------------------------

  predicate LaunchedAfter(db: Db, id: MarketId, number: nat) {
    id in db.markets && db.markets[id].launchBlock > number
  }

  predicate RemovalBefore(db: Db, a: MarketId, b: MarketId)
    requires a in db.markets && b in db.markets
  {
    var (x, y) := (db.markets[a], db.markets[b]);
    x.launchBlock < y.launchBlock
    || (x.launchBlock == y.launchBlock && (x.launchLogIndex < y.launchLogIndex
                                           || (x.launchLogIndex == y.launchLogIndex && a.launchId <= b.launchId)))
  }

  /** The markets launched above `number`, each once, in the order the removal query asks for; ties stay open. */
  ghost predicate RemovalOrder(db: Db, number: nat, removed: seq<MarketId>) {
    && (forall id :: id in removed <==> LaunchedAfter(db, id, number))
    && (forall i, j :: 0 <= i < j < |removed| ==> removed[i] != removed[j])
    && (forall i, j :: 0 <= i < j < |removed| && removed[i] in db.markets && removed[j] in db.markets
                       ==> RemovalBefore(db, removed[i], removed[j]))
  }

  function Announce(db: Db, removed: seq<MarketId>, generation: nat): Db {
    if removed == [] then db
    else
      var id := removed[|removed| - 1];
      InsertOutbox(Announce(db, removed[..|removed| - 1], generation),
                   OutboxRow(MarketRemoval, Market(id), RemovalEmission(id, generation)))
  }

  function OrphanBlocks(blocks: map<Hash, BlockRow>, number: nat): map<Hash, BlockRow> {
    map h | h in blocks :: if blocks[h].number > number then blocks[h].(canonical := false) else blocks[h]
  }

  function OrphanRawLogs(rawLogs: map<LogKey, RawLogRow>, number: nat): map<LogKey, RawLogRow> {
    map k | k in rawLogs :: if rawLogs[k].log.blockNumber > number then rawLogs[k].(canonical := false) else rawLogs[k]
  }

  function OrphanFacts(facts: map<LogKey, FactRow>, number: nat): map<LogKey, FactRow> {
    map k | k in facts :: if facts[k].blockNumber > number then facts[k].(canonical := false) else facts[k]
  }

  function OrphanTrades(trades: map<LogKey, TradeRow>, number: nat, removed: seq<MarketId>): map<LogKey, TradeRow> {
    map k | k in trades && trades[k].market !in removed ::
      if trades[k].blockNumber > number then trades[k].(canonical := false) else trades[k]
  }

  /** Removing a market removes its pool cursor too: the foreign key cascades. */
  function RewindPools(pools: map<Address, PoolRow>, number: nat, removed: seq<MarketId>): map<Address, PoolRow> {
    map a | a in pools && pools[a].owner !in removed ::
      if pools[a].indexedThrough > number
      then pools[a].(indexedThrough := Max(pools[a].startBlock - 1, number))
      else pools[a]
  }

  function RetainMarkets(markets: map<MarketId, MarketRow>, removed: seq<MarketId>): map<MarketId, MarketRow> {
    map id | id in markets && id !in removed :: markets[id]
  }

  /** The tables of a rollback before its removals are announced. */
  function Rewound(db: Db, ancestor: Block, oldTip: Block, removed: seq<MarketId>): Db
    requires db.cursor.Some?
  {
    var c := db.cursor.value;
    var next := c.generation + 1;
    var noted := InsertOutbox(db, OutboxRow(ChainReorg, ChainWide, ReorgEmission(oldTip.hash, ancestor.hash, next)));
    noted.(
      facts := OrphanFacts(db.facts, ancestor.number),
      trades := OrphanTrades(db.trades, ancestor.number, removed),
      pools := RewindPools(db.pools, ancestor.number, removed),
      markets := RetainMarkets(db.markets, removed),
      rawLogs := OrphanRawLogs(db.rawLogs, ancestor.number),
      blocks := OrphanBlocks(db.blocks, ancestor.number),
      cursor := Some(Cursor(ancestor.number, ancestor.hash, c.observed, ancestor.number, next)))
  }

  function Rollback(db: Db, ancestor: Block, oldTip: Block, removed: seq<MarketId>): Outcome<Db> {
    if db.cursor.None? then
      Fail("cursor_missing")
    else if db.cursor.value.number != oldTip.number || db.cursor.value.hash != oldTip.hash then
      Fail("cursor_changed_before_rollback")
    else
      Ok(Announce(Rewound(db, ancestor, oldTip, removed), removed, db.cursor.value.generation + 1))
  }

  // ---------------------------------------------------------------------------
  // Pool cursors and their backfill
  // ---------------------------------------------------------------------------

  predicate DirectFrom(db: Db, id: MarketId, through: int) {
    id in db.markets && db.markets[id].launch.engineKind == 1 && db.markets[id].launchBlock <= through
  }

  /** `owners` names, for each pool of a direct market launched by `through`, one market that has it. */
  ghost predicate PoolOwners(db: Db, through: int, owners: map<Address, MarketId>) {
    && (forall a :: a in owners ==> DirectFrom(db, owners[a], through) && db.markets[owners[a]].launch.pool == a)
    && (forall id :: DirectFrom(db, id, through) ==> db.markets[id].launch.pool in owners)
  }

  /** A pool that already has a cursor keeps it; a new one starts just below its market's launch block. */
  function InsertPools(db: Db, owners: map<Address, MarketId>): Db {
    db.(pools := map a | a in db.pools.Keys + owners.Keys && (a in db.pools || owners[a] in db.markets) ::
      if a in db.pools then db.pools[a]
      else
        var start := db.markets[owners[a]].launchBlock;
        PoolRow(owners[a], start, start - 1))
  }

  predicate Pending(db: Db, through: int, pool: Address) {
    pool in db.pools && db.pools[pool].startBlock <= through && db.pools[pool].indexedThrough < through
  }

  predicate PendingBefore(db: Db, a: Address, b: Address)
    requires a in db.pools && b in db.pools
  {
    var (x, y) := (db.pools[a], db.pools[b]);
    x.indexedThrough < y.indexedThrough
    || (x.indexedThrough == y.indexedThrough && (x.startBlock < y.startBlock
                                                 || (x.startBlock == y.startBlock && x.owner.launchId <= y.owner.launchId)))
  }

  /** `next` is a pool that the query for the next pool may answer with. */
  ghost predicate NextPool(db: Db, through: int, next: Option<Address>) {
    match next
    case None => forall a :: !Pending(db, through, a)
    case Some(pool) => Pending(db, through, pool) && forall a :: Pending(db, through, a) ==> PendingBefore(db, pool, a)
  }

  predicate HasPool(db: Db, pool: Address, id: MarketId) {
    id in db.markets && db.markets[id].launch.engineKind == 1 && db.markets[id].launch.pool == pool
  }

  predicate OnlyMarket(db: Db, pool: Address, id: MarketId) {
    HasPool(db, pool, id) && forall other :: other in db.markets && HasPool(db, pool, other) ==> other == id
  }

  /** The direct market that has the pool, when there is exactly one. */
  function DirectMarketOf(db: Db, pool: Address): (id: Option<MarketId>)
    ensures id.Some? ==> OnlyMarket(db, pool, id.value)
    ensures id.None? ==> forall other :: other in db.markets ==> !OnlyMarket(db, pool, other)
  {
    if exists id :: id in db.markets && OnlyMarket(db, pool, id) then
      var id :| id in db.markets && OnlyMarket(db, pool, id);
      Some(id)
    else
      None
  }

  predicate CanonicalAt(db: Db, hash: Hash, number: nat) {
    hash in db.blocks && db.blocks[hash].canonical && db.blocks[hash].number == number
  }

  function SwapOf(log: Log): SwapLog
    requires log.event.Swap?
  {
    SwapLog(log.address, log.event.sender, log.event.recipient, log.event.amount0, log.event.amount1)
  }

  function DirectMarketRow(id: MarketId, launch: Launch): DirectMarket {
    DirectMarket(id.launchpad, id.launchId, launch.token, launch.quoteToken, launch.pool)
  }

  /** Another block's canonical trade came from a log of the same transaction and index. */
  predicate TradeTaken(trades: map<LogKey, TradeRow>, key: LogKey) {
    exists other :: other in trades && other != key && trades[other].canonical
                    && other.txHash == key.txHash && other.logIndex == key.logIndex
  }

  /** A trade row that is already there stays as it is, canonical or not. */
  function InsertTrade(db: Db, log: Log): (r: Outcome<Db>)
    ensures r.Ok? ==> r.value == db.(trades := r.value.trades)
  {
    var market := DirectMarketOf(db, log.address);
    if market.None? || !CanonicalAt(db, log.blockHash, log.blockNumber) then
      Fail("pancake_v3_direct_market_missing")
    else if !log.event.Swap? then
      Fail("not_pancake_v3_swap")
    else
      var id := market.value;
      var trade :- ProjectSwap(SwapOf(log), DirectMarketRow(id, db.markets[id].launch));
      var key := KeyOf(log);
      if key in db.trades then
        Ok(db)
      else if TradeTaken(db.trades, key) then
        Fail("market_trade_events_one_canonical_log")
      else
        Ok(db.(trades := db.trades[key := TradeRow(id, log.blockNumber, trade, true)]))
  }

  function BackfillLog(db: Db, log: Log): Outcome<Db> {
    var stored :- InsertRawLog(db, log);
    InsertTrade(stored, log)
  }

  function BackfillLogs(db: Db, logs: seq<Log>): Outcome<Db> {
    if logs == [] then Ok(db)
    else
      var before :- BackfillLogs(db, logs[..|logs| - 1]);
      BackfillLog(before, logs[|logs| - 1])
  }

  function AdvancePools(db: Db, pools: set<Address>, through: int): Db {
    db.(pools := map a | a in db.pools ::
      if a in pools then db.pools[a].(indexedThrough := Max(db.pools[a].indexedThrough, through)) else db.pools[a])
  }

  function Backfill(db: Db, logs: seq<Log>, pools: set<Address>, through: int): Outcome<Db> {
    var filled :- BackfillLogs(db, logs);
    Ok(AdvancePools(filled, pools, through))
  }
}

/** What the store's transactions leave in its tables, said of the rows themselves. */
module StoreEffects {
  import opened Outcomes
  import opened PancakeTrades
  import opened ChainData
  import opened Store
  import opened StoreInvariants
  import opened StoreRuns
  import opened ReorgEquivalence

  // ---------------------------------------------------------------------------
  // A committed block
  // ---------------------------------------------------------------------------

  /** The observed head is the largest of the heads that were seen. */
  predicate Greatest(n: nat, heads: set<nat>) {
    n in heads && forall head :: head in heads ==> head <= n
  }

  /** `log` launches the market and the row tells its launch, where the log stands, and that its arguments are valid. */
  predicate LaunchedBy(id: MarketId, row: MarketRow, log: Log, number: nat) {
    && log.event.MarketLaunched? && id.launchpad == log.address && id.launchId == log.event.launch.launchId
    && row.launch == log.event.launch && row.launchBlock == number
    && row.launchTxHash == log.txHash && row.launchLogIndex == log.logIndex
    && row.launch.valid && (row.launch.engineKind == 1 || row.launch.engineKind == 2)
  }

  /** What at most one canonical fact may say, if the log says such a thing: a digest, or an engine with its launch. */
  function Claim(log: Log): Option<Subject> {
    match log.event
    case PriceAttested(digest, _) => Some(Attestation(digest))
    case DirectMarketLaunched(launchId, _) => Some(DirectLaunch(log.address, launchId))
    case _ => None
  }

  predicate ArgumentsValid(log: Log) {
    match log.event
    case PriceAttested(_, valid) => valid
    case DirectMarketLaunched(_, valid) => valid
    case _ => true
  }

  /** Each log has a canonical raw row, and nothing else has changed there. */
  ghost predicate LogsRecorded(before: Db, after: Db, logs: seq<Log>) {
    && (forall log :: log in logs ==> KeyOf(log) in after.rawLogs && after.rawLogs[KeyOf(log)].canonical
                                      && after.rawLogs[KeyOf(log)].log.event == log.event)
    && (forall k :: k in before.rawLogs ==> k in after.rawLogs)
    && (forall k :: k in after.rawLogs && after.rawLogs[k] != (if k in before.rawLogs then before.rawLogs[k] else
                                                                RawLogRow(after.rawLogs[k].log, false))
                    ==> exists log :: log in logs && KeyOf(log) == k)
  }

  /** Each log that claims something has a canonical fact, and nothing else has changed there. */
  ghost predicate FactsRecorded(before: Db, after: Db, logs: seq<Log>) {
    && (forall log :: log in logs && Claim(log).Some?
                      ==> ArgumentsValid(log) && KeyOf(log) in after.facts && after.facts[KeyOf(log)].canonical)
    && (forall k :: k in before.facts ==> k in after.facts && after.facts[k].subject == before.facts[k].subject)
    && (forall k :: k in after.facts && (k !in before.facts || after.facts[k] != before.facts[k])
                    ==> exists log :: log in logs && KeyOf(log) == k && Claim(log).Some?
                                      && (k !in before.facts ==> Claim(log) == Some(after.facts[k].subject)
                                                                 && after.facts[k].blockNumber == log.blockNumber))
  }

  /** Each launched market is there, and every new row is of such a launch. */
  ghost predicate MarketsRecorded(before: Db, after: Db, logs: seq<Log>, number: nat) {
    && (forall log :: log in logs && log.event.MarketLaunched?
                      ==> MarketId(log.address, log.event.launch.launchId) in after.markets)
    && (forall id :: id in before.markets ==> id in after.markets && after.markets[id] == before.markets[id])
    && (forall id :: id in after.markets && id !in before.markets
                     ==> exists log :: log in logs && LaunchedBy(id, after.markets[id], log, number))
  }

  lemma LogRecorded(db: Db, block: Block, generation: nat, log: Log)
    requires CommitLog(db, block, generation, log).Ok?
    ensures var after := CommitLog(db, block, generation, log).value;
            LogsRecorded(db, after, [log]) && FactsRecorded(db, after, [log]) && MarketsRecorded(db, after, [log], block.number)
  {
    hide InsertRawLog, ApplyEvent, HasKey, LogsRecorded, FactsRecorded, MarketsRecorded;
    var stored := InsertRawLog(db, log).value;
    RawLogRecorded(db, log, CommitLog(db, block, generation, log).value);
    FactRecorded(db, stored, block, log, CommitLog(db, block, generation, log).value);
    MarketRecorded(db, stored, block, log, CommitLog(db, block, generation, log).value);
  }

  lemma RawLogRecorded(db: Db, log: Log, after: Db)
    requires InsertRawLog(db, log).Ok? && after.rawLogs == InsertRawLog(db, log).value.rawLogs
    ensures LogsRecorded(db, after, [log])
  {
    assert log in [log];
  }

  /** What an event does to the fact table. */
  lemma FactOfEvent(db: Db, block: Block, log: Log) returns (row: FactRow)
    requires ApplyEvent(db, block, log).Ok?
    ensures var after := ApplyEvent(db, block, log).value;
            && (Claim(log).None? ==> after.facts == db.facts)
            && (Claim(log).Some? ==> ArgumentsValid(log) && after.facts == db.facts[KeyOf(log) := row])
    ensures row.canonical
    ensures Claim(log).Some? && KeyOf(log) in db.facts ==> row.subject == db.facts[KeyOf(log)].subject
    ensures Claim(log).Some? && KeyOf(log) !in db.facts ==> Claim(log) == Some(row.subject) && row.blockNumber == log.blockNumber
  {
    hide FactTaken, LaunchTaken;
    row := FactRow(Attestation(0), 0, true);
    match log.event {
      case PriceAttested(digest, _) => row := InsertFact(db, log, Attestation(digest)).value.facts[KeyOf(log)];
      case DirectMarketLaunched(launchId, _) =>
        row := InsertFact(db, log, DirectLaunch(log.address, launchId)).value.facts[KeyOf(log)];
      case _ =>
    }
  }

  lemma FactRecorded(db: Db, stored: Db, block: Block, log: Log, after: Db)
    requires stored.facts == db.facts && ApplyEvent(stored, block, log).Ok?
    requires after.facts == ApplyEvent(stored, block, log).value.facts
    ensures FactsRecorded(db, after, [log])
  {
    hide ApplyEvent, KeyOf, Claim, ArgumentsValid;
    var row := FactOfEvent(stored, block, log);
    assert log in [log];
  }

  /** What an event does to the market table. */
  lemma MarketOfEvent(db: Db, block: Block, log: Log) returns (row: MarketRow)
    requires ApplyEvent(db, block, log).Ok?
    ensures var after := ApplyEvent(db, block, log).value;
            if !log.event.MarketLaunched? then after.markets == db.markets
            else
              var id := MarketId(log.address, log.event.launch.launchId);
              && LaunchedBy(id, row, log, block.number)
              && after.markets == (if id in db.markets then db.markets else db.markets[id := row])
  {
    hide FactTaken, LaunchTaken, InsertFact;
    row := MarketRow(Launch(0, 0, 0, 0, 0, 0, false), 0, 0, 0);
    if log.event.MarketLaunched? {
      row := MarketRow(log.event.launch, block.number, log.txHash, log.logIndex);
    }
  }

  lemma MarketRecorded(db: Db, stored: Db, block: Block, log: Log, after: Db)
    requires stored.markets == db.markets && ApplyEvent(stored, block, log).Ok?
    requires after.markets == ApplyEvent(stored, block, log).value.markets
    ensures MarketsRecorded(db, after, [log], block.number)
  {
    hide ApplyEvent, LaunchedBy;
    var row := MarketOfEvent(stored, block, log);
    assert log in [log];
  }

  lemma RecordedTogether(before: Db, middle: Db, after: Db, logs: seq<Log>, log: Log, number: nat)
    requires LogsRecorded(before, middle, logs) && FactsRecorded(before, middle, logs)
    requires MarketsRecorded(before, middle, logs, number)
    requires LogsRecorded(middle, after, [log]) && FactsRecorded(middle, after, [log])
    requires MarketsRecorded(middle, after, [log], number)
    requires forall other :: other in logs ==> KeyOf(other) != KeyOf(log)
    ensures LogsRecorded(before, after, logs + [log]) && FactsRecorded(before, after, logs + [log])
    ensures MarketsRecorded(before, after, logs + [log], number)
  {
    LogsTogether(before, middle, after, logs, log);
    FactsTogether(before, middle, after, logs, log);
    MarketsTogether(before, middle, after, logs, log, number);
  }

  lemma LogsTogether(before: Db, middle: Db, after: Db, logs: seq<Log>, log: Log)
    requires LogsRecorded(before, middle, logs) && LogsRecorded(middle, after, [log])
    requires forall other :: other in logs ==> KeyOf(other) != KeyOf(log)
    ensures LogsRecorded(before, after, logs + [log])
  {
    forall k | k in after.rawLogs && k != KeyOf(log)
      ensures k in middle.rawLogs ==> after.rawLogs[k] == middle.rawLogs[k]
    {
    }
    forall k | k in after.rawLogs && after.rawLogs[k] != (if k in before.rawLogs then before.rawLogs[k] else
                                                            RawLogRow(after.rawLogs[k].log, false))
      ensures exists other :: other in logs + [log] && KeyOf(other) == k
    {
      if k == KeyOf(log) {
        assert log in logs + [log];
      } else {
        assert k in middle.rawLogs ==> after.rawLogs[k] == middle.rawLogs[k];
        var other :| other in logs && KeyOf(other) == k;
        assert other in logs + [log];
      }
    }
  }

  lemma FactsTogether(before: Db, middle: Db, after: Db, logs: seq<Log>, log: Log)
    requires FactsRecorded(before, middle, logs) && FactsRecorded(middle, after, [log])
    requires forall other :: other in logs ==> KeyOf(other) != KeyOf(log)
    ensures FactsRecorded(before, after, logs + [log])
  {
    forall k | k in after.facts && (k !in before.facts || after.facts[k] != before.facts[k])
      ensures exists other :: other in logs + [log] && KeyOf(other) == k && Claim(other).Some?
                              && (k !in before.facts ==> Claim(other) == Some(after.facts[k].subject)
                                                         && after.facts[k].blockNumber == other.blockNumber)
    {
      if k in middle.facts && after.facts[k] == middle.facts[k] {
        var other :| other in logs && KeyOf(other) == k && Claim(other).Some?
                     && (k !in before.facts ==> Claim(other) == Some(middle.facts[k].subject)
                                                && middle.facts[k].blockNumber == other.blockNumber);
        assert other in logs + [log];
      } else {
        assert KeyOf(log) == k && Claim(log).Some?;
        assert log in logs + [log];
        assert k !in before.facts ==> k !in middle.facts;
      }
    }
  }

  lemma MarketsTogether(before: Db, middle: Db, after: Db, logs: seq<Log>, log: Log, number: nat)
    requires MarketsRecorded(before, middle, logs, number) && MarketsRecorded(middle, after, [log], number)
    ensures MarketsRecorded(before, after, logs + [log], number)
  {
    forall id | id in after.markets && id !in before.markets
      ensures exists other :: other in logs + [log] && LaunchedBy(id, after.markets[id], other, number)
    {
      if id in middle.markets {
        var other :| other in logs && LaunchedBy(id, middle.markets[id], other, number);
        assert other in logs + [log];
      } else {
        assert LaunchedBy(id, after.markets[id], log, number);
        assert log in logs + [log];
      }
    }
  }

  lemma {:induction false} LogsAreRecorded(db: Db, block: Block, generation: nat, logs: seq<Log>)
    requires CommitLogs(db, block, generation, logs).Ok?
    requires forall i, j :: 0 <= i < j < |logs| ==> KeyOf(logs[i]) != KeyOf(logs[j])
    ensures var after := CommitLogs(db, block, generation, logs).value;
            && after.cursor == db.cursor && after.blocks == db.blocks
            && after.trades == db.trades && after.pools == db.pools
            && LogsRecorded(db, after, logs) && FactsRecorded(db, after, logs)
            && MarketsRecorded(db, after, logs, block.number)
  {
    hide CommitLog, LogsRecorded, FactsRecorded, MarketsRecorded;
    if logs == [] {
      NothingRecorded(db, block.number);
    } else {
      var n := |logs| - 1;
      LogsAreRecorded(db, block, generation, logs[..n]);
      var before := CommitLogs(db, block, generation, logs[..n]).value;
      LogRecorded(before, block, generation, logs[n]);
      assert logs == logs[..n] + [logs[n]];
      RecordedTogether(db, before, CommitLogs(db, block, generation, logs).value, logs[..n], logs[n], block.number);
    }
  }

  lemma NothingRecorded(db: Db, number: nat)
    ensures LogsRecorded(db, db, []) && FactsRecorded(db, db, []) && MarketsRecorded(db, db, [], number)
  {
  }

  /** A commit extends the cursor by exactly one linked block, adds its row, and records each log, fact and launch of it;
      trades and pools stay. */
  lemma CommitRecords(db: Db, block: Block, logs: seq<Log>, observed: nat)
    requires CommitBlock(db, block, logs, observed).Ok?
    requires forall i, j :: 0 <= i < j < |logs| ==> KeyOf(logs[i]) != KeyOf(logs[j])
    ensures db.cursor.Some? && block.number == db.cursor.value.number + 1 && block.parentHash == db.cursor.value.hash
    ensures var (c, after) := (db.cursor.value, CommitBlock(db, block, logs, observed).value);
            && after.cursor.Some? && after.cursor.value.number == block.number && after.cursor.value.hash == block.hash
            && after.cursor.value.finalized == block.number && after.cursor.value.generation == c.generation
            && Greatest(after.cursor.value.observed, {c.observed, observed, block.number})
            && after.blocks == db.blocks[block.hash := BlockRow(block.number, block.parentHash, true)]
            && after.trades == db.trades && after.pools == db.pools
            && LogsRecorded(db, after, logs) && FactsRecorded(db, after, logs)
            && MarketsRecorded(db, after, logs, block.number)
  {
    hide CommitLogs;
    LogsAreRecorded(InsertCanonicalBlock(db, block), block, db.cursor.value.generation, logs);
  }

  /** A commit of the next block fails only for one of its logs: its arguments, or a claim or market that is taken. */
  lemma CommitFailsForALog(db: Db, block: Block, logs: seq<Log>, observed: nat) returns (n: nat)
    requires CommitBlock(db, block, logs, observed).Fail?
    requires db.cursor.Some? && block.number == db.cursor.value.number + 1 && block.parentHash == db.cursor.value.hash
    ensures n < |logs|
    ensures var before := CommitLogs(InsertCanonicalBlock(db, block), block, db.cursor.value.generation, logs[..n]);
            && before.Ok? && Refused(before.value, logs[n])
  {
    hide Refused;
    n := FirstRefused(InsertCanonicalBlock(db, block), block, db.cursor.value.generation, logs);
  }

  /** The log cannot be stored: its block is unknown, its arguments are invalid, another canonical fact claims the same,
      or another market has the token or the record of a launch that is not there yet. */
  ghost predicate Refused(db: Db, log: Log) {
    || log.blockHash !in db.blocks
    || !ArgumentsValid(log)
    || (exists k :: k in db.facts && k != KeyOf(log) && db.facts[k].canonical && SameClaim(db, log, db.facts[k].subject))
    || (log.event.MarketLaunched?
        && (|| !log.event.launch.valid || log.event.launch.engineKind !in {1, 2}
            || (MarketId(log.address, log.event.launch.launchId) !in db.markets
                && exists id :: id in db.markets && (db.markets[id].launch.token == log.event.launch.token
                                                     || db.markets[id].launch.recordId == log.event.launch.recordId))))
  }

  /** What the log's fact row says, be it there already or not. */
  predicate SameClaim(db: Db, log: Log, subject: Subject) {
    Claim(log).Some? && subject == if KeyOf(log) in db.facts then db.facts[KeyOf(log)].subject else Claim(log).value
  }

  lemma LogRefusedExactly(db: Db, block: Block, generation: nat, log: Log)
    ensures CommitLog(db, block, generation, log).Fail? <==> Refused(db, log)
  {
    hide HasKey;
  }

  lemma {:induction false} FirstRefused(db: Db, block: Block, generation: nat, logs: seq<Log>) returns (n: nat)
    requires CommitLogs(db, block, generation, logs).Fail?
    ensures n < |logs| && CommitLogs(db, block, generation, logs[..n]).Ok?
    ensures Refused(CommitLogs(db, block, generation, logs[..n]).value, logs[n])
  {
    hide CommitLog, Refused;
    var last := |logs| - 1;
    if CommitLogs(db, block, generation, logs[..last]).Ok? {
      n := last;
      LogRefusedExactly(CommitLogs(db, block, generation, logs[..last]).value, block, generation, logs[last]);
    } else {
      n := FirstRefused(db, block, generation, logs[..last]);
      assert logs[..last][..n] == logs[..n];
    }
  }

  // ---------------------------------------------------------------------------
  // A rollback
  // ---------------------------------------------------------------------------

  /** Rows above the height are orphaned, and nothing else has changed. */
  ghost predicate OrphanedAbove(before: Db, after: Db, number: nat) {
    && before.blocks.Keys == after.blocks.Keys && before.rawLogs.Keys == after.rawLogs.Keys
    && before.facts.Keys == after.facts.Keys
    && (forall h :: h in before.blocks ==>
          after.blocks[h] == before.blocks[h].(canonical := before.blocks[h].canonical && before.blocks[h].number <= number))
    && (forall k :: k in before.rawLogs ==>
          after.rawLogs[k] == before.rawLogs[k].(
            canonical := before.rawLogs[k].canonical && before.rawLogs[k].log.blockNumber <= number))
    && (forall k :: k in before.facts ==>
          after.facts[k] == before.facts[k].(
            canonical := before.facts[k].canonical && before.facts[k].blockNumber <= number))
  }

  /** Markets launched above the height are gone, and with them their trades and pool cursors; the other trades above it
      are orphaned, and the other pool cursors are set back, though never below their start. */
  ghost predicate RemovedAbove(before: Db, after: Db, number: nat) {
    && (forall id :: id in after.markets <==> id in before.markets && before.markets[id].launchBlock <= number)
    && (forall id :: id in after.markets ==> after.markets[id] == before.markets[id])
    && (forall k :: k in after.trades <==> k in before.trades && !LaunchedAfter(before, before.trades[k].market, number))
    && (forall k :: k in after.trades ==>
          after.trades[k] == before.trades[k].(
            canonical := before.trades[k].canonical && before.trades[k].blockNumber <= number))
    && (forall a :: a in after.pools <==> a in before.pools && !LaunchedAfter(before, before.pools[a].owner, number))
    && (forall a :: a in after.pools ==>
          var (was, row) := (before.pools[a], after.pools[a]);
          && row == was.(indexedThrough := row.indexedThrough)
          && (was.indexedThrough <= number ==> row.indexedThrough == was.indexedThrough)
          && (was.indexedThrough > number ==>
                row.indexedThrough >= number && row.indexedThrough >= was.startBlock - 1
                && (row.indexedThrough == number || row.indexedThrough == was.startBlock - 1)))
  }

  lemma RollbackOrphans(db: Db, ancestor: Block, oldTip: Block, removed: seq<MarketId>)
    requires Rollback(db, ancestor, oldTip, removed).Ok?
    ensures OrphanedAbove(db, Rollback(db, ancestor, oldTip, removed).value, ancestor.number)
  {
    hide Rollback;
    RollbackTables(db, ancestor, oldTip, removed);
  }

  lemma RollbackRemoves(db: Db, ancestor: Block, oldTip: Block, removed: seq<MarketId>)
    requires Rollback(db, ancestor, oldTip, removed).Ok? && RemovalOrder(db, ancestor.number, removed)
    ensures RemovedAbove(db, Rollback(db, ancestor, oldTip, removed).value, ancestor.number)
  {
    hide Rollback, RemovalOrder, OrphanBlocks, OrphanRawLogs, OrphanFacts;
    RollbackTables(db, ancestor, oldTip, removed);
    RemovedAreAbove(db, ancestor.number, removed);
    hide LaunchedAfter;
  }

  lemma RemovedAreAbove(db: Db, number: nat, removed: seq<MarketId>)
    requires RemovalOrder(db, number, removed)
    ensures forall id :: id in removed <==> LaunchedAfter(db, id, number)
    ensures forall id :: id in db.markets ==> (LaunchedAfter(db, id, number) <==> db.markets[id].launchBlock > number)
  {
    hide RemovalBefore;
  }

  /** A rollback takes the cursor to the ancestor in a new generation, and announces itself and each market it removes. */
  lemma RollbackRecords(
    w: World, base: nat, chain: seq<Hash>, db: Db, ancestor: Block, oldTip: Block, removed: seq<MarketId>, kept: nat)
    requires Inv(w, base, chain, db) && 0 < kept <= |chain|
    requires ancestor.hash == chain[kept - 1] && ancestor.number == base + kept - 1
    requires RemovalOrder(db, ancestor.number, removed) && Rollback(db, ancestor, oldTip, removed).Ok?
    ensures db.cursor.Some? && db.cursor.value.number == oldTip.number && db.cursor.value.hash == oldTip.hash
    ensures var (c, after) := (db.cursor.value, Rollback(db, ancestor, oldTip, removed).value);
            && after.cursor.Some? && after.cursor.value.number == ancestor.number == after.cursor.value.finalized
            && after.cursor.value.hash == ancestor.hash && after.cursor.value.observed == c.observed
            && after.cursor.value.generation == c.generation + 1
            && |after.outbox| == |db.outbox| + 1 + |removed| && db.outbox <= after.outbox
            && after.outbox[|db.outbox|]
               == OutboxRow(ChainReorg, ChainWide, ReorgEmission(oldTip.hash, ancestor.hash, c.generation + 1))
            && (forall i :: 0 <= i < |removed| ==>
                  after.outbox[|db.outbox| + 1..][i]
                  == OutboxRow(MarketRemoval, Market(removed[i]), RemovalEmission(removed[i], c.generation + 1)))
  {
    RollbackNeedsTip(db, ancestor, oldTip, removed);
    hide Inv, RemovalOrder, Rollback;
    RollbackCursor(db, ancestor, oldTip, removed);
    RollbackKeeps(w, base, chain, db, ancestor, oldTip, removed, kept);
  }

  lemma RollbackNeedsTip(db: Db, ancestor: Block, oldTip: Block, removed: seq<MarketId>)
    requires Rollback(db, ancestor, oldTip, removed).Ok?
    ensures db.cursor.Some? && db.cursor.value.number == oldTip.number && db.cursor.value.hash == oldTip.hash
  {
  }

  // ---------------------------------------------------------------------------
  // Pools
  // ---------------------------------------------------------------------------

  /** Tracking gives each pool without a cursor one that starts at its market's launch and has scanned nothing. */
  lemma TrackingStarts(db: Db, through: int, owners: map<Address, MarketId>, pool: Address)
    requires PoolOwners(db, through, owners)
    ensures var after := InsertPools(db, owners);
            && after == db.(pools := after.pools)
            && (pool in db.pools ==> pool in after.pools && after.pools[pool] == db.pools[pool])
            && (pool in after.pools && pool !in db.pools ==>
                  var row := after.pools[pool];
                  && row.owner in db.markets && db.markets[row.owner].launch.pool == pool
                  && db.markets[row.owner].launch.engineKind == 1
                  && row.startBlock == db.markets[row.owner].launchBlock <= through
                  && row.indexedThrough == row.startBlock - 1)
    ensures forall id :: id in db.markets && db.markets[id].launch.engineKind == 1 && db.markets[id].launchBlock <= through
                         ==> db.markets[id].launch.pool in InsertPools(db, owners).pools
  {
    forall id | id in db.markets && db.markets[id].launch.engineKind == 1 && db.markets[id].launchBlock <= through
      ensures db.markets[id].launch.pool in InsertPools(db, owners).pools
    {
      assert DirectFrom(db, id, through);
    }
  }

  // ---------------------------------------------------------------------------
  // A backfilled swap
  // ---------------------------------------------------------------------------

  /** The only direct market that has the pool. */
  ghost predicate SoleMarket(db: Db, pool: Address, id: MarketId) {
    && id in db.markets && db.markets[id].launch.engineKind == 1 && db.markets[id].launch.pool == pool
    && forall other :: other in db.markets && db.markets[other].launch.engineKind == 1 && db.markets[other].launch.pool == pool
                       ==> other == id
  }

  lemma SoleMarketIsFound(db: Db, pool: Address)
    ensures forall id :: SoleMarket(db, pool, id) <==> DirectMarketOf(db, pool) == Some(id)
  {
    forall id ensures SoleMarket(db, pool, id) <==> OnlyMarket(db, pool, id) && id in db.markets {
      if SoleMarket(db, pool, id) {
        assert HasPool(db, pool, id);
      }
    }
  }

  /** One of the two amounts went in and the other came out. */
  predicate Exchanges(event: Event) {
    event.Swap? && (event.amount0 < 0 < event.amount1 || event.amount1 < 0 < event.amount0)
  }

  /** A swap is refused exactly when its block is not canonical at its height, its pool has no direct market or several,
      it exchanges nothing, or, unless it has a row, another canonical trade came from its transaction and index. */
  lemma SwapRefusedExactly(db: Db, log: Log)
    ensures BackfillLog(db, log).Ok? <==>
              && log.blockHash in db.blocks && db.blocks[log.blockHash].canonical
              && db.blocks[log.blockHash].number == log.blockNumber
              && (exists id :: SoleMarket(db, log.address, id)) && Exchanges(log.event)
              && (KeyOf(log) in db.trades
                  || forall k :: k in db.trades && db.trades[k].canonical && k.txHash == log.txHash && k.logIndex == log.logIndex
                                 ==> k == KeyOf(log))
  {
    hide DirectMarketOf, OnlyMarket, SoleMarket;
    SoleMarketIsFound(db, log.address);
    if log.blockHash in db.blocks {
      var stored := InsertRawLog(db, log).value;
      SoleMarketIsFound(stored, log.address);
      SameSoleMarket(db, stored, log.address);
      assert BackfillLog(db, log) == InsertTrade(stored, log);
      TradeInserted(stored, log);
    }
  }

  lemma SameSoleMarket(db: Db, other: Db, pool: Address)
    requires db.markets == other.markets
    ensures forall id :: SoleMarket(db, pool, id) <==> SoleMarket(other, pool, id)
  {
  }

  lemma TradeInserted(db: Db, log: Log)
    ensures InsertTrade(db, log).Ok? <==>
              && DirectMarketOf(db, log.address).Some? && CanonicalAt(db, log.blockHash, log.blockNumber)
              && Exchanges(log.event)
              && (KeyOf(log) in db.trades
                  || forall k :: k in db.trades && db.trades[k].canonical && k.txHash == log.txHash && k.logIndex == log.logIndex
                                 ==> k == KeyOf(log))
  {
    hide DirectMarketOf;
    var market := DirectMarketOf(db, log.address);
    assert market.Some? ==> OnlyMarket(db, log.address, market.value);
  }

  // ---------------------------------------------------------------------------
  // The outbox
  // ---------------------------------------------------------------------------

  ghost predicate DistinctKeys(outbox: seq<OutboxRow>) {
    forall i, j :: 0 <= i < j < |outbox| ==> outbox[i].dedupeKey != outbox[j].dedupeKey
  }

  lemma InsertKeepsKeysDistinct(db: Db, row: OutboxRow)
    requires DistinctKeys(db.outbox)
    ensures DistinctKeys(InsertOutbox(db, row).outbox)
  {
  }

  lemma {:induction false} CommitLogsKeepKeysDistinct(db: Db, block: Block, generation: nat, logs: seq<Log>)
    requires DistinctKeys(db.outbox) && CommitLogs(db, block, generation, logs).Ok?
    ensures DistinctKeys(CommitLogs(db, block, generation, logs).value.outbox)
  {
    hide DistinctKeys, InsertRawLog, ApplyEvent, InsertOutbox;
    if logs != [] {
      var n := |logs| - 1;
      CommitLogsKeepKeysDistinct(db, block, generation, logs[..n]);
      var stored := InsertRawLog(CommitLogs(db, block, generation, logs[..n]).value, logs[n]).value;
      InsertKeepsKeysDistinct(ApplyEvent(stored, block, logs[n]).value, BuildEmission(logs[n], generation));
    }
  }

  lemma {:induction false} AnnounceKeepsKeysDistinct(db: Db, removed: seq<MarketId>, generation: nat)
    requires DistinctKeys(db.outbox)
    ensures DistinctKeys(Announce(db, removed, generation).outbox)
  {
    hide DistinctKeys, InsertOutbox;
    if removed != [] {
      var id := removed[|removed| - 1];
      var before := Announce(db, removed[..|removed| - 1], generation);
      AnnounceKeepsKeysDistinct(db, removed[..|removed| - 1], generation);
      InsertKeepsKeysDistinct(before, OutboxRow(MarketRemoval, Market(id), RemovalEmission(id, generation)));
    }
  }

  /** No call of the store, whatever it is given and whatever the tables hold, gives two outbox rows one key. */
  lemma OutboxKeysStayDistinct(db: Db, step: Step)
    requires DistinctKeys(db.outbox)
    ensures DistinctKeys(After(db, step).outbox)
  {
    hide DistinctKeys, CommitLogs, InsertOutbox, Announce, BackfillLogs;
    match step
    case Extend(block, logs, _) =>
      if Apply(db, step).Ok? {
        CommitLogsKeepKeysDistinct(InsertCanonicalBlock(db, block), block, db.cursor.value.generation, logs);
      }
    case Rewind(ancestor, oldTip, removed) =>
      if Apply(db, step).Ok? {
        var next := db.cursor.value.generation + 1;
        InsertKeepsKeysDistinct(db, OutboxRow(ChainReorg, ChainWide, ReorgEmission(oldTip.hash, ancestor.hash, next)));
        AnnounceKeepsKeysDistinct(Rewound(db, ancestor, oldTip, removed), removed, next);
      }
    case FillPools(logs, _, _) =>
      BackfillWritesNoOutbox(db, logs);
    case _ =>
  }

  lemma {:induction false} BackfillWritesNoOutbox(db: Db, logs: seq<Log>)
    ensures BackfillLogs(db, logs).Ok? ==> BackfillLogs(db, logs).value.outbox == db.outbox
  {
    hide DirectMarketOf;
    if logs != [] {
      BackfillWritesNoOutbox(db, logs[..|logs| - 1]);
    }
  }
}

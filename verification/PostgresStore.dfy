/** The store as an object: each transaction loops over its rows and takes effect whole or not at all. */
module PostgresStore {
  import opened Outcomes
  import opened PancakeTrades
  import opened ChainData
  import opened Store

  /** Of finitely many markets one comes first in the order of removal. */
  lemma {:induction false} FirstRemoval(db: Db, ids: set<MarketId>) returns (first: MarketId)
    requires ids != {} && ids <= db.markets.Keys
    ensures first in ids && forall id :: id in ids ==> RemovalBefore(db, first, id)
    decreases |ids|
  {
    var any :| any in ids;
    first := any;
    if ids != {any} {
      var rest := FirstRemoval(db, ids - {any});
      first := if RemovalBefore(db, rest, any) then rest else any;
      forall id | id in ids ensures RemovalBefore(db, first, id) {
        assert id != any ==> id in ids - {any};
      }
    }
  }

  /** Of finitely many pending pools one comes first in the order of the query for the next pool. */
  lemma {:induction false} FirstPending(db: Db, pools: set<Address>) returns (first: Address)
    requires pools != {} && pools <= db.pools.Keys
    ensures first in pools && forall a :: a in pools ==> PendingBefore(db, first, a)
    decreases |pools|
  {
    var any :| any in pools;
    first := any;
    if pools != {any} {
      var rest := FirstPending(db, pools - {any});
      first := if PendingBefore(db, rest, any) then rest else any;
      forall a | a in pools ensures PendingBefore(db, first, a) {
        assert a != any ==> a in pools - {any};
      }
    }
  }

  /** `next` is a pool that has started and is not scanned up to `through`, and of those one that is scanned the least far
      and, among equals, starts first or has the lowest launch id; none if there is no such pool. */
  predicate FurthestBehind(pools: map<Address, PoolRow>, through: int, next: Option<Address>) {
    && (next.Some? ==> next.value in pools && pools[next.value].startBlock <= through
                       && pools[next.value].indexedThrough < through)
    && forall a | a in pools && pools[a].startBlock <= through && pools[a].indexedThrough < through
         :: next.Some? && NoFurther(pools[next.value], pools[a])
  }

  predicate NoFurther(first: PoolRow, other: PoolRow) {
    || first.indexedThrough < other.indexedThrough
    || (first.indexedThrough == other.indexedThrough && first.startBlock < other.startBlock)
    || (first.indexedThrough == other.indexedThrough && first.startBlock == other.startBlock
        && first.owner.launchId <= other.owner.launchId)
  }

  lemma NextIsFurthestBehind(db: Db, through: int, next: Option<Address>)
    requires NextPool(db, through, next)
    ensures FurthestBehind(db.pools, through, next)
  {
    forall a | a in db.pools && db.pools[a].startBlock <= through && db.pools[a].indexedThrough < through
      ensures Pending(db, through, a)
    {
    }
  }

  /** The markets launched above the height, each once, in the order of their launches. */
  ghost predicate ExactlyAbove(markets: map<MarketId, MarketRow>, number: nat, removed: seq<MarketId>) {
    && (forall id :: id in removed <==> id in markets && markets[id].launchBlock > number)
    && (forall i, j :: 0 <= i < j < |removed| ==> removed[i] != removed[j])
    && (forall i, j | 0 <= i < j < |removed| && removed[i] in markets && removed[j] in markets
          :: NoLater(markets[removed[i]], removed[i].launchId, markets[removed[j]], removed[j].launchId))
  }

  predicate NoLater(first: MarketRow, firstId: nat, second: MarketRow, secondId: nat) {
    || first.launchBlock < second.launchBlock
    || (first.launchBlock == second.launchBlock && first.launchLogIndex < second.launchLogIndex)
    || (first.launchBlock == second.launchBlock && first.launchLogIndex == second.launchLogIndex && firstId <= secondId)
  }

  lemma RemovalIsExact(db: Db, number: nat, removed: seq<MarketId>)
    requires RemovalOrder(db, number, removed)
    ensures ExactlyAbove(db.markets, number, removed)
  {
    forall id ensures id in removed <==> id in db.markets && db.markets[id].launchBlock > number {
      assert id in removed <==> LaunchedAfter(db, id, number);
    }
    forall i, j | 0 <= i < j < |removed| && removed[i] in db.markets && removed[j] in db.markets
      ensures NoLater(db.markets[removed[i]], removed[i].launchId, db.markets[removed[j]], removed[j].launchId)
    {
      assert RemovalBefore(db, removed[i], removed[j]);
    }
  }

  class PostgresIndexerStore {
    var db: Db

    constructor ()
      ensures db == EMPTY_DB
    {
      db := EMPTY_DB;
    }

    method LoadCursor() returns (cursor: Option<Cursor>)
      ensures cursor == db.cursor
    {
      return db.cursor;
    }

    method InitializeCursor(baseline: Block, observed: nat) returns (cursor: Cursor)
      modifies this
      ensures db == Store.InitializeCursor(old(db), baseline, observed) && db.cursor == Some(cursor)
      ensures old(db).cursor.None? ==>
                && cursor.number == cursor.finalized == baseline.number && cursor.hash == baseline.hash
                && cursor.generation == 0
                && cursor.observed == (if observed < baseline.number then baseline.number else observed)
      ensures old(db).cursor.Some? ==>
                && cursor == old(db).cursor.value.(observed := cursor.observed)
                && cursor.observed >= old(db).cursor.value.observed && cursor.observed >= observed
    {
      db := Store.InitializeCursor(db, baseline, observed);
      cursor := db.cursor.value;
    }

    method UpdateObservedHead(observed: nat)
      modifies this
      ensures db == Store.UpdateObservedHead(old(db), observed)
      ensures old(db).cursor.Some? ==>
                var seen := old(db).cursor.value.observed;
                db == old(db).(cursor := Some(old(db).cursor.value.(observed := if seen < observed then observed else seen)))
    {
      db := Store.UpdateObservedHead(db, observed);
    }

    method GetCanonicalBlock(number: nat) returns (block: Option<Block>)
      ensures block.Some? ==> CanonicalAt(db, block.value.hash, number) && block.value.number == number
                              && block.value.parentHash == db.blocks[block.value.hash].parentHash
      ensures block.None? ==> forall h :: !CanonicalAt(db, h, number)
    {
      if h :| h in db.blocks && CanonicalAt(db, h, number) {
        return Some(Block(number, h, db.blocks[h].parentHash));
      }
      return None;
    }

    method CommitBlock(block: Block, logs: seq<Log>, observed: nat) returns (r: Outcome<()>)
      modifies this
      ensures var spec := Store.CommitBlock(old(db), block, logs, observed);
              && (r.Ok? <==> spec.Ok?) && (r.Ok? ==> db == spec.value)
              && (r.Fail? ==> db == old(db) && r.error == spec.error)
      ensures r.Ok? ==> && old(db).cursor.Some? && old(db).cursor.value.number + 1 == block.number
                        && old(db).cursor.value.hash == block.parentHash
    {
      hide CommitLog;
      var cursor := db.cursor;
      if cursor.None? {
        return Fail("cursor_missing");
      }
      if block.number != cursor.value.number + 1 {
        return Fail("cursor_height_mismatch");
      }
      if block.parentHash != cursor.value.hash {
        return Fail("cursor_parent_mismatch");
      }
      var generation := cursor.value.generation;
      var tx := InsertCanonicalBlock(db, block);
      ghost var start := tx;
      for i := 0 to |logs|
        invariant CommitLogs(start, block, generation, logs[..i]) == Ok(tx)
        invariant db == old(db)
      {
        assert logs[..i + 1][..i] == logs[..i];
        var next := CommitLog(tx, block, generation, logs[i]);
        if next.Fail? {
          CommitLogsFailEarly(start, block, generation, logs, i + 1);
          return Fail(next.error);
        }
        tx := next.value;
      }
      assert logs[..|logs|] == logs;
      db := AdvanceCursor(tx, block, observed);
      return Ok(());
    }

    method CommitPancakeV3PoolBackfill(logs: seq<Log>, pools: set<Address>, through: int) returns (r: Outcome<()>)
      modifies this
      ensures var spec := Backfill(old(db), logs, pools, through);
              && (r.Ok? <==> spec.Ok?) && (r.Ok? ==> db == spec.value)
              && (r.Fail? ==> db == old(db) && r.error == spec.error)
    {
      hide BackfillLog;
      var tx := db;
      for i := 0 to |logs|
        invariant BackfillLogs(old(db), logs[..i]) == Ok(tx)
        invariant db == old(db)
      {
        assert logs[..i + 1][..i] == logs[..i];
        var next := BackfillLog(tx, logs[i]);
        if next.Fail? {
          BackfillLogsFailEarly(old(db), logs, i + 1);
          return Fail(next.error);
        }
        tx := next.value;
      }
      assert logs[..|logs|] == logs;
      db := AdvancePools(tx, pools, through);
      return Ok(());
    }

    /** Gives every direct market launched by `through` a cursor for its pool, then picks the next pool to scan. */
    method LoadPancakeV3PoolCursors(through: int) returns (next: Option<Address>, ghost owners: map<Address, MarketId>)
      modifies this
      ensures PoolOwners(old(db), through, owners) && db == InsertPools(old(db), owners)
      ensures NextPool(db, through, next)
      ensures FurthestBehind(db.pools, through, next)
    {
      hide FurthestBehind, NextPool;
      var known: map<Address, MarketId> := map[];
      var left := db.markets.Keys;
      while left != {}
        invariant left <= db.markets.Keys && db == old(db)
        invariant forall a :: a in known ==> DirectFrom(db, known[a], through) && db.markets[known[a]].launch.pool == a
        invariant forall id :: DirectFrom(db, id, through) && id !in left ==> db.markets[id].launch.pool in known
        decreases |left|
      {
        var id :| id in left;
        left := left - {id};
        if DirectFrom(db, id, through) && db.markets[id].launch.pool !in known {
          known := known[db.markets[id].launch.pool := id];
        }
      }
      owners := known;
      db := InsertPools(db, known);
      next := NextPoolCursor(through);
    }

    method NextPoolCursor(through: int) returns (next: Option<Address>)
      ensures NextPool(db, through, next) && FurthestBehind(db.pools, through, next)
    {
      hide FurthestBehind, PendingBefore;
      var pending := set a | a in db.pools && Pending(db, through, a);
      assert forall a :: Pending(db, through, a) ==> a in pending;
      if pending == {} {
        NextIsFurthestBehind(db, through, None);
        return None;
      }
      ghost var first := FirstPending(db, pending);
      var pool :| pool in pending && forall a :: a in pending ==> PendingBefore(db, pool, a);
      NextIsFurthestBehind(db, through, Some(pool));
      return Some(pool);
    }

    method Rollback(ancestor: Block, oldTip: Block) returns (r: Outcome<()>, ghost removed: seq<MarketId>)
      modifies this
      ensures RemovalOrder(old(db), ancestor.number, removed)
      ensures ExactlyAbove(old(db).markets, ancestor.number, removed)
      ensures var spec := Store.Rollback(old(db), ancestor, oldTip, removed);
              && (r.Ok? <==> spec.Ok?) && (r.Ok? ==> db == spec.value)
              && (r.Fail? ==> db == old(db) && r.error == spec.error)
    {
      hide HasKey, RemovalOrder, ExactlyAbove, OrphanFacts, OrphanTrades, RewindPools, RetainMarkets, OrphanRawLogs;
      hide OrphanBlocks;
      var order := RemovedMarkets(ancestor.number);
      RemovalIsExact(db, ancestor.number, order);
      removed := order;
      if db.cursor.None? {
        return Fail("cursor_missing"), order;
      }
      var c := db.cursor.value;
      if c.number != oldTip.number || c.hash != oldTip.hash {
        return Fail("cursor_changed_before_rollback"), order;
      }
      var next := c.generation + 1;
      var tx := InsertOutbox(db, OutboxRow(ChainReorg, ChainWide, ReorgEmission(oldTip.hash, ancestor.hash, next)));
      tx := tx.(facts := OrphanFacts(tx.facts, ancestor.number));
      tx := tx.(trades := OrphanTrades(tx.trades, ancestor.number, order));
      tx := tx.(pools := RewindPools(tx.pools, ancestor.number, order));
      tx := tx.(markets := RetainMarkets(tx.markets, order));
      tx := tx.(rawLogs := OrphanRawLogs(tx.rawLogs, ancestor.number));
      tx := tx.(blocks := OrphanBlocks(tx.blocks, ancestor.number));
      tx := tx.(cursor := Some(Cursor(ancestor.number, ancestor.hash, c.observed, ancestor.number, next)));
      ghost var rewound := tx;
      for i := 0 to |order|
        invariant tx == Announce(rewound, order[..i], next)
        invariant db == old(db)
      {
        assert order[..i + 1][..i] == order[..i];
        tx := InsertOutbox(tx, OutboxRow(MarketRemoval, Market(order[i]), RemovalEmission(order[i], next)));
      }
      assert order[..|order|] == order;
      db := tx;
      return Ok(()), order;
    }

    method RemovedMarkets(number: nat) returns (removed: seq<MarketId>)
      ensures RemovalOrder(db, number, removed)
    {
      removed := [];
      var left := set id | id in db.markets && LaunchedAfter(db, id, number);
      while left != {}
        invariant left <= db.markets.Keys
        invariant forall id :: id in removed || id in left <==> LaunchedAfter(db, id, number)
        invariant forall id :: id in removed ==> id !in left
        invariant forall i, j :: 0 <= i < j < |removed| ==> removed[i] != removed[j]
        invariant forall id :: id in removed ==> id in db.markets
        invariant forall i, j :: 0 <= i < j < |removed| ==> RemovalBefore(db, removed[i], removed[j])
        invariant forall i, id :: 0 <= i < |removed| && id in left ==> RemovalBefore(db, removed[i], id)
        decreases |left|
      {
        ghost var first := FirstRemoval(db, left);
        var id :| id in left && forall other :: other in left ==> RemovalBefore(db, id, other);
        removed := removed + [id];
        left := left - {id};
      }
    }
  }

  /** A log that fails fails the whole transaction, with the error it has. */
  lemma {:induction false} CommitLogsFailEarly(db: Db, block: Block, generation: nat, logs: seq<Log>, n: nat)
    requires n <= |logs| && CommitLogs(db, block, generation, logs[..n]).Fail?
    ensures CommitLogs(db, block, generation, logs) == CommitLogs(db, block, generation, logs[..n])
    decreases |logs|
  {
    hide CommitLog;
    if n == |logs| {
      assert logs[..n] == logs;
    } else {
      assert logs[..|logs| - 1][..n] == logs[..n];
      CommitLogsFailEarly(db, block, generation, logs[..|logs| - 1], n);
    }
  }

  lemma {:induction false} BackfillLogsFailEarly(db: Db, logs: seq<Log>, n: nat)
    requires n <= |logs| && BackfillLogs(db, logs[..n]).Fail?
    ensures BackfillLogs(db, logs) == BackfillLogs(db, logs[..n])
    decreases |logs|
  {
    hide BackfillLog;
    if n == |logs| {
      assert logs[..n] == logs;
    } else {
      assert logs[..|logs| - 1][..n] == logs[..n];
      BackfillLogsFailEarly(db, logs[..|logs| - 1], n);
    }
  }
}

/** Runs of the store: any sequence of the transactions that the indexer asks for, from the empty database. */
module StoreRuns {
  import opened Outcomes
  import opened PancakeTrades
  import opened ChainData
  import opened Store
  import opened StoreInvariants

  datatype Step =
    | Start(baseline: Block, observed: nat)
    | Observe(observed: nat)
    | Extend(block: Block, logs: seq<Log>, observed: nat)
    | Rewind(ancestor: Block, oldTip: Block, removed: seq<MarketId>)
    | TrackPools(through: int, owners: map<Address, MarketId>)
    | FillPools(logs: seq<Log>, pools: set<Address>, through: int)

  function Apply(db: Db, step: Step): Outcome<Db> {
    match step
    case Start(baseline, observed) => Ok(InitializeCursor(db, baseline, observed))
    case Observe(observed) => Ok(UpdateObservedHead(db, observed))
    case Extend(block, logs, observed) => CommitBlock(db, block, logs, observed)
    case Rewind(ancestor, oldTip, removed) => Rollback(db, ancestor, oldTip, removed)
    case TrackPools(_, owners) => Ok(InsertPools(db, owners))
    case FillPools(logs, pools, through) => Backfill(db, logs, pools, through)
  }

  /** A transaction that fails leaves the tables as they were. */
  function After(db: Db, step: Step): Db {
    var r := Apply(db, step);
    if r.Ok? then r.value else db
  }

  /** What the indexer makes sure of before each call. The node may answer as it likes, but a hash names one block. */
  ghost predicate Allowed(w: World, base: nat, db: Db, step: Step) {
    match step
    case Start(baseline, _) => db.cursor.None? && w.blockOf(baseline.hash) == baseline && baseline.number == base
    case Observe(_) => true
    case Extend(block, logs, _) => w.blockOf(block.hash) == block && LogsOfBlock(logs, block)
    case Rewind(ancestor, _, removed) =>
      CanonicalAt(db, ancestor.hash, ancestor.number) && RemovalOrder(db, ancestor.number, removed)
    case TrackPools(through, owners) => PoolOwners(db, through, owners)
    case FillPools(_, _, through) => db.cursor.Some? && through <= db.cursor.value.number
  }

  /** The chain of canonical blocks after a step. */
  function ChainAfter(base: nat, chain: seq<Hash>, db: Db, step: Step): seq<Hash> {
    if Apply(db, step).Fail? then chain
    else match step
      case Start(baseline, _) => [baseline.hash]
      case Extend(block, _, _) => chain + [block.hash]
      case Rewind(ancestor, _, _) =>
        if base <= ancestor.number < base + |chain| then chain[..ancestor.number - base + 1] else chain
      case _ => chain
  }

  lemma StepKeeps(w: World, base: nat, chain: seq<Hash>, db: Db, step: Step)
    requires Inv(w, base, chain, db) && Allowed(w, base, db, step)
    ensures Inv(w, base, ChainAfter(base, chain, db, step), After(db, step))
    ensures db.outbox <= After(db, step).outbox
  {
    hide Tables, CommitBlock, Rollback, Backfill, RemovalOrder, PoolOwners, InsertPools;
    if Apply(db, step).Ok? {
      match step {
        case Start(baseline, observed) =>
          InitializeKeeps(w, base, baseline, observed);
        case Observe(observed) =>
          ObserveKeeps(w, base, chain, db, observed);
        case Extend(block, logs, observed) =>
          CommitNeedsCursor(db, block, logs, observed);
          CommitBlockKeeps(w, base, chain, db, block, logs, observed);
        case Rewind(ancestor, oldTip, removed) =>
          RewindStep(w, base, chain, db, ancestor, oldTip, removed);
        case TrackPools(through, owners) =>
          TrackStep(w, base, chain, db, through, owners);
        case FillPools(logs, pools, through) =>
          BackfillKeeps(w, base, chain, db, logs, pools, through);
          BackfillKeepsOutbox(db, logs, pools, through);
      }
    }
  }

  /** The generation counts the rollbacks, and the observed head never falls. */
  lemma CursorProgress(w: World, base: nat, chain: seq<Hash>, db: Db, step: Step)
    requires Inv(w, base, chain, db) && Allowed(w, base, db, step) && db.cursor.Some?
    ensures var (before, after) := (db.cursor.value, After(db, step).cursor);
            && after.Some? && after.value.observed >= before.observed
            && after.value.generation == before.generation + (if step.Rewind? && Apply(db, step).Ok? then 1 else 0)
            && (step.Observe? ==> after.value.observed >= step.observed)
            && (step.Extend? && Apply(db, step).Ok? ==> after.value.observed >= step.observed)
  {
    hide Tables, CommitLogs, BackfillLogs, RemovalOrder, PoolOwners, HasKey;
    if Apply(db, step).Ok? {
      match step {
        case Extend(block, logs, observed) =>
          CommitLogsCursor(InsertCanonicalBlock(db, block), block, db.cursor.value.generation, logs);
        case Rewind(ancestor, oldTip, removed) =>
          hide OrphanBlocks, OrphanRawLogs, OrphanFacts, OrphanTrades, RewindPools, RetainMarkets;
          RollbackCursor(db, ancestor, oldTip, removed);
        case FillPools(logs, pools, through) =>
          BackfillLogsCursor(db, logs);
        case _ =>
      }
    }
  }

  lemma {:induction false} CommitLogsCursor(db: Db, block: Block, generation: nat, logs: seq<Log>)
    requires CommitLogs(db, block, generation, logs).Ok?
    ensures CommitLogs(db, block, generation, logs).value.cursor == db.cursor
  {
    hide CommitLog;
    if logs != [] {
      CommitLogsCursor(db, block, generation, logs[..|logs| - 1]);
    }
  }

  lemma {:induction false} BackfillLogsCursor(db: Db, logs: seq<Log>)
    requires BackfillLogs(db, logs).Ok?
    ensures BackfillLogs(db, logs).value.cursor == db.cursor
  {
    hide InsertRawLog, InsertTrade;
    if logs != [] {
      BackfillLogsCursor(db, logs[..|logs| - 1]);
    }
  }

  lemma {:induction false} AnnounceCursor(db: Db, removed: seq<MarketId>, generation: nat)
    ensures Announce(db, removed, generation).cursor == db.cursor
  {
    hide HasKey;
    if removed != [] {
      AnnounceCursor(db, removed[..|removed| - 1], generation);
    }
  }

  lemma RollbackCursor(db: Db, ancestor: Block, oldTip: Block, removed: seq<MarketId>)
    requires Rollback(db, ancestor, oldTip, removed).Ok?
    ensures var c := db.cursor.value;
            Rollback(db, ancestor, oldTip, removed).value.cursor
            == Some(Cursor(ancestor.number, ancestor.hash, c.observed, ancestor.number, c.generation + 1))
  {
    hide OrphanBlocks, OrphanRawLogs, OrphanFacts, OrphanTrades, RewindPools, RetainMarkets, HasKey;
    AnnounceCursor(Rewound(db, ancestor, oldTip, removed), removed, db.cursor.value.generation + 1);
  }

  lemma CommitNeedsCursor(db: Db, block: Block, logs: seq<Log>, observed: nat)
    ensures CommitBlock(db, block, logs, observed).Ok? ==> db.cursor.Some?
  {
  }

  lemma RewindStep(w: World, base: nat, chain: seq<Hash>, db: Db, ancestor: Block, oldTip: Block, removed: seq<MarketId>)
    requires Inv(w, base, chain, db) && Rollback(db, ancestor, oldTip, removed).Ok?
    requires CanonicalAt(db, ancestor.hash, ancestor.number) && RemovalOrder(db, ancestor.number, removed)
    ensures base <= ancestor.number < base + |chain| && ancestor.hash == chain[ancestor.number - base]
    ensures Inv(w, base, chain[..ancestor.number - base + 1], Rollback(db, ancestor, oldTip, removed).value)
    ensures db.outbox <= Rollback(db, ancestor, oldTip, removed).value.outbox
  {
    hide Rollback, Tables, RemovalOrder;
    assert chain != [];
    ChainSafety(w, base, chain, db);
    RollbackKeeps(w, base, chain, db, ancestor, oldTip, removed, ancestor.number - base + 1);
    RollbackAppends(db, ancestor, oldTip, removed);
  }

  lemma RollbackAppends(db: Db, ancestor: Block, oldTip: Block, removed: seq<MarketId>)
    requires Rollback(db, ancestor, oldTip, removed).Ok?
    ensures db.outbox <= Rollback(db, ancestor, oldTip, removed).value.outbox
  {
    AnnounceAppends(Rewound(db, ancestor, oldTip, removed), removed, db.cursor.value.generation + 1);
  }

  lemma {:induction false} AnnounceAppends(db: Db, removed: seq<MarketId>, generation: nat)
    ensures db.outbox <= Announce(db, removed, generation).outbox
  {
    if removed != [] {
      AnnounceAppends(db, removed[..|removed| - 1], generation);
    }
  }

  lemma TrackStep(w: World, base: nat, chain: seq<Hash>, db: Db, through: int, owners: map<Address, MarketId>)
    requires Inv(w, base, chain, db) && PoolOwners(db, through, owners)
    ensures Inv(w, base, chain, InsertPools(db, owners)) && InsertPools(db, owners).outbox == db.outbox
  {
    if chain == [] {
      assert owners == map[] by {
        assert forall a :: a in owners ==> owners[a] in db.markets;
      }
      assert InsertPools(db, owners) == db;
    } else {
      InsertPoolsKeeps(w, base, chain, db.cursor.value.generation, db, through, owners);
    }
  }

  lemma {:induction false} BackfillLogsKeepOutbox(db: Db, logs: seq<Log>)
    requires BackfillLogs(db, logs).Ok?
    ensures BackfillLogs(db, logs).value.outbox == db.outbox
  {
    hide InsertRawLog, InsertTrade;
    if logs != [] {
      BackfillLogsKeepOutbox(db, logs[..|logs| - 1]);
    }
  }

  lemma BackfillKeepsOutbox(db: Db, logs: seq<Log>, pools: set<Address>, through: int)
    requires Backfill(db, logs, pools, through).Ok?
    ensures Backfill(db, logs, pools, through).value.outbox == db.outbox
  {
    BackfillLogsKeepOutbox(db, logs);
  }

  // ---------------------------------------------------------------------------
  // Whole runs
  // ---------------------------------------------------------------------------

  function RunDb(run: seq<Step>): Db {
    if run == [] then EMPTY_DB else After(RunDb(run[..|run| - 1]), run[|run| - 1])
  }

  function RunChain(base: nat, run: seq<Step>): seq<Hash> {
    if run == [] then []
    else
      var before := run[..|run| - 1];
      ChainAfter(base, RunChain(base, before), RunDb(before), run[|run| - 1])
  }

  ghost predicate AllowedRun(w: World, base: nat, run: seq<Step>) {
    forall n :: 0 <= n < |run| ==> Allowed(w, base, RunDb(run[..n]), run[n])
  }

  lemma {:induction false} RunKeeps(w: World, base: nat, run: seq<Step>)
    requires AllowedRun(w, base, run)
    ensures Inv(w, base, RunChain(base, run), RunDb(run))
  {
    if run != [] {
      var n := |run| - 1;
      forall m | 0 <= m < n ensures Allowed(w, base, RunDb(run[..n][..m]), run[..n][m]) {
        assert run[..n][..m] == run[..m];
      }
      RunKeeps(w, base, run[..n]);
      StepKeeps(w, base, RunChain(base, run[..n]), RunDb(run[..n]), run[n]);
    }
  }

  /** In every reachable state the outbox, read from its start, tells exactly which markets the table holds. */
  lemma EventSourcing(w: World, base: nat, run: seq<Step>)
    requires AllowedRun(w, base, run)
    ensures FoldMarkets(RunDb(run).outbox) == RunDb(run).markets.Keys
  {
    RunKeeps(w, base, run);
  }

  /** The outbox only grows: what a reader has seen stays where it was. */
  lemma {:induction false} OutboxGrows(w: World, base: nat, run: seq<Step>, n: nat)
    requires AllowedRun(w, base, run) && n <= |run|
    ensures RunDb(run[..n]).outbox <= RunDb(run).outbox
    decreases |run|
  {
    hide After, ChainAfter, Inv;
    if n < |run| {
      var last := |run| - 1;
      forall m | 0 <= m < last ensures Allowed(w, base, RunDb(run[..last][..m]), run[..last][m]) {
        assert run[..last][..m] == run[..m];
      }
      RunKeeps(w, base, run[..last]);
      StepKeeps(w, base, RunChain(base, run[..last]), RunDb(run[..last]), run[last]);
      OutboxGrows(w, base, run[..last], n);
      assert run[..last][..n] == run[..n];
    } else {
      assert run[..n] == run;
    }
  }

  ghost predicate HeightFilled(db: Db, n: nat) {
    exists h :: CanonicalAt(db, h, n)
  }

  /** Each height from the baseline to the cursor has one canonical block, linked to the one below; no other height has. */
  ghost predicate OneLinkedBlockPerHeight(base: nat, db: Db)
    requires db.cursor.Some?
  {
    && (forall n :: base <= n <= db.cursor.value.number ==> HeightFilled(db, n))
    && (forall g, h | g in db.blocks && h in db.blocks && db.blocks[g].canonical && db.blocks[h].canonical
          :: db.blocks[g].number == db.blocks[h].number ==> g == h)
    && (forall h | h in db.blocks && db.blocks[h].canonical
          :: base <= db.blocks[h].number <= db.cursor.value.number
             && (db.blocks[h].number > base ==> CanonicalAt(db, db.blocks[h].parentHash, db.blocks[h].number - 1)))
    && CanonicalAt(db, db.cursor.value.hash, db.cursor.value.number)
  }

  lemma OneLinkedBlock(w: World, base: nat, chain: seq<Hash>, db: Db)
    requires Inv(w, base, chain, db) && chain != []
    ensures OneLinkedBlockPerHeight(base, db)
  {
    hide Tables, CanonicalAt;
    ChainSafety(w, base, chain, db);
    forall n | base <= n <= db.cursor.value.number ensures HeightFilled(db, n) {
      assert CanonicalAt(db, chain[n - base], base + (n - base));
    }
    forall h | h in db.blocks && db.blocks[h].canonical && db.blocks[h].number > base
      ensures CanonicalAt(db, db.blocks[h].parentHash, db.blocks[h].number - 1)
    {
      var i := db.blocks[h].number - base;
      assert h == chain[i];
      assert CanonicalAt(db, chain[i - 1], base + (i - 1));
    }
  }

  /** The chain of canonical blocks is whole in every reachable state, and canonical rows belong to its blocks. */
  lemma RunSafety(w: World, base: nat, run: seq<Step>)
    requires AllowedRun(w, base, run) && RunDb(run).cursor.Some?
    ensures var db := RunDb(run);
            && OneLinkedBlockPerHeight(base, db)
            && (forall k | k in db.rawLogs && db.rawLogs[k].canonical
                  :: CanonicalAt(db, k.blockHash, db.rawLogs[k].log.blockNumber))
            && (forall k | k in db.facts && db.facts[k].canonical :: CanonicalAt(db, k.blockHash, db.facts[k].blockNumber))
            && (forall k | k in db.trades && db.trades[k].canonical :: CanonicalAt(db, k.blockHash, db.trades[k].blockNumber))
  {
    hide Tables, CanonicalAt, After, ChainAfter, OneLinkedBlockPerHeight;
    RunKeeps(w, base, run);
    OneLinkedBlock(w, base, RunChain(base, run), RunDb(run));
    ChainSafety(w, base, RunChain(base, run), RunDb(run));
  }

  /** A pool's cursor stays between its market's launch and the chain's cursor, through commits and rollbacks. */
  lemma PoolCursorBounds(w: World, base: nat, run: seq<Step>, pool: Address)
    requires AllowedRun(w, base, run) && pool in RunDb(run).pools
    ensures var (db, row) := (RunDb(run), RunDb(run).pools[pool]);
            && db.cursor.Some? && row.startBlock - 1 <= row.indexedThrough <= db.cursor.value.number
            && HasPool(db, pool, row.owner) && db.markets[row.owner].launchBlock == row.startBlock
  {
    RunKeeps(w, base, run);
  }

  /** Were a hash to name two blocks, committing it again would take it from the height where it stood. */
  lemma RepeatedHashLosesHeight(w: World, base: nat, chain: seq<Hash>, db: Db, block: Block, observed: nat, i: nat)
    requires Inv(w, base, chain, db) && i < |chain|
    requires block.hash == chain[i] && block.parentHash == chain[|chain| - 1] && block.number == base + |chain|
    ensures CommitBlock(db, block, [], observed).Ok? && !HeightFilled(CommitBlock(db, block, [], observed).value, base + i)
  {
    ChainSafety(w, base, chain, db);
  }
}

/** What the indexer knows of a node, and how each of its store calls keeps what it has established. */
module SyncSteps {
  import opened Outcomes
  import opened PancakeTrades
  import opened ChainData
  import opened LogValidation
  import opened ForkPoint
  import opened Store
  import opened StoreInvariants
  import opened StoreRuns
  import opened ReorgEquivalence
  import opened TradeJournal

  /** The chain from which a node that holds still answers; none when it answers as it likes. */
  type StillChain = Option<seq<Hash>>

  /** The hashes that earlier chains had, if they are told. */
  type History = Option<set<Hash>>

  /** What a node would answer at one moment. */
  datatype Node = Node(head: nat, blockAt: nat -> Option<Block>, logsFor: Filter -> Option<seq<Log>>)

  /** Whatever else a node makes up, the blocks it names are those that have their hashes. */
  ghost predicate HashesTell(w: World, answers: nat -> Node) {
    forall call, n :: answers(call).blockAt(n).Some?
                      ==> w.blockOf(answers(call).blockAt(n).value.hash) == answers(call).blockAt(n).value
  }

  ghost predicate HoldsLog(w: World, remote: seq<Hash>, log: Log) {
    exists i :: 0 <= i < |remote| && log in w.logsOf(remote[i])
  }

  /** A node that answers from the chain `remote` above `base`. */
  ghost predicate Follows(w: World, base: nat, remote: seq<Hash>, node: Node) {
    && (forall n :: base <= n ==>
          node.blockAt(n) == if n - base < |remote| then Some(w.blockOf(remote[n - base])) else None)
    && (forall filter: Filter :: base <= filter.fromBlock && node.logsFor(filter).Some? ==>
          forall log: Log :: log in node.logsFor(filter).value <==> HoldsLog(w, remote, log) && Matches(filter, log))
  }

  /** From some call on the node holds still. */
  ghost predicate StillFrom(w: World, base: nat, remote: seq<Hash>, answers: nat -> Node, from: nat) {
    forall call :: from <= call ==> Follows(w, base, remote, answers(call))
  }

  // ---------------------------------------------------------------------------
  // What each step keeps
  // ---------------------------------------------------------------------------

  /** No orphaned trade is of a block of the chain the node now follows. */
  ghost predicate NothingReturns(db: Db, remote: seq<Hash>) {
    forall k :: Orphaned(db, k) ==> k.blockHash !in remote
  }

  /** The store's invariant; and, under a node that holds still, that it shows its chain and, when the past is told,
      all scanned trades. */
  ghost predicate Good(
    w: World, registry: Registry, base: nat, chain: seq<Hash>, db: Db, remote: StillChain, past: History)
  {
    && Inv(w, base, chain, db)
    && (remote.Some? ==> Complete(w, registry, chain, db))
    && (remote.Some? && past.Some? ==>
          JournalComplete(w, chain, db) && NothingReturns(db, remote.value) && ComesFrom(chain, db, remote.value, past.value))
  }

  /** The store's blocks are of the `past` or of the node's chain now, and orphaned trades are of the past. */
  ghost predicate ComesFrom(chain: seq<Hash>, db: Db, remote: seq<Hash>, past: set<Hash>) {
    && (forall h :: h in chain ==> h in past || h in remote)
    && (forall k :: Orphaned(db, k) ==> k.blockHash in past)
  }

  lemma OrphanedOnlyByRewind(w: World, base: nat, chain: seq<Hash>, db: Db, step: Step, key: LogKey)
    requires Inv(w, base, chain, db) && Allowed(w, base, db, step) && Orphaned(After(db, step), key)
    ensures Orphaned(db, key) || (step.Rewind? && key.blockHash in chain && key.blockHash !in ChainAfter(base, chain, db, step))
  {
    hide CommitLogs, BackfillLogs, Rollback, RemovalOrder, PoolOwners, ProjectSwap, Tables;
    if Apply(db, step).Ok? {
      match step {
        case Start(baseline, observed) =>
        case Observe(observed) =>
        case Extend(block, logs, observed) =>
          CommitLogsKeepTrades(InsertCanonicalBlock(db, block), block, db.cursor.value.generation, logs);
        case Rewind(ancestor, oldTip, removed) =>
          RollbackTables(db, ancestor, oldTip, removed);
          RewindStep(w, base, chain, db, ancestor, oldTip, removed);
          RewoundAway(w, base, chain, db, ancestor, removed, key);
        case TrackPools(through, owners) =>
        case FillPools(logs, pools, through) =>
          BackfillLogsTrades(db, logs);
      }
    }
  }

  lemma RewoundAway(w: World, base: nat, chain: seq<Hash>, db: Db, ancestor: Block, removed: seq<MarketId>, key: LogKey)
    requires Inv(w, base, chain, db) && chain != [] && base <= ancestor.number < base + |chain|
    requires key in OrphanTrades(db.trades, ancestor.number, removed)
    requires !OrphanTrades(db.trades, ancestor.number, removed)[key].canonical
    ensures Orphaned(db, key) || (key.blockHash in chain && key.blockHash !in chain[..ancestor.number - base + 1])
  {
    hide RawLogsInv, FactsInv, MarketsInv, PoolsInv, OutboxInv, FoldMarkets, BlocksInv;
    OrphanedBlocks(w, base, chain, db.blocks, ancestor.number - base + 1);
  }

  lemma TakeStep(
    w: World, registry: Registry, base: nat, chain: seq<Hash>, db: Db, remote: StillChain, past: History, step: Step)
    requires ValidWorld(w) && Good(w, registry, base, chain, db, remote, past) && Allowed(w, base, db, step)
    requires remote.Some? ==> Honest(w, registry, base, db, step)
    requires remote.Some? && past.Some? ==> FreshScan(w, registry, base, chain, db, step)
    requires remote.Some? ==> forall h :: h in chain && h !in ChainAfter(base, chain, db, step) ==> h !in remote.value
    requires remote.Some? ==> forall h :: h in ChainAfter(base, chain, db, step) && h !in chain ==> h in remote.value
    ensures Good(w, registry, base, ChainAfter(base, chain, db, step), After(db, step), remote, past)
    ensures db.outbox <= After(db, step).outbox
  {
    hide ValidWorld, Inv, Allowed, After, ChainAfter, Honest, FreshScan, Complete, JournalComplete, Orphaned;
    StepKeeps(w, base, chain, db, step);
    if remote.Some? {
      HonestStepShows(w, registry, base, chain, db, step);
      if past.Some? {
        JournalStep(w, registry, base, chain, db, step);
        forall k | Orphaned(After(db, step), k) ensures k.blockHash !in remote.value && k.blockHash in past.value {
          OrphanedOnlyByRewind(w, base, chain, db, step, k);
        }
      }
    }
  }

  lemma RewindTaken(
    w: World, registry: Registry, base: nat, chain: seq<Hash>, db: Db, remote: StillChain, past: History,
    ancestor: Block, oldTip: Block, removed: seq<MarketId>)
    requires ValidWorld(w) && Good(w, registry, base, chain, db, remote, past) && Rollback(db, ancestor, oldTip, removed).Ok?
    requires base <= ancestor.number < base + |chain| && ancestor.hash == chain[ancestor.number - base]
    requires RemovalOrder(db, ancestor.number, removed)
    requires remote.Some? ==> forall h :: h in chain[ancestor.number - base + 1..] ==> h !in remote.value
    ensures var after := Rollback(db, ancestor, oldTip, removed).value;
            && Good(w, registry, base, chain[..ancestor.number - base + 1], after, remote, past)
            && db.outbox <= after.outbox
  {
    hide ValidWorld, Inv, Complete, JournalComplete, NothingReturns, ComesFrom, RemovalOrder, Rollback;
    var kept := ancestor.number - base + 1;
    StoredBlock(w, base, chain, db, ancestor.number);
    assert chain == chain[..kept] + chain[kept..];
    TakeStep(w, registry, base, chain, db, remote, past, Rewind(ancestor, oldTip, removed));
  }

  lemma ExtendTaken(
    w: World, registry: Registry, base: nat, chain: seq<Hash>, db: Db, remote: StillChain, past: History,
    block: Block, logs: seq<Log>, observed: nat)
    requires ValidWorld(w) && Good(w, registry, base, chain, db, remote, past) && CommitBlock(db, block, logs, observed).Ok?
    requires w.blockOf(block.hash) == block && LogsOfBlock(logs, block)
    requires remote.Some? ==> logs == RegisteredLogs(w, registry, block.hash) && block.hash in remote.value
    ensures var after := CommitBlock(db, block, logs, observed).value;
            && Good(w, registry, base, chain + [block.hash], after, remote, past)
            && db.outbox <= after.outbox
  {
    hide ValidWorld, Inv, Complete, JournalComplete, NothingReturns, ComesFrom, CommitBlock, LogsOfBlock, RegisteredLogs;
    TakeStep(w, registry, base, chain, db, remote, past, Extend(block, logs, observed));
  }

  /** What a commit announces. */
  lemma CommitAnnounces(
    w: World, registry: Registry, base: nat, chain: seq<Hash>, db: Db, remote: StillChain, past: History,
    block: Block, logs: seq<Log>, observed: nat)
    requires Good(w, registry, base, chain, db, remote, past) && CommitBlock(db, block, logs, observed).Ok?
    requires w.blockOf(block.hash) == block && LogsOfBlock(logs, block)
    ensures db.cursor.Some?
    ensures Announced(db.outbox, CommitBlock(db, block, logs, observed).value.outbox, logs, db.cursor.value.generation)
    ensures |CommitBlock(db, block, logs, observed).value.outbox| == |db.outbox| + |logs|
  {
    hide Inv, Complete, JournalComplete, CommitBlock, LogsOfBlock;
    CommitBlockAnnounces(w, base, chain, db, block, logs, observed);
  }

  lemma StartTaken(
    w: World, registry: Registry, base: nat, chain: seq<Hash>, db: Db, remote: StillChain, past: History,
    baseline: Block, observed: nat)
    requires ValidWorld(w) && Good(w, registry, base, chain, db, remote, past) && db.cursor.None?
    requires w.blockOf(baseline.hash) == baseline && baseline.number == base
    requires remote.Some? ==> baseline.hash in remote.value
    ensures var after := InitializeCursor(db, baseline, observed);
            Good(w, registry, base, [baseline.hash], after, remote, past) && db.outbox <= after.outbox
  {
    NoCursorNoChain(w, base, chain, db);
    hide ValidWorld, Inv, Complete, JournalComplete, NothingReturns, ComesFrom, InitializeCursor;
    TakeStep(w, registry, base, chain, db, remote, past, Start(baseline, observed));
  }

  lemma ObserveTaken(
    w: World, registry: Registry, base: nat, chain: seq<Hash>, db: Db, remote: StillChain, past: History, observed: nat)
    requires ValidWorld(w) && Good(w, registry, base, chain, db, remote, past)
    ensures var after := UpdateObservedHead(db, observed);
            Good(w, registry, base, chain, after, remote, past) && db.outbox <= after.outbox
  {
    hide ValidWorld, Inv, Complete, JournalComplete, NothingReturns, ComesFrom, UpdateObservedHead;
    TakeStep(w, registry, base, chain, db, remote, past, Observe(observed));
  }

  lemma TrackTaken(
    w: World, registry: Registry, base: nat, chain: seq<Hash>, db: Db, remote: StillChain, past: History,
    through: int, owners: map<Address, MarketId>)
    requires ValidWorld(w) && Good(w, registry, base, chain, db, remote, past) && PoolOwners(db, through, owners)
    ensures var after := InsertPools(db, owners);
            Good(w, registry, base, chain, after, remote, past) && db.outbox <= after.outbox
  {
    hide ValidWorld, Inv, Complete, JournalComplete, NothingReturns, ComesFrom, InsertPools, PoolOwners;
    TakeStep(w, registry, base, chain, db, remote, past, TrackPools(through, owners));
  }

  lemma FillMeetsNothing(
    w: World, chain: seq<Hash>, db: Db, remote: seq<Hash>, pool: Address, logs: seq<Log>, through: int)
    requires NothingReturns(db, remote) && chain <= remote && ScanOf(w, chain, db.pools, pool, logs, through)
    ensures forall log :: log in logs ==> !Orphaned(db, KeyOf(log))
  {
    hide Orphaned, ScanOf;
    NoHashReturned(w, chain, db, pool, logs, through);
  }

  lemma FillTaken(
    w: World, registry: Registry, base: nat, chain: seq<Hash>, db: Db, remote: StillChain, past: History,
    pool: Address, logs: seq<Log>, through: int)
    requires ValidWorld(w) && Good(w, registry, base, chain, db, remote, past) && Backfill(db, logs, {pool}, through).Ok?
    requires db.cursor.Some? && through <= db.cursor.value.number
    requires remote.Some? ==> ScanOf(w, chain, db.pools, pool, logs, through) && chain <= remote.value
    requires remote.Some? ==> forall log :: log in logs ==> log in w.logsOf(log.blockHash) && log.blockNumber > base
    ensures var after := Backfill(db, logs, {pool}, through).value;
            Good(w, registry, base, chain, after, remote, past) && db.outbox <= after.outbox
  {
    hide ValidWorld, Inv, Complete, JournalComplete, NothingReturns, ComesFrom, Backfill, ScanOf, Orphaned;
    if remote.Some? && past.Some? {
      FillMeetsNothing(w, chain, db, remote.value, pool, logs, through);
    }
    TakeStep(w, registry, base, chain, db, remote, past, FillPools(logs, {pool}, through));
  }

  // ---------------------------------------------------------------------------
  // Reading a node that holds still
  // ---------------------------------------------------------------------------

  lemma HeldLogKnows(w: World, base: nat, remote: seq<Hash>, log: Log)
    requires ValidWorld(w) && Linked(w, base, remote) && HoldsLog(w, remote, log)
    ensures base <= log.blockNumber < base + |remote| && log.blockHash == remote[log.blockNumber - base]
    ensures log in w.logsOf(log.blockHash) && !log.removed
  {
    hide ValidWorld;
    var i :| 0 <= i < |remote| && log in w.logsOf(remote[i]);
    LogsKnowTheirBlock(w, remote[i], log);
  }

  /** A still node's answer is never refused: it is in range, proves itself and does not contradict itself. */
  lemma StillAnswerIsAcceptable(
    w: World, base: nat, remote: seq<Hash>, filter: Filter, answer: seq<Log>, registry: Registry, pools: set<Address>)
    requires ValidWorld(w) && Linked(w, base, remote)
    requires forall log :: log in answer <==> HoldsLog(w, remote, log) && Matches(filter, log)
    ensures Acceptable(answer, filter.fromBlock, filter.toBlock, registry, pools)
  {
    hide ValidWorld, HoldsLog, Tracked;
    forall log | log in answer ensures !log.removed {
      HeldLogKnows(w, base, remote, log);
    }
    forall a: Log, b: Log | a in answer && b in answer && IdentityOf(a) == IdentityOf(b) ensures a == b {
      HeldLogKnows(w, base, remote, a);
      HeldLogKnows(w, base, remote, b);
      SameKeySameLog(w, a, b);
    }
  }

  /** The logs kept for a height are the registered logs of the block the node has there. */
  lemma StillBlockLogs(
    w: World, registry: Registry, base: nat, remote: seq<Hash>, fromBlock: nat, toBlock: nat, answer: seq<Log>,
    logs: seq<Log>, number: nat)
    requires ValidWorld(w) && Linked(w, base, remote)
    requires base <= fromBlock <= number <= toBlock && number - base < |remote|
    requires forall log :: log in answer <==>
               HoldsLog(w, remote, log) && Matches(RegistryFilter(registry, fromBlock, toBlock), log)
    requires StrictlyOrdered(logs) && DistinctIdentities(logs)
    requires forall log :: log in logs <==> log in answer && Tracked(registry, {}, log)
    ensures AtBlock(logs, number) == RegisteredLogs(w, registry, remote[number - base])
  {
    hide ValidWorld, Registered, CompareLogs, RegistryFilter, RegisteredLogs, Matches, StrictlyOrdered, AtBlock;
    hide DistinctIdentities;
    var h := remote[number - base];
    AtBlockMembers(logs, number);
    AtBlockOrdered(logs, number);
    RegisteredLogsAreTheBlocks(w, registry, h);
    forall log ensures log in AtBlock(logs, number) <==> log in RegisteredLogs(w, registry, h) {
      if log in AtBlock(logs, number) {
        HeldLogKnows(w, base, remote, log);
      }
      if log in RegisteredLogs(w, registry, h) {
        LogsKnowTheirBlock(w, h, log);
        assert w.blockOf(remote[number - base]).number == base + (number - base);
        RegistryFilterLosesNothing(registry, log, fromBlock, toBlock);
      }
    }
    OrderedUnique(AtBlock(logs, number), RegisteredLogs(w, registry, h));
  }

  /** The logs kept for a pool are all its swaps in the blocks asked for. */
  lemma StillPoolLogs(
    w: World, registry: Registry, base: nat, chain: seq<Hash>, remote: seq<Hash>, pools: map<Address, PoolRow>,
    pool: Address, fromBlock: nat, toBlock: nat, answer: seq<Log>, logs: seq<Log>)
    requires ValidWorld(w) && Linked(w, base, remote) && chain <= remote
    requires pool in pools && base < fromBlock == pools[pool].indexedThrough + 1 && toBlock < base + |chain|
    requires forall log :: log in answer <==> HoldsLog(w, remote, log) && Matches(PoolFilter(pool, fromBlock, toBlock), log)
    requires forall log :: log in logs <==> log in answer && Tracked(registry, {pool}, log)
    ensures ScanOf(w, chain, pools, pool, logs, toBlock)
    ensures forall log :: log in logs ==> log in w.logsOf(log.blockHash) && log.blockNumber > base
  {
    hide ValidWorld, Registered;
    forall log | log in logs
      ensures log.blockHash in chain && log in w.logsOf(log.blockHash) && PoolSwap(log, {pool})
              && pools[pool].indexedThrough < log.blockNumber <= toBlock && log.blockNumber > base
    {
      HeldLogKnows(w, base, remote, log);
      assert chain[log.blockNumber - base] == remote[log.blockNumber - base];
    }
    forall log: Log | log.blockHash in chain && log in w.logsOf(log.blockHash) && PoolSwap(log, {pool})
                 && pools[pool].indexedThrough < log.blockNumber <= toBlock
      ensures log in logs
    {
      var i :| 0 <= i < |chain| && chain[i] == log.blockHash;
      assert remote[i] == log.blockHash;
      assert HoldsLog(w, remote, log);
    }
  }

  /** Logs that passed validation, of the right hash, are what a commit asks for. */
  lemma ValidatedBlockLogs(logs: seq<Log>, block: Block)
    requires DistinctIdentities(logs)
    requires forall log :: log in AtBlock(logs, block.number) ==> log.blockHash == block.hash
    requires StrictlyOrdered(logs)
    ensures LogsOfBlock(AtBlock(logs, block.number), block)
    ensures var here := AtBlock(logs, block.number); forall i, j :: 0 <= i < j < |here| ==> ComesBefore(here[i], here[j])
  {
    hide StrictlyOrdered, ComesBefore;
    AtBlockOrdered(logs, block.number);
    OrderedIsInOrder(AtBlock(logs, block.number));
    AtBlockMembers(logs, block.number);
    var here := AtBlock(logs, block.number);
    forall i, j | 0 <= i < j < |here| ensures KeyOf(here[i]) != KeyOf(here[j]) {
      assert here[i] in here && here[j] in here;
    }
  }

  // ---------------------------------------------------------------------------
  // Termination of the pool scan
  // ---------------------------------------------------------------------------

  /** The blocks that pools still have before them. */
  function Unscanned(pools: map<Address, PoolRow>, through: int): set<(Address, int)> {
    set a, n | a in pools && pools[a].indexedThrough < n <= through :: (a, n)
  }

  /** Every direct market launched by `through` has a pool cursor. */
  ghost predicate AllTracked(db: Db, through: int) {
    forall id :: DirectFrom(db, id, through) ==> db.markets[id].launch.pool in db.pools
  }

  lemma TrackingTracksAll(db: Db, through: int, owners: map<Address, MarketId>)
    requires PoolOwners(db, through, owners)
    ensures AllTracked(InsertPools(db, owners), through)
    ensures AllTracked(db, through) ==> InsertPools(db, owners) == db
  {
    if AllTracked(db, through) {
      assert forall a :: a in owners ==> a in db.pools;
      assert InsertPools(db, owners).pools == db.pools;
    }
  }

  /** A scan of at least one block leaves strictly fewer before its pool, and as many before the others. */
  lemma ScanShrinks(pools: map<Address, PoolRow>, after: map<Address, PoolRow>, pool: Address, to: int, through: int)
    requires pool in pools && pools[pool].indexedThrough < to <= through
    requires after == map a | a in pools ::
               if a == pool then pools[a].(indexedThrough := Max(pools[a].indexedThrough, to)) else pools[a]
    ensures Unscanned(after, through) < Unscanned(pools, through)
  {
    assert (pool, to) in Unscanned(pools, through) && (pool, to) !in Unscanned(after, through);
  }

  // ---------------------------------------------------------------------------
  // Reading the store
  // ---------------------------------------------------------------------------

  /** The stored block of a height is the chain's. */
  lemma StoredBlock(w: World, base: nat, chain: seq<Hash>, db: Db, number: nat)
    requires Inv(w, base, chain, db) && base <= number < base + |chain|
    ensures CanonicalAt(db, chain[number - base], number)
    ensures forall h :: CanonicalAt(db, h, number) ==> h == chain[number - base]
  {
    hide Tables;
    ChainSafety(w, base, chain, db);
    assert CanonicalAt(db, chain[number - base], base + (number - base));
  }

  lemma CursorAtTip(w: World, base: nat, chain: seq<Hash>, db: Db)
    requires Inv(w, base, chain, db) && db.cursor.Some?
    ensures chain != [] && Linked(w, base, chain) && db.cursor.value.number == base + |chain| - 1
    ensures db.cursor.value.hash == chain[|chain| - 1]
  {
  }

  lemma NoCursorNoChain(w: World, base: nat, chain: seq<Hash>, db: Db)
    requires Inv(w, base, chain, db) && db.cursor.None?
    ensures chain == [] && db == EMPTY_DB
  {
    hide Tables;
  }

  /** A pool's next range starts right above the blocks it has had, and above the baseline. */
  lemma NextRange(w: World, base: nat, chain: seq<Hash>, db: Db, pool: Address)
    requires Inv(w, base, chain, db) && pool in db.pools
    ensures base < db.pools[pool].startBlock <= db.pools[pool].indexedThrough + 1 <= base + |chain|
    ensures Max(db.pools[pool].indexedThrough + 1, db.pools[pool].startBlock) == db.pools[pool].indexedThrough + 1
  {
  }

  predicate IsCursorConflict(error: string) {
    error == "cursor_parent_mismatch" || error == "cursor_height_mismatch"
  }

  /** The failures that another attempt may not meet: the chain moved while it was read. */
  predicate IsRace(error: string) {
    || error == "parent_hash_changed_during_scan" || error == "log_block_hash_changed_during_scan"
    || error == "cursor_changed_during_commit" || error == "removed_log_from_http_proof"
  }

  /** What goes wrong with a log is never mistaken for another writer's move of the cursor. */
  lemma CommitLogIsNoConflict(db: Db, block: Block, generation: nat, log: Log)
    ensures CommitLog(db, block, generation, log).Fail?
            ==> !IsCursorConflict(CommitLog(db, block, generation, log).error)
                && !IsRace(CommitLog(db, block, generation, log).error)
  {
    hide FactTaken, LaunchTaken, HasKey;
  }

  lemma {:induction false} CommitLogsAreNoConflict(db: Db, block: Block, generation: nat, logs: seq<Log>)
    ensures CommitLogs(db, block, generation, logs).Fail?
            ==> !IsCursorConflict(CommitLogs(db, block, generation, logs).error)
                && !IsRace(CommitLogs(db, block, generation, logs).error)
  {
    hide CommitLog, IsCursorConflict, IsRace;
    if logs != [] {
      CommitLogsAreNoConflict(db, block, generation, logs[..|logs| - 1]);
      if CommitLogs(db, block, generation, logs[..|logs| - 1]).Ok? {
        CommitLogIsNoConflict(CommitLogs(db, block, generation, logs[..|logs| - 1]).value, block, generation, logs[|logs| - 1]);
      }
    }
  }

  lemma CommitBlockConflict(db: Db, block: Block, logs: seq<Log>, observed: nat)
    requires db.cursor.Some? && block.number == db.cursor.value.number + 1 && block.parentHash == db.cursor.value.hash
    ensures CommitBlock(db, block, logs, observed).Fail?
            ==> !IsCursorConflict(CommitBlock(db, block, logs, observed).error)
                && !IsRace(CommitBlock(db, block, logs, observed).error)
  {
    hide CommitLogs, IsCursorConflict, IsRace;
    CommitLogsAreNoConflict(InsertCanonicalBlock(db, block), block, db.cursor.value.generation, logs);
  }

  lemma RollbackSucceeds(db: Db, ancestor: Block, oldTip: Block, removed: seq<MarketId>)
    requires db.cursor.Some? && db.cursor.value.number == oldTip.number && db.cursor.value.hash == oldTip.hash
    ensures var r := Rollback(db, ancestor, oldTip, removed);
            r.Ok? && r.value.cursor.Some? && r.value.cursor.value.generation == db.cursor.value.generation + 1
  {
    hide HasKey, OrphanBlocks, OrphanRawLogs, OrphanFacts, OrphanTrades, RewindPools, RetainMarkets;
    AnnounceOnlyAnnounces(Rewound(db, ancestor, oldTip, removed), removed, db.cursor.value.generation + 1);
  }

  lemma TipOfGood(
    w: World, registry: Registry, base: nat, chain: seq<Hash>, db: Db, remote: StillChain, past: History)
    requires Good(w, registry, base, chain, db, remote, past) && db.cursor.Some?
    ensures chain != [] && Linked(w, base, chain) && db.cursor.value.number == base + |chain| - 1
    ensures db.cursor.value.hash == chain[|chain| - 1]
  {
    hide Inv, Complete, JournalComplete;
    CursorAtTip(w, base, chain, db);
  }

  lemma StoredOfGood(
    w: World, registry: Registry, base: nat, chain: seq<Hash>, db: Db, remote: StillChain, past: History, number: nat)
    requires Good(w, registry, base, chain, db, remote, past) && base <= number < base + |chain|
    ensures CanonicalAt(db, chain[number - base], number)
    ensures forall h :: CanonicalAt(db, h, number) ==> h == chain[number - base]
  {
    hide Inv, Complete, JournalComplete;
    StoredBlock(w, base, chain, db, number);
  }

  lemma StoredTip(
    w: World, registry: Registry, base: nat, chain: seq<Hash>, db: Db, remote: StillChain, past: History)
    requires Good(w, registry, base, chain, db, remote, past) && db.cursor.Some?
    ensures CanonicalAt(db, db.cursor.value.hash, db.cursor.value.number)
    ensures forall h :: CanonicalAt(db, h, db.cursor.value.number) ==> h == db.cursor.value.hash
  {
    hide Good;
    TipOfGood(w, registry, base, chain, db, remote, past);
    StoredOfGood(w, registry, base, chain, db, remote, past, db.cursor.value.number);
  }

  lemma GenuineAnswer(w: World, answers: nat -> Node, call: nat, n: nat)
    requires HashesTell(w, answers) && answers(call).blockAt(n).Some?
    ensures w.blockOf(answers(call).blockAt(n).value.hash) == answers(call).blockAt(n).value
  {
  }

  /** On a chain that the node has extended, its next block names our tip as its parent. */
  lemma NextBlockLinks(w: World, base: nat, chain: seq<Hash>, remote: seq<Hash>)
    requires ValidWorld(w) && Linked(w, base, remote) && chain != [] && chain <= remote && |chain| < |remote|
    ensures var block := w.blockOf(remote[|chain|]);
            && block.hash == remote[|chain|] && block.number == base + |chain|
            && block.parentHash == chain[|chain| - 1] && chain + [block.hash] <= remote
  {
    hide ValidWorld;
    HashesItself(w, remote[|chain|]);
  }

  lemma GoodPools(
    w: World, registry: Registry, base: nat, chain: seq<Hash>, db: Db, remote: StillChain, past: History, pool: Address)
    requires Good(w, registry, base, chain, db, remote, past) && pool in db.pools
    ensures base < db.pools[pool].startBlock <= db.pools[pool].indexedThrough + 1 <= base + |chain|
    ensures Max(db.pools[pool].indexedThrough + 1, db.pools[pool].startBlock) == db.pools[pool].indexedThrough + 1
  {
    NextRange(w, base, chain, db, pool);
  }

  /** A scan moves its pool's cursor and nothing else that the next scan depends on. */
  lemma ScanAdvances(db: Db, pool: Address, logs: seq<Log>, to: int, through: int)
    requires Backfill(db, logs, {pool}, to).Ok? && pool in db.pools && db.pools[pool].indexedThrough < to <= through
    ensures var after := Backfill(db, logs, {pool}, to).value;
            && Unscanned(after.pools, through) < Unscanned(db.pools, through)
            && after.markets == db.markets && after.pools.Keys == db.pools.Keys && after.cursor == db.cursor
  {
    hide BackfillLogs, Unscanned;
    BackfillLogsTrades(db, logs);
    BackfillLogsCursor(db, logs);
    ScanShrinks(db.pools, Backfill(db, logs, {pool}, to).value.pools, pool, to, through);
  }

  lemma TrackedStays(db: Db, after: Db, through: int)
    requires AllTracked(db, through) && after.markets == db.markets && after.pools.Keys == db.pools.Keys
    ensures AllTracked(after, through)
  {
  }

  lemma TrackingKeepsCursor(db: Db, owners: map<Address, MarketId>)
    ensures InsertPools(db, owners).cursor == db.cursor
  {
  }

  lemma CommittedCursor(db: Db, block: Block, logs: seq<Log>, observed: nat)
    requires CommitBlock(db, block, logs, observed).Ok?
    ensures var after := CommitBlock(db, block, logs, observed).value;
            && after.cursor.Some? && after.cursor.value.number == block.number && after.cursor.value.hash == block.hash
            && db.cursor.Some? && after.cursor.value.generation == db.cursor.value.generation
            && after.cursor.value.finalized == block.number
  {
    hide CommitLogs;
    CommitLogsCursor(InsertCanonicalBlock(db, block), block, db.cursor.value.generation, logs);
  }

  lemma RegisteredLogsOfBlock(w: World, registry: Registry, h: Hash)
    requires ValidWorld(w)
    ensures forall log :: log in RegisteredLogs(w, registry, h) ==> log.blockHash == h
  {
    hide ValidWorld, RegisteredLogs;
    HashesItself(w, h);
    RegisteredLogsAreTheBlocks(w, registry, h);
  }

  lemma StillLater(w: World, base: nat, remote: StillChain, answers: nat -> Node, from: nat)
    requires remote.Some? ==> StillFrom(w, base, remote.value, answers, from)
    ensures remote.Some? ==> StillFrom(w, base, remote.value, answers, from + 1)
  {
    hide Follows;
  }

  lemma StillFromNow(w: World, base: nat, remote: seq<Hash>, answers: nat -> Node, from: nat)
    requires StillFrom(w, base, remote, answers, 0)
    ensures StillFrom(w, base, remote, answers, from)
  {
    hide Follows;
  }

  lemma GoodShowsFreshIndex(
    w: World, registry: Registry, base: nat, chain: seq<Hash>, db: Db, remote: StillChain, past: History)
    requires ValidWorld(w) && Good(w, registry, base, chain, db, remote, past) && remote.Some? && chain != []
    ensures FreshIndex(w, registry, chain).Ok?
    ensures CanonicalView(registry, db) == CanonicalView(registry, FreshIndex(w, registry, chain).value)
    ensures past.Some? ==> JournalComplete(w, chain, db)
  {
    hide ValidWorld, Inv, Complete, JournalComplete, FreshIndex, CanonicalView;
    ShowsFreshIndex(w, registry, base, chain, db);
  }

  lemma GoodBlocks(
    w: World, registry: Registry, base: nat, chain: seq<Hash>, db: Db, remote: StillChain, past: History)
    requires Good(w, registry, base, chain, db, remote, past) && chain != []
    ensures forall h: Hash, n: nat :: CanonicalAt(db, h, n) <==> base <= n < base + |chain| && h == chain[n - base]
  {
    hide Tables, Complete, JournalComplete;
    ChainSafety(w, base, chain, db);
    forall h: Hash, n: nat | base <= n < base + |chain| && h == chain[n - base] ensures CanonicalAt(db, h, n) {
      assert CanonicalAt(db, chain[n - base], base + (n - base));
    }
  }

  // ---------------------------------------------------------------------------
  // When a block can be indexed
  // ---------------------------------------------------------------------------

  /** The node has the chain up to a height, and a fresh index takes all of it. */
  ghost predicate Indexable(w: World, registry: Registry, base: nat, remote: seq<Hash>, upTo: nat) {
    upTo < base + |remote| && (base <= upTo ==> ChainView(w, registry, remote[..upTo - base + 1]).Ok?)
  }

  /** The node answers whatever it is asked for logs. */
  ghost predicate LogsAnswered(answers: nat -> Node) {
    forall call, filter :: answers(call).logsFor(filter).Some?
  }

  lemma {:induction false} ChainViewPrefix(w: World, registry: Registry, chain: seq<Hash>, n: nat)
    requires ChainView(w, registry, chain).Ok? && n <= |chain|
    ensures ChainView(w, registry, chain[..n]).Ok?
    decreases |chain|
  {
    if n == |chain| {
      assert chain[..n] == chain;
    } else if |chain| > 1 {
      hide ViewLogs;
      ChainViewPrefix(w, registry, chain[..|chain| - 1], n);
      assert chain[..|chain| - 1][..n] == chain[..n];
    } else {
      ShortChainView(w, registry, chain[..n]);
    }
  }

  lemma ShortChainView(w: World, registry: Registry, chain: seq<Hash>)
    requires |chain| <= 1
    ensures ChainView(w, registry, chain).Ok?
  {
  }

  lemma IndexableBelow(w: World, registry: Registry, base: nat, remote: seq<Hash>, upTo: nat, number: nat)
    requires Indexable(w, registry, base, remote, upTo) && base <= number <= upTo
    ensures Indexable(w, registry, base, remote, number)
  {
    var chain := remote[..upTo - base + 1];
    ChainViewPrefix(w, registry, chain, number - base + 1);
    assert chain[..number - base + 1] == remote[..number - base + 1];
  }

  /** On a still node the next block commits exactly when a fresh index would take it. */
  lemma NextBlockCommits(
    w: World, registry: Registry, base: nat, chain: seq<Hash>, db: Db, remote: seq<Hash>, past: History,
    observed: nat)
    requires ValidWorld(w) && Good(w, registry, base, chain, db, Some(remote), past) && Linked(w, base, remote)
    requires chain != [] && chain <= remote && |chain| < |remote|
    ensures var h := remote[|chain|];
            CommitBlock(db, w.blockOf(h), RegisteredLogs(w, registry, h), observed).Ok?
            <==> Indexable(w, registry, base, remote, base + |chain|)
  {
    hide ValidWorld, Inv, Complete, JournalComplete, CommitBlock, RegisteredLogs, ChainView;
    var h := remote[|chain|];
    NextBlockLinks(w, base, chain, remote);
    CommitShows(w, registry, base, chain, db, h, observed);
    assert remote[..|chain| + 1] == chain + [h];
  }

  // ---------------------------------------------------------------------------
  // From one poll to the next
  // ---------------------------------------------------------------------------

  /** A hash that is on the node's chain at one poll and off it at a later one stays off it. */
  ghost predicate NeverReturns(remotes: seq<seq<Hash>>) {
    forall i, j, k, h :: 0 <= i < j < k < |remotes| && h in remotes[i] && h !in remotes[j] ==> h !in remotes[k]
  }

  /** Every hash that the node's chain has had. */
  function Past(remotes: seq<seq<Hash>>): set<Hash> {
    set i, h | 0 <= i < |remotes| && h in remotes[i] :: h
  }

  ghost predicate Left(remotes: seq<seq<Hash>>, h: Hash) {
    exists i, j :: 0 <= i < j < |remotes| && h in remotes[i] && h !in remotes[j]
  }

  ghost predicate OrphansLeft(db: Db, remotes: seq<seq<Hash>>) {
    forall k :: Orphaned(db, k) ==> Left(remotes, k.blockHash)
  }

  ghost predicate Seen(chain: seq<Hash>, remotes: seq<seq<Hash>>) {
    forall h :: h in chain ==> h in Past(remotes)
  }

  lemma NothingYet(w: World, chain: seq<Hash>, db: Db)
    requires db == EMPTY_DB && chain == []
    ensures JournalComplete(w, chain, db) && OrphansLeft(db, []) && Seen(chain, [])
  {
  }

  lemma BeforePoll(chain: seq<Hash>, db: Db, remotes: seq<seq<Hash>>, k: nat)
    requires k < |remotes| && NeverReturns(remotes) && OrphansLeft(db, remotes[..k]) && Seen(chain, remotes[..k])
    ensures NothingReturns(db, remotes[k]) && ComesFrom(chain, db, remotes[k], Past(remotes[..k]))
  {
    hide Orphaned;
    forall key | Orphaned(db, key) ensures key.blockHash !in remotes[k] && key.blockHash in Past(remotes[..k]) {
      var i, j :| 0 <= i < j < k && key.blockHash in remotes[..k][i] && key.blockHash !in remotes[..k][j];
      assert key.blockHash in remotes[i] && key.blockHash !in remotes[j];
    }
  }

  lemma AfterPoll(chain: seq<Hash>, db: Db, remotes: seq<seq<Hash>>, k: nat)
    requires k < |remotes| && NothingReturns(db, remotes[k]) && ComesFrom(chain, db, remotes[k], Past(remotes[..k]))
    ensures OrphansLeft(db, remotes[..k + 1]) && Seen(chain, remotes[..k + 1])
  {
    hide Orphaned;
    var upTo := remotes[..k + 1];
    forall key | Orphaned(db, key) ensures Left(upTo, key.blockHash) {
      var i :| 0 <= i < k && key.blockHash in remotes[..k][i];
      assert key.blockHash in upTo[i] && key.blockHash !in upTo[k];
    }
    forall h | h in chain ensures h in Past(upTo) {
      if h in Past(remotes[..k]) {
        var i :| 0 <= i < k && h in remotes[..k][i];
        assert h in upTo[i];
      } else {
        assert h in upTo[k];
      }
    }
  }
}

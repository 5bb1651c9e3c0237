/** The indexer: it drives the store from a node that may answer every call differently. */
module Indexer {
  import opened Outcomes
  import opened PancakeTrades
  import opened ChainData
  import opened LogValidation
  import opened ForkPoint
  import opened Store
  import opened StoreInvariants
  import opened StoreRuns
  import opened ReorgEquivalence
  import opened TradeJournal
  import opened PostgresStore
  import opened SyncSteps
  import opened PoolScans

  /** A connection to a node: each call is answered by what the node happens to be at that call. */
  class CanonicalRpc {
    var answers: nat -> Node
    var calls: nat

    constructor (answers: nat -> Node)
      ensures this.answers == answers && calls == 0
    {
      this.answers := answers;
      calls := 0;
    }

    /** From now on the node answers in another way. */
    method Moves(answers: nat -> Node)
      modifies this
      ensures this.answers == answers && calls == old(calls)
    {
      this.answers := answers;
    }

    method GetBlockNumber() returns (head: nat)
      modifies this`calls
      ensures calls == old(calls) + 1 && head == answers(old(calls)).head
    {
      head := answers(calls).head;
      calls := calls + 1;
    }

    /** An answer of another height than asked for is refused. */
    method GetBlockByNumber(number: nat) returns (r: Outcome<Block>)
      modifies this`calls
      ensures calls == old(calls) + 1
      ensures var answer := answers(old(calls)).blockAt(number);
              && (r.Ok? <==> answer.Some? && answer.value.number == number)
              && (r.Ok? ==> r.value == answer.value)
              && (r.Fail? ==> r.error == if answer.None? then "rpc_block_unavailable" else "rpc_block_number_mismatch")
      ensures r.Fail? ==> !IsRace(r.error)
    {
      var answer := answers(calls).blockAt(number);
      calls := calls + 1;
      if answer.None? {
        return Fail("rpc_block_unavailable");
      }
      if answer.value.number != number {
        return Fail("rpc_block_number_mismatch");
      }
      return Ok(answer.value);
    }

    method GetLogs(filter: Filter) returns (r: Outcome<seq<Log>>)
      modifies this`calls
      ensures calls == old(calls) + 1
      ensures var answer := answers(old(calls)).logsFor(filter);
              (r.Ok? <==> answer.Some?) && (r.Ok? ==> r.value == answer.value) && (r.Fail? ==> r.error == "rpc_logs_invalid")
    {
      var answer := answers(calls).logsFor(filter);
      calls := calls + 1;
      if answer.None? {
        return Fail("rpc_logs_invalid");
      }
      return Ok(answer.value);
    }
  }

  datatype SyncResult = SyncResult(
    observedHead: nat, confirmedHead: nat, indexedThrough: nat, blocksCommitted: nat, logsCommitted: nat, reorgs: nat)

  /** How a step of an attempt failed; a race is worth another attempt. */
  datatype Failure = Failure(error: string, race: bool)

  datatype Attempt<T> = Done(value: T) | Stopped(failure: Failure)

  ghost predicate AgreeAt(left: seq<Hash>, right: seq<Hash>, i: nat) {
    i < |left| && i < |right| && left[i] == right[i]
  }

  /** What agreement of two chains at the tip, or anywhere down to the oldest height, amounts to. */
  lemma ChainsWithinReach(w: World, base: nat, chain: seq<Hash>, remote: seq<Hash>, oldest: nat)
    requires Linked(w, base, chain) && Linked(w, base, remote) && oldest < |chain|
    ensures |chain| <= |remote| ==> w.blockOf(remote[|chain| - 1]).number == base + |chain| - 1
    ensures |chain| <= |remote| && chain[|chain| - 1] == remote[|chain| - 1]
            ==> IsForkPoint(chain, remote, |chain|) && AgreeAt(chain, remote, oldest) && chain == chain[..|chain|]
    ensures |chain| <= |remote|
            ==> ((exists i :: oldest <= i < |chain| && chain[i] == remote[i]) <==> AgreeAt(chain, remote, oldest))
  {
    if |chain| <= |remote| {
      assert w.blockOf(remote[|chain| - 1]).number == base + (|chain| - 1);
      SearchFailsOnlyBeyondHistory(w, base, chain, remote, oldest);
      if chain[|chain| - 1] == remote[|chain| - 1] {
        HashLinking(w, base, chain, remote, |chain| - 1);
        SharedPrefix(chain, remote, |chain|, oldest);
      }
    }
  }

  lemma CursorIffChain(
    w: World, base: nat, chain: seq<Hash>, db: Db, registry: Registry, remote: StillChain, past: History)
    requires Good(w, registry, base, chain, db, remote, past)
    ensures db.cursor.Some? <==> chain != []
  {
    hide Tables, Complete, JournalComplete;
  }

  lemma AgreesWithItself(chain: seq<Hash>, remote: seq<Hash>)
    requires remote != [] && chain == [remote[0]]
    ensures AgreeAt(chain, remote, 0)
  {
  }

  lemma BlockIsThere(w: World, base: nat, remote: seq<Hash>, number: nat, registry: Registry)
    requires Linked(w, base, remote) && base <= number
    ensures number - base < |remote| ==> w.blockOf(remote[number - base]).number == number
    ensures Indexable(w, registry, base, remote, number) ==> number - base < |remote|
  {
  }

  /** `after` is a part of `before` that was kept, or a baseline to start from, and so many blocks on top. */
  predicate ExtendsBy(before: seq<Hash>, after: seq<Hash>, blocks: nat) {
    && blocks < |after|
    && (after[..|after| - blocks] <= before || (before == [] && blocks == |after| - 1))
  }

  lemma ExtendedBy(before: seq<Hash>, kept: seq<Hash>, after: seq<Hash>, blocks: int)
    requires kept != [] && kept <= after && blocks == |after| - |kept|
    requires kept <= before || (before == [] && |kept| == 1)
    ensures ExtendsBy(before, after, blocks)
  {
    assert after[..|after| - blocks] == kept;
  }

  lemma LostBlocksAreNoRace()
    ensures !IsRace("cursor_block_missing") && !IsRace("reorg_beyond_retained_history")
  {
  }

  class QuoteIndexer {
    const rpc: CanonicalRpc
    const store: PostgresIndexerStore
    const registry: Registry
    const confirmationDepth: nat
    const chunkSize: nat
    const maxReorgDepth: nat
    /** The canonical blocks that the store holds, from the baseline up. */
    ghost var chain: seq<Hash>

    constructor (rpc: CanonicalRpc, store: PostgresIndexerStore, registry: Registry,
                 confirmationDepth: nat, chunkSize: nat, maxReorgDepth: nat)
      requires ValidRegistry(registry) && 1 <= chunkSize <= 10000 && maxReorgDepth >= 1 && store.db == EMPTY_DB
      ensures this.rpc == rpc && this.store == store && this.registry == registry && chain == []
      ensures Configured()
    {
      this.rpc := rpc;
      this.store := store;
      this.registry := registry;
      this.confirmationDepth := confirmationDepth;
      this.chunkSize := chunkSize;
      this.maxReorgDepth := maxReorgDepth;
      chain := [];
    }

    ghost predicate Configured() {
      ValidRegistry(registry) && 1 <= chunkSize && 1 <= maxReorgDepth
    }

    function Base(): nat
      requires ValidRegistry(registry)
    {
      FirstStartBlock(registry) - 1
    }

    /** What every step of an attempt is given: a world its node speaks of, and a node that, if `remote` names a chain,
        holds still. */
    ghost predicate Given(w: World, remote: StillChain)
      reads this, rpc
    {
      && Configured() && ValidWorld(w) && HashesTell(w, rpc.answers)
      && (remote.Some? ==> Linked(w, Base(), remote.value) && StillFrom(w, Base(), remote.value, rpc.answers, rpc.calls))
    }

    /** The store is sound; and, under a node that holds still, it shows its chain. With the `past` told, the hashes that
        earlier chains had, its trades are complete too. */
    ghost predicate Sound(w: World, remote: StillChain, past: History)
      requires ValidRegistry(registry)
      reads this, store
    {
      Good(w, registry, Base(), chain, store.db, remote, past)
    }

    /** The lowest height the search for a common block goes down to. */
    function Oldest(number: nat): (oldest: nat)
      requires ValidRegistry(registry)
      ensures Base() <= oldest && (Base() <= number ==> oldest <= number)
      ensures number <= oldest + maxReorgDepth && (oldest == Base() || oldest + maxReorgDepth == number)
    {
      Max(Base(), if number > maxReorgDepth then number - maxReorgDepth else 0)
    }

    /** How often the store has been rolled back. */
    ghost function Generation(): nat
      reads store
    {
      if store.db.cursor.Some? then store.db.cursor.value.generation else 0
    }

    /** Rolls the store back to the last block that the node still has, if the tip is not one. */
    method EnsureCanonicalCursor(cursor: Cursor, ghost w: World, ghost remote: StillChain, ghost past: History)
      returns (r: Attempt<Cursor>)
      requires Given(w, remote) && Sound(w, remote, past) && store.db.cursor == Some(cursor)
      modifies `chain, rpc`calls, store
      ensures Given(w, remote) && Sound(w, remote, past) && old(store.db.outbox) <= store.db.outbox
      ensures r.Done? ==> store.db.cursor == Some(r.value) && chain != []
      ensures r.Done? ==> cursor.generation <= r.value.generation <= cursor.generation + 1
      ensures chain <= old(chain)
      ensures r.Done? && remote.Some? ==> |old(chain)| <= |remote.value| && IsForkPoint(old(chain), remote.value, |chain|)
                                          && chain == old(chain)[..|chain|]
      ensures r.Stopped? ==> store.db == old(store.db) && chain == old(chain) && !r.failure.race && !IsRace(r.failure.error)
      ensures remote.Some? && |old(chain)| <= |remote.value|
              ==> (r.Done? <==> AgreeAt(old(chain), remote.value, Oldest(cursor.number) - Base()))
    {
      hide Good, HashesTell, ValidWorld, Linked, AgreeAt, IsForkPoint, CanonicalAt, IsRace;
      LostBlocksAreNoRace();
      ghost var base := Base();
      TipOfGood(w, registry, base, chain, store.db, remote, past);
      var tip := rpc.GetBlockByNumber(cursor.number);
      if remote.Some? {
        ChainsWithinReach(w, base, chain, remote.value, Oldest(cursor.number) - base);
      }
      if tip.Fail? {
        return Stopped(Failure(tip.error, false));
      }
      if remote.Some? {
        HashesItself(w, remote.value[cursor.number - base]);
      }
      if tip.value.hash == cursor.hash {
        return Done(cursor);
      }
      var ancestor := FindAncestor(cursor, w, remote, past);
      if ancestor.Stopped? {
        return Stopped(ancestor.failure);
      }
      StoredTip(w, registry, base, chain, store.db, remote, past);
      var oldTip := store.GetCanonicalBlock(cursor.number);
      if oldTip.None? {
        return Stopped(Failure("cursor_block_missing", false));
      }
      r := Rewound(cursor, ancestor.value, oldTip.value, w, remote, past);
    }

    /** Goes down from the cursor to the first height at which the node still has the stored block. */
    method FindAncestor(cursor: Cursor, ghost w: World, ghost remote: StillChain, ghost past: History)
      returns (r: Attempt<Block>)
      requires Given(w, remote) && Sound(w, remote, past) && store.db.cursor == Some(cursor)
      requires |chain| == cursor.number - Base() + 1 && (remote.Some? ==> |chain| <= |remote.value|)
      modifies rpc`calls
      ensures Given(w, remote)
      ensures r.Done? ==> Base() <= r.value.number <= cursor.number && r.value.hash == chain[r.value.number - Base()]
      ensures r.Done? && remote.Some? ==> AgreeAt(chain, remote.value, r.value.number - Base())
      ensures r.Done? && remote.Some?
              ==> forall i :: r.value.number - Base() < i < |chain| ==> chain[i] != remote.value[i]
      ensures r.Stopped? ==> !r.failure.race && !IsRace(r.failure.error)
      ensures remote.Some?
              ==> (r.Done? <==> exists i :: Oldest(cursor.number) - Base() <= i < |chain| && chain[i] == remote.value[i])
    {
      hide Good, HashesTell, ValidWorld, IsRace;
      LostBlocksAreNoRace();
      ghost var base := Base();
      var oldest := Oldest(cursor.number);
      var number: int := cursor.number;
      while number >= oldest
        invariant oldest - 1 <= number <= cursor.number
        invariant Given(w, remote)
        invariant remote.Some? ==> forall i :: number - base < i < |chain| ==> chain[i] != remote.value[i]
        decreases number
      {
        StoredOfGood(w, registry, base, chain, store.db, remote, past, number);
        var stored := store.GetCanonicalBlock(number);
        if stored.Some? {
          var answer := rpc.GetBlockByNumber(number);
          if answer.Fail? {
            return Stopped(Failure(answer.error, false));
          }
          if remote.Some? {
            HashesItself(w, remote.value[number - base]);
          }
          if answer.value.hash == stored.value.hash {
            return Done(answer.value);
          }
        }
        if number == 0 {
          break;
        }
        number := number - 1;
      }
      return Stopped(Failure("reorg_beyond_retained_history", false));
    }

    /** Rolls back to a block that the store and the node share. */
    method Rewound(cursor: Cursor, ancestor: Block, oldTip: Block, ghost w: World, ghost remote: StillChain,
                   ghost past: History)
      returns (r: Attempt<Cursor>)
      requires Given(w, remote) && Sound(w, remote, past) && store.db.cursor == Some(cursor)
      requires Base() <= ancestor.number < Base() + |chain| && ancestor.hash == chain[ancestor.number - Base()]
      requires oldTip.number == cursor.number && oldTip.hash == cursor.hash
      requires remote.Some? ==> |chain| <= |remote.value| && AgreeAt(chain, remote.value, ancestor.number - Base())
      requires remote.Some? ==> forall i :: ancestor.number - Base() < i < |chain| ==> chain[i] != remote.value[i]
      modifies `chain, store
      ensures Given(w, remote) && Sound(w, remote, past) && old(store.db.outbox) <= store.db.outbox
      ensures r.Done? && store.db.cursor == Some(r.value) && chain == old(chain)[..ancestor.number - Base() + 1]
      ensures r.value.generation == cursor.generation + 1
      ensures remote.Some? ==> IsForkPoint(old(chain), remote.value, |chain|)
    {
      hide Good, HashesTell, ValidWorld, RemovalOrder, Rollback;
      ghost var base := Base();
      ghost var kept := ancestor.number - base + 1;
      TipOfGood(w, registry, base, chain, store.db, remote, past);
      var answer, removed := store.Rollback(ancestor, oldTip);
      RollbackSucceeds(old(store.db), ancestor, oldTip, removed);
      if remote.Some? {
        SearchFindsForkPoint(w, base, chain, remote.value, kept);
      }
      RewindTaken(w, registry, base, chain, old(store.db), remote, past, ancestor, oldTip, removed);
      chain := chain[..kept];
      var rolledBack := store.LoadCursor();
      return Done(rolledBack.value);
    }

    method AllOfBlock(logs: seq<Log>, hash: Hash) returns (agree: bool)
      ensures agree <==> forall log :: log in logs ==> log.blockHash == hash
    {
      for i := 0 to |logs|
        invariant forall j :: 0 <= j < i ==> logs[j].blockHash == hash
      {
        if logs[i].blockHash != hash {
          assert logs[i] in logs;
          return false;
        }
      }
      return true;
    }

    /** Logs fit to be committed block by block: under a still node, each block's are those it holds. */
    ghost predicate ChunkLogs(w: World, remote: StillChain, logs: seq<Log>, fromBlock: nat, toBlock: nat)
      requires ValidRegistry(registry)
    {
      && StrictlyOrdered(logs) && DistinctIdentities(logs)
      && (remote.Some? ==> forall n | fromBlock <= n <= toBlock && Base() <= n < Base() + |remote.value|
                             :: AtBlock(logs, n) == RegisteredLogs(w, registry, remote.value[n - Base()]))
    }

    /** Asks for the logs of a chunk and checks them. */
    method FetchChunk(fromBlock: nat, toBlock: nat, ghost w: World, ghost remote: StillChain)
      returns (r: Attempt<seq<Log>>)
      requires Given(w, remote) && Base() <= fromBlock <= toBlock < fromBlock + chunkSize
      modifies rpc`calls
      ensures Given(w, remote)
      ensures r.Done? ==> ChunkLogs(w, remote, r.value, fromBlock, toBlock)
      ensures r.Stopped? && r.failure.race ==> remote.None?
      ensures r.Stopped? ==> (r.failure.race <==> IsRace(r.failure.error))
      ensures remote.Some? && LogsAnswered(rpc.answers) ==> r.Done?
    {
      hide HashesTell, ValidWorld, AtBlock, RegisteredLogs, Linked, StrictlyOrdered, DistinctIdentities;
      var filter := RegistryFilter(registry, fromBlock, toBlock);
      var answer := rpc.GetLogs(filter);
      if answer.Fail? {
        return Stopped(Failure(answer.error, false));
      }
      var checked := ValidateAndDecodeLogs(registry, answer.value, fromBlock, toBlock, {});
      if remote.Some? {
        StillAnswerIsAcceptable(w, Base(), remote.value, filter, answer.value, registry, {});
      }
      if checked.Fail? {
        return Stopped(Failure(checked.error, checked.error == "removed_log_from_http_proof"));
      }
      if remote.Some? {
        forall n | fromBlock <= n <= toBlock && Base() <= n < Base() + |remote.value|
          ensures AtBlock(checked.value, n) == RegisteredLogs(w, registry, remote.value[n - Base()])
        {
          StillBlockLogs(w, registry, Base(), remote.value, fromBlock, toBlock, answer.value, checked.value, n);
        }
      }
      return Done(checked.value);
    }

    /** Fetches one block, checks that it and its logs belong to the chain committed so far, and commits it. */
    method IndexBlock(number: nat, expectedParent: Hash, blockLogs: seq<Log>, observedHead: nat,
                      ghost logs: seq<Log>, ghost fromBlock: nat, ghost toBlock: nat,
                      ghost w: World, ghost remote: StillChain, ghost past: History)
      returns (r: Attempt<Block>)
      requires Given(w, remote) && Sound(w, remote, past) && (remote.Some? ==> chain <= remote.value)
      requires ChunkLogs(w, remote, logs, fromBlock, toBlock) && fromBlock <= number <= toBlock
      requires blockLogs == AtBlock(logs, number)
      requires store.db.cursor.Some? && store.db.cursor.value.number + 1 == number
      requires store.db.cursor.value.hash == expectedParent
      modifies `chain, rpc`calls, store
      ensures Given(w, remote) && Sound(w, remote, past) && (remote.Some? ==> chain <= remote.value)
      ensures old(store.db.outbox) <= store.db.outbox
      ensures r.Done? ==> store.db.cursor.Some?
                          && r.value.number == number == store.db.cursor.value.number == store.db.cursor.value.finalized
                          && r.value.hash == store.db.cursor.value.hash
      ensures r.Stopped? && r.failure.race ==> remote.None?
      ensures r.Stopped? ==> (r.failure.race <==> IsRace(r.failure.error))
      ensures if r.Done? then chain == old(chain) + [r.value.hash] else chain == old(chain)
      ensures Generation() == old(Generation())
      ensures |store.db.outbox| == |old(store.db.outbox)| + if r.Done? then |blockLogs| else 0
      ensures r.Done? ==> Announced(old(store.db.outbox), store.db.outbox, blockLogs, old(store.db.cursor.value.generation))
      ensures r.Done? ==> forall i, j :: 0 <= i < j < |blockLogs| ==> ComesBefore(blockLogs[i], blockLogs[j])
      ensures remote.Some? ==> (r.Done? <==> Indexable(w, registry, Base(), remote.value, number))
    {
      hide Good, Indexable, HashesTell, ValidWorld, CommitBlock, LogsOfBlock, AtBlock, RegisteredLogs, Linked;
      hide StrictlyOrdered, DistinctIdentities, IsCursorConflict, Announced, ComesBefore;
      ghost var base := Base();
      TipOfGood(w, registry, base, chain, store.db, remote, past);
      if remote.Some? {
        BlockIsThere(w, base, remote.value, number, registry);
      }
      var fetched := rpc.GetBlockByNumber(number);
      if fetched.Fail? {
        return Stopped(Failure(fetched.error, false));
      }
      var block := fetched.value;
      GenuineAnswer(w, rpc.answers, rpc.calls - 1, number);
      if remote.Some? {
        NextBlockLinks(w, base, chain, remote.value);
        NextBlockCommits(w, registry, base, chain, store.db, remote.value, past, observedHead);
        RegisteredLogsOfBlock(w, registry, block.hash);
      }
      if block.parentHash != expectedParent {
        return Stopped(Failure("parent_hash_changed_during_scan", true));
      }
      var agree := AllOfBlock(blockLogs, block.hash);
      if !agree {
        return Stopped(Failure("log_block_hash_changed_during_scan", true));
      }
      ValidatedBlockLogs(logs, block);
      var stored := store.CommitBlock(block, blockLogs, observedHead);
      CommitBlockConflict(old(store.db), block, blockLogs, observedHead);
      if stored.Fail? {
        if IsCursorConflict(stored.error) {
          return Stopped(Failure("cursor_changed_during_commit", true));
        }
        return Stopped(Failure(stored.error, false));
      }
      ExtendTaken(w, registry, base, chain, old(store.db), remote, past, block, blockLogs, observedHead);
      CommittedCursor(old(store.db), block, blockLogs, observedHead);
      CommitAnnounces(w, registry, base, chain, old(store.db), remote, past, block, blockLogs, observedHead);
      chain := chain + [block.hash];
      return Done(block);
    }

    /** Fetches, validates and commits the blocks `fromBlock..toBlock`, one transaction a block. */
    method IndexChunk(cursor: Cursor, fromBlock: nat, toBlock: nat, observedHead: nat,
                      ghost w: World, ghost remote: StillChain, ghost past: History)
      returns (r: Attempt<Cursor>, logsCommitted: nat)
      requires Given(w, remote) && Sound(w, remote, past) && AtCursor(cursor)
      requires Base() <= fromBlock && cursor.number + 1 == fromBlock <= toBlock && (remote.Some? ==> chain <= remote.value)
      requires toBlock < fromBlock + chunkSize
      modifies `chain, rpc`calls, store
      ensures Given(w, remote) && Sound(w, remote, past) && old(store.db.outbox) <= store.db.outbox
      ensures remote.Some? ==> chain <= remote.value
      ensures r.Done? ==> AtCursor(r.value) && r.value.number == toBlock
      ensures r.Stopped? && r.failure.race ==> remote.None?
      ensures r.Stopped? ==> (r.failure.race <==> IsRace(r.failure.error))
      ensures old(chain) <= chain && |chain| <= toBlock - Base() + 1
      ensures Generation() == old(Generation()) && logsCommitted == |store.db.outbox| - |old(store.db.outbox)|
      ensures remote.Some? && LogsAnswered(rpc.answers) && Indexable(w, registry, Base(), remote.value, toBlock)
              ==> r.Done?
    {
      hide Good, Indexable, LogsAnswered, HashesTell, ValidWorld, AtBlock, RegisteredLogs, Linked, StillFrom;
      hide StrictlyOrdered, DistinctIdentities, IsRace;
      logsCommitted := 0;
      TipOfGood(w, registry, Base(), chain, store.db, remote, past);
      var fetched := FetchChunk(fromBlock, toBlock, w, remote);
      if fetched.Stopped? {
        return Stopped(fetched.failure), logsCommitted;
      }
      var logs := fetched.value;
      var grouped := GroupLogsByBlock(logs);
      var current := cursor;
      var expectedParent := cursor.hash;
      var number := fromBlock;
      while number <= toBlock
        invariant fromBlock <= number <= toBlock + 1
        invariant Given(w, remote) && Sound(w, remote, past) && old(store.db.outbox) <= store.db.outbox
        invariant remote.Some? ==> chain <= remote.value
        invariant ChunkLogs(w, remote, logs, fromBlock, toBlock)
        invariant AtCursor(current) && current.number == number - 1 && expectedParent == current.hash
        invariant old(chain) <= chain && |chain| == number - Base()
        invariant Generation() == old(Generation()) && logsCommitted == |store.db.outbox| - |old(store.db.outbox)|
        decreases toBlock + 1 - number
      {
        if remote.Some? && Indexable(w, registry, Base(), remote.value, toBlock) {
          IndexableBelow(w, registry, Base(), remote.value, toBlock, number);
        }
        var blockLogs := if number in grouped then grouped[number] else [];
        var indexed :=
          IndexBlock(number, expectedParent, blockLogs, observedHead, logs, fromBlock, toBlock, w, remote, past);
        if indexed.Stopped? {
          return Stopped(indexed.failure), logsCommitted;
        }
        var block := indexed.value;
        expectedParent := block.hash;
        current := current.(number := block.number, hash := block.hash, finalized := block.number);
        logsCommitted := logsCommitted + |blockLogs|;
        number := number + 1;
      }
      return Done(current), logsCommitted;
    }

    /** The attempt's own copy of the cursor names the store's tip. */
    ghost predicate AtCursor(cursor: Cursor)
      reads store
    {
      && store.db.cursor.Some? && store.db.cursor.value.number == cursor.number && store.db.cursor.value.hash == cursor.hash
      && store.db.cursor.value.finalized == cursor.finalized && store.db.cursor.value.generation == cursor.generation
    }

    /** Asks for the swaps of a pool's next range and checks them. */
    method FetchPoolSwaps(pool: Address, fromBlock: nat, toBlock: nat, ghost w: World, ghost remote: StillChain)
      returns (r: Attempt<seq<Log>>)
      requires Given(w, remote) && pool in store.db.pools
      requires Base() < fromBlock == store.db.pools[pool].indexedThrough + 1 && toBlock < Base() + |chain|
      requires toBlock < fromBlock + chunkSize && (remote.Some? ==> chain <= remote.value)
      modifies rpc`calls
      ensures Given(w, remote)
      ensures r.Done? && remote.Some? ==> ScanOf(w, chain, store.db.pools, pool, r.value, toBlock)
      ensures r.Done? && remote.Some? ==> forall log :: log in r.value ==> log in w.logsOf(log.blockHash) && log.blockNumber > Base()
      ensures r.Stopped? && r.failure.race ==> remote.None?
      ensures r.Stopped? ==> (r.failure.race <==> IsRace(r.failure.error))
      ensures remote.Some? && LogsAnswered(rpc.answers) ==> r.Done?
    {
      hide HashesTell, ValidWorld, ScanOf, Linked;
      var filter := PoolFilter(pool, fromBlock, toBlock);
      var answer := rpc.GetLogs(filter);
      if answer.Fail? {
        return Stopped(Failure(answer.error, false));
      }
      var checked := ValidateAndDecodeLogs(registry, answer.value, fromBlock, toBlock, {pool});
      if remote.Some? {
        StillAnswerIsAcceptable(w, Base(), remote.value, filter, answer.value, registry, {pool});
      }
      if checked.Fail? {
        return Stopped(Failure(checked.error, checked.error == "removed_log_from_http_proof"));
      }
      if remote.Some? {
        StillPoolLogs(w, registry, Base(), chain, remote.value, store.db.pools, pool, fromBlock, toBlock,
                      answer.value, checked.value);
      }
      return Done(checked.value);
    }

    /** Scans each pool from its market's launch up to the confirmed head, in chunks, until none is left behind. */
    method SyncPancakeV3PoolBackfills(confirmedHead: nat, ghost w: World, ghost remote: StillChain, ghost past: History)
      returns (r: Attempt<nat>)
      requires Given(w, remote) && Sound(w, remote, past)
      requires store.db.cursor.Some? && confirmedHead <= store.db.cursor.value.number
      requires remote.Some? ==> chain <= remote.value
      modifies rpc`calls, store
      ensures Given(w, remote) && Sound(w, remote, past) && old(store.db.outbox) <= store.db.outbox
      ensures store.db.cursor == old(store.db.cursor)
      ensures r.Done? ==> AllTracked(store.db, confirmedHead) && forall a :: !Pending(store.db, confirmedHead, a)
      ensures r.Stopped? && r.failure.race ==> remote.None?
      ensures r.Stopped? ==> (r.failure.race <==> IsRace(r.failure.error))
      ensures remote.Some? && LogsAnswered(rpc.answers) && TransactionsOnce(w, chain)
              ==> && (r.Done? <==> NothingBlocked(w, chain, store.db, confirmedHead))
                  && exists owners :: PoolOwners(old(store.db), confirmedHead, owners)
                       && (r.Done? <==> NothingBlocked(w, chain, InsertPools(old(store.db), owners), confirmedHead))
    {
      hide Good, HashesTell, ValidWorld, Backfill, PoolOwners, InsertPools, AllTracked, Unscanned, ScanOf, Linked;
      hide NothingBlocked, TransactionsOnce, FurthestBehind, IsRace;
      ghost var base := Base();
      var logsCommitted: nat := 0;
      var next, owners := store.LoadPancakeV3PoolCursors(confirmedHead);
      TrackTaken(w, registry, base, chain, old(store.db), remote, past, confirmedHead, owners);
      TrackingTracksAll(old(store.db), confirmedHead, owners);
      TrackingKeepsCursor(old(store.db), owners);
      ghost var tracked, first := store.db, owners;
      while next.Some?
        invariant Given(w, remote) && Sound(w, remote, past) && old(store.db.outbox) <= store.db.outbox
        invariant store.db.cursor == old(store.db.cursor) && AllTracked(store.db, confirmedHead)
        invariant NextPool(store.db, confirmedHead, next)
        invariant tracked == InsertPools(old(store.db), first) && PoolOwners(old(store.db), confirmedHead, first)
        invariant remote.Some? && TransactionsOnce(w, chain)
                  ==> (NothingBlocked(w, chain, store.db, confirmedHead) <==> NothingBlocked(w, chain, tracked, confirmedHead))
        decreases Unscanned(store.db.pools, confirmedHead)
      {
        var pool := next.value;
        var row := store.db.pools[pool];
        TipOfGood(w, registry, base, chain, store.db, remote, past);
        GoodPools(w, registry, base, chain, store.db, remote, past, pool);
        var fromBlock := Max(row.indexedThrough + 1, row.startBlock);
        var toBlock := Min(confirmedHead, fromBlock + chunkSize - 1);
        var checked := FetchPoolSwaps(pool, fromBlock, toBlock, w, remote);
        if checked.Stopped? {
          return Stopped(checked.failure);
        }
        label Before:
        StillScan(w, registry, base, chain, store.db, remote, past, pool, checked.value, toBlock, confirmedHead);
        var stored := store.CommitPancakeV3PoolBackfill(checked.value, {pool}, toBlock);
        if stored.Fail? {
          ScanIsNoRace(old@Before(store.db), checked.value, {pool}, toBlock);
          return Stopped(Failure(stored.error, false));
        }
        ScanTaken(w, registry, base, chain, old@Before(store.db), remote, past, pool, checked.value, toBlock, confirmedHead);
        logsCommitted := logsCommitted + |checked.value|;
        label Scanned:
        next, owners := store.LoadPancakeV3PoolCursors(confirmedHead);
        TrackingTracksAll(old@Scanned(store.db), confirmedHead, owners);
      }
      GoodNothingBlocked(w, registry, base, chain, store.db, remote, past, confirmedHead);
      return Done(logsCommitted);
    }

    /** Loads the cursor, or starts it at the block below the first contract. */
    method OpenCursor(observedHead: nat, ghost w: World, ghost remote: StillChain, ghost past: History)
      returns (r: Attempt<Cursor>)
      requires Given(w, remote) && Sound(w, remote, past)
      modifies `chain, rpc`calls, store
      ensures Given(w, remote) && Sound(w, remote, past) && old(store.db.outbox) <= store.db.outbox
      ensures r.Done? ==> store.db.cursor == Some(r.value) && r.value.generation == old(Generation())
      ensures r.Stopped? ==> !r.failure.race && !IsRace(r.failure.error)
      ensures old(store.db.cursor).Some? ==> r.Done? && chain == old(chain)
      ensures chain == old(chain) || (old(chain) == [] && |chain| == 1)
      ensures old(store.db.cursor).None? && remote.Some? && remote.value != [] ==> r.Done? && chain == [remote.value[0]]
    {
      hide Good, HashesTell, ValidWorld, Linked, IsRace;
      ghost var base := Base();
      CursorIffChain(w, base, chain, store.db, registry, remote, past);
      var loaded := store.LoadCursor();
      if loaded.Some? {
        store.UpdateObservedHead(observedHead);
        ObserveTaken(w, registry, base, chain, old(store.db), remote, past, observedHead);
        return Done(loaded.value.(observed := Max(loaded.value.observed, observedHead)));
      }
      if remote.Some? {
        BlockIsThere(w, base, remote.value, base, registry);
      }
      var baseline := rpc.GetBlockByNumber(FirstStartBlock(registry) - 1);
      if baseline.Fail? {
        return Stopped(Failure(baseline.error, false));
      }
      GenuineAnswer(w, rpc.answers, rpc.calls - 1, base);
      if remote.Some? {
        HashesItself(w, remote.value[0]);
      }
      var cursor := store.InitializeCursor(baseline.value, observedHead);
      StartTaken(w, registry, base, chain, old(store.db), remote, past, baseline.value, observedHead);
      chain := [baseline.value.hash];
      return Done(cursor);
    }

    /** Indexes chunk after chunk up to the confirmed head. */
    method CatchUp(start: Cursor, confirmedHead: nat, observedHead: nat,
                   ghost w: World, ghost remote: StillChain, ghost past: History)
      returns (r: Attempt<Cursor>, logsCommitted: nat)
      requires Given(w, remote) && Sound(w, remote, past) && AtCursor(start) && Base() <= start.number
      requires remote.Some? ==> chain <= remote.value
      modifies `chain, rpc`calls, store
      ensures Given(w, remote) && Sound(w, remote, past) && old(store.db.outbox) <= store.db.outbox
      ensures remote.Some? ==> chain <= remote.value
      ensures r.Done? ==> AtCursor(r.value) && r.value.number == Max(start.number, confirmedHead)
      ensures r.Stopped? && r.failure.race ==> remote.None?
      ensures r.Stopped? ==> (r.failure.race <==> IsRace(r.failure.error))
      ensures old(chain) <= chain && |chain| <= Max(|old(chain)|, confirmedHead - Base() + 1)
      ensures Generation() == old(Generation())
      ensures r.Done? ==> logsCommitted == |store.db.outbox| - |old(store.db.outbox)|
      ensures remote.Some? && LogsAnswered(rpc.answers) && Indexable(w, registry, Base(), remote.value, confirmedHead)
              ==> r.Done?
    {
      hide Good, Indexable, LogsAnswered, HashesTell, ValidWorld, Linked, StillFrom, IsRace;
      logsCommitted := 0;
      var cursor := start;
      var nextBlock := cursor.number + 1;
      while nextBlock <= confirmedHead
        invariant Given(w, remote) && Sound(w, remote, past) && old(store.db.outbox) <= store.db.outbox
        invariant remote.Some? ==> chain <= remote.value
        invariant AtCursor(cursor) && cursor.number + 1 == nextBlock && start.number <= cursor.number
        invariant nextBlock <= Max(start.number, confirmedHead) + 1
        invariant old(chain) <= chain && |chain| <= Max(|old(chain)|, confirmedHead - Base() + 1)
        invariant Generation() == old(Generation()) && logsCommitted == |store.db.outbox| - |old(store.db.outbox)|
        decreases confirmedHead + 1 - nextBlock
      {
        var chunkEnd := Min(confirmedHead, nextBlock + chunkSize - 1);
        if remote.Some? && Indexable(w, registry, Base(), remote.value, confirmedHead) {
          IndexableBelow(w, registry, Base(), remote.value, confirmedHead, chunkEnd);
        }
        var indexed, logs := IndexChunk(cursor, nextBlock, chunkEnd, observedHead, w, remote, past);
        if indexed.Stopped? {
          return Stopped(indexed.failure), logsCommitted;
        }
        cursor := indexed.value;
        logsCommitted := logsCommitted + logs;
        nextBlock := chunkEnd + 1;
      }
      return Done(cursor), logsCommitted;
    }

    /** The head that is old enough to be indexed. */
    function ConfirmedHead(observedHead: nat): (confirmed: nat)
      ensures if observedHead >= confirmationDepth then confirmed + confirmationDepth == observedHead else confirmed == 0
    {
      if observedHead > confirmationDepth then observedHead - confirmationDepth else 0
    }

    /** The node has not lost more of the store's chain than may be rolled back. */
    ghost predicate WithinReach(stored: seq<Hash>, remote: seq<Hash>)
      requires ValidRegistry(registry)
    {
      && remote != [] && |stored| <= |remote|
      && (stored != [] ==> AgreeAt(stored, remote, Oldest(Base() + |stored| - 1) - Base()))
    }

    /** Opens the cursor and makes sure that its block is the node's. */
    method CanonicalStart(observedHead: nat, ghost w: World, ghost remote: StillChain, ghost past: History)
      returns (r: Attempt<Cursor>, reorgs: nat)
      requires Given(w, remote) && Sound(w, remote, past)
      modifies `chain, rpc`calls, store
      ensures Given(w, remote) && Sound(w, remote, past) && old(store.db.outbox) <= store.db.outbox
      ensures r.Done? ==> AtCursor(r.value) && Base() <= r.value.number && (remote.Some? ==> chain <= remote.value)
      ensures r.Done? ==> reorgs == Generation() - old(Generation())
      ensures chain <= old(chain) || (old(chain) == [] && |chain| == 1)
      ensures r.Stopped? ==> !r.failure.race && !IsRace(r.failure.error)
      ensures remote.Some? && WithinReach(old(chain), remote.value) ==> r.Done?
    {
      hide Good, HashesTell, ValidWorld, Linked, StillFrom, AgreeAt, IsRace;
      reorgs := 0;
      CursorIffChain(w, Base(), chain, store.db, registry, remote, past);
      if store.db.cursor.Some? {
        TipOfGood(w, registry, Base(), chain, store.db, remote, past);
      }
      var started := OpenCursor(observedHead, w, remote, past);
      if started.Stopped? {
        return Stopped(started.failure), reorgs;
      }
      TipOfGood(w, registry, Base(), chain, store.db, remote, past);
      if remote.Some? && remote.value != [] && old(chain) == [] {
        AgreesWithItself(chain, remote.value);
      }
      var canonical := EnsureCanonicalCursor(started.value, w, remote, past);
      if canonical.Stopped? {
        return Stopped(canonical.failure), reorgs;
      }
      TipOfGood(w, registry, Base(), chain, store.db, remote, past);
      assert remote.Some? ==> chain == remote.value[..|chain|];
      if canonical.value.generation != started.value.generation {
        reorgs := 1;
      }
      return Done(canonical.value), reorgs;
    }

    /** The height of the store's tip, or of the block that it will start from. */
    function Height(): nat
      requires ValidRegistry(registry)
      reads store
    {
      if store.db.cursor.Some? then store.db.cursor.value.number else Base()
    }

    /** No canonical block lies above the tip. */
    lemma TipIsHighest(w: World, remote: StillChain, past: History, limit: int)
      requires Given(w, remote) && Sound(w, remote, past) && Base() + |chain| - 1 <= limit
      ensures forall h: Hash, n: nat :: CanonicalAt(store.db, h, n) ==> n <= limit
    {
      hide HashesTell, ValidWorld, Linked, StillFrom, Complete, JournalComplete, Tables;
      CursorIffChain(w, Base(), chain, store.db, registry, remote, past);
      if chain != [] {
        hide Good;
        GoodBlocks(w, registry, Base(), chain, store.db, remote, past);
      }
    }

    /** Finds the block that store and node share, and indexes from there up to the confirmed head. */
    method ReachHead(observedHead: nat, confirmedHead: nat, ghost w: World, ghost remote: StillChain, ghost past: History)
      returns (r: Attempt<Cursor>, blocksCommitted: nat, logsCommitted: nat, reorgs: nat)
      requires Given(w, remote) && Sound(w, remote, past)
      modifies `chain, rpc`calls, store
      ensures Given(w, remote) && Sound(w, remote, past) && old(store.db.outbox) <= store.db.outbox
      ensures r.Stopped? && r.failure.race ==> remote.None?
      ensures r.Stopped? ==> (r.failure.race <==> IsRace(r.failure.error))
      ensures r.Done? ==> AtCursor(r.value) && r.value.number >= confirmedHead && (remote.Some? ==> chain <= remote.value)
      ensures r.Done? ==> ExtendsBy(old(chain), chain, blocksCommitted) && reorgs == Generation() - old(Generation())
      ensures Base() + |chain| - 1 <= Max(old(Height()), confirmedHead)
      ensures remote.Some? && LogsAnswered(rpc.answers) && WithinReach(old(chain), remote.value)
              && Indexable(w, registry, Base(), remote.value, confirmedHead)
              ==> r.Done?
    {
      hide ExtendsBy, Indexable, LogsAnswered, WithinReach, Good, HashesTell, ValidWorld, Linked, StillFrom, IsRace;
      blocksCommitted, logsCommitted := 0, 0;
      CursorIffChain(w, Base(), chain, store.db, registry, remote, past);
      if chain != [] {
        TipOfGood(w, registry, Base(), chain, store.db, remote, past);
      }
      r, reorgs := CanonicalStart(observedHead, w, remote, past);
      if r.Stopped? {
        return;
      }
      TipOfGood(w, registry, Base(), chain, store.db, remote, past);
      var start := r.value.number;
      ghost var kept := chain;
      r, logsCommitted := CatchUp(r.value, confirmedHead, observedHead, w, remote, past);
      if r.Done? {
        TipOfGood(w, registry, Base(), chain, store.db, remote, past);
        blocksCommitted := r.value.number - start;
        ExtendedBy(old(chain), kept, chain, blocksCommitted);
      }
    }

    /** One attempt to bring the store up to the node's confirmed head. Whatever the node answers, the store stays
        sound and no attempt on a still node looks like a race; an attempt that succeeds on a still node leaves the
        store showing what a fresh index of the node's chain, up to the cursor, shows. On a still node that answers and
        has not lost too much, the blocks catch up with the confirmed head whenever a fresh index would. */
    method SyncAttempt(ghost w: World, ghost remote: StillChain, ghost past: History) returns (r: Attempt<SyncResult>)
      requires Given(w, remote) && Sound(w, remote, past)
      modifies `chain, rpc`calls, store
      ensures Given(w, remote) && Sound(w, remote, past) && old(store.db.outbox) <= store.db.outbox
      ensures r.Stopped? && r.failure.race ==> remote.None?
      ensures r.Stopped? ==> (r.failure.race <==> IsRace(r.failure.error))
      ensures r.Done? ==> store.db.cursor.Some?
                          && store.db.cursor.value.number == r.value.indexedThrough >= r.value.confirmedHead
      ensures r.Done? ==> r.value.observedHead == rpc.answers(old(rpc.calls)).head
                          && r.value.confirmedHead == ConfirmedHead(r.value.observedHead)
      ensures r.Done? ==> if r.value.observedHead >= confirmationDepth
                          then r.value.confirmedHead + confirmationDepth == r.value.observedHead
                          else r.value.confirmedHead == 0
      ensures forall h: Hash, n: nat :: CanonicalAt(store.db, h, n)
                ==> n <= Max(old(Height()), rpc.answers(old(rpc.calls)).head - confirmationDepth)
      ensures r.Done? ==> ExtendsBy(old(chain), chain, r.value.blocksCommitted)
                          && r.value.reorgs == Generation() - old(Generation())
      ensures r.Done? ==> AllTracked(store.db, r.value.confirmedHead)
                          && forall a :: !Pending(store.db, r.value.confirmedHead, a)
      ensures r.Done? && remote.Some? ==> MatchesFreshIndex(w, remote.value, past.Some?)
      ensures remote.Some? && LogsAnswered(rpc.answers) && WithinReach(old(chain), remote.value)
              && Indexable(w, registry, Base(), remote.value, ConfirmedHead(rpc.answers(old(rpc.calls)).head))
              ==> && store.db.cursor.Some? && store.db.cursor.value.number >= ConfirmedHead(rpc.answers(old(rpc.calls)).head)
                  && (TransactionsOnce(w, remote.value)
                      ==> (r.Done? <==> NothingBlocked(w, chain, store.db, ConfirmedHead(rpc.answers(old(rpc.calls)).head))))
    {
      hide TransactionsOnce, NothingBlocked, CanonicalAt, AllTracked, ConfirmedHead, ExtendsBy, IsRace;
      hide Indexable, LogsAnswered, WithinReach, Good, HashesTell, ValidWorld, Linked, StillFrom, MatchesFreshIndex;
      ghost var limit := Max(Height(), rpc.answers(rpc.calls).head - confirmationDepth);
      var observedHead := rpc.GetBlockNumber();
      StillLater(w, Base(), remote, rpc.answers, rpc.calls - 1);
      var confirmedHead := ConfirmedHead(observedHead);
      var cursor, blocksCommitted, logsCommitted, reorgs := ReachHead(observedHead, confirmedHead, w, remote, past);
      TipIsHighest(w, remote, past, limit);
      if cursor.Stopped? {
        return Stopped(cursor.failure);
      }
      if remote.Some? && TransactionsOnce(w, remote.value) {
        OnceInPrefix(w, chain, remote.value);
      }
      var filled := SyncPancakeV3PoolBackfills(confirmedHead, w, remote, past);
      TipIsHighest(w, remote, past, limit);
      if filled.Stopped? {
        return Stopped(filled.failure);
      }
      SoundMatchesFreshIndex(w, remote, past);
      return Done(SyncResult(observedHead, confirmedHead, cursor.value.number, blocksCommitted,
                             logsCommitted + filled.value, reorgs));
    }

    /** The store's blocks are the node's up to the cursor, and it shows what a fresh index of those blocks shows. */
    ghost predicate MatchesFreshIndex(w: World, remote: seq<Hash>, trades: bool)
      requires ValidRegistry(registry)
      reads this, store
    {
      && chain != [] && chain <= remote
      && (forall h: Hash, n: nat ::
            CanonicalAt(store.db, h, n) <==> Base() <= n < Base() + |chain| && h == remote[n - Base()])
      && FreshIndex(w, registry, remote[..|chain|]).Ok?
      && CanonicalView(registry, store.db) == CanonicalView(registry, FreshIndex(w, registry, remote[..|chain|]).value)
      && (trades ==> JournalComplete(w, remote[..|chain|], store.db))
    }

    lemma SoundMatchesFreshIndex(w: World, remote: StillChain, past: History)
      requires Given(w, remote) && Sound(w, remote, past) && store.db.cursor.Some?
      requires remote.Some? ==> chain <= remote.value
      ensures remote.Some? ==> MatchesFreshIndex(w, remote.value, past.Some?)
    {
      hide Good, HashesTell, ValidWorld, Linked, StillFrom, FreshIndex, CanonicalView, JournalComplete, CanonicalAt;
      TipOfGood(w, registry, Base(), chain, store.db, remote, past);
      if remote.Some? {
        GoodShowsFreshIndex(w, registry, Base(), chain, store.db, remote, past);
        GoodBlocks(w, registry, Base(), chain, store.db, remote, past);
        assert remote.value[..|chain|] == chain;
      }
    }

    /** Tries again, at most twice, when the chain moved during an attempt. */
    method Sync(ghost w: World, ghost remote: StillChain, ghost past: History)
      returns (r: Attempt<SyncResult>, ghost attempts: nat)
      requires Given(w, remote) && Sound(w, remote, past)
      modifies `chain, rpc`calls, store
      ensures Given(w, remote) && Sound(w, remote, past) && old(store.db.outbox) <= store.db.outbox
      ensures r.Done? ==> store.db.cursor.Some?
                          && store.db.cursor.value.number == r.value.indexedThrough >= r.value.confirmedHead
      ensures r.Done? && remote.Some? ==> MatchesFreshIndex(w, remote.value, past.Some?)
      ensures r.Done? ==> if r.value.observedHead >= confirmationDepth
                          then r.value.confirmedHead + confirmationDepth == r.value.observedHead
                          else r.value.confirmedHead == 0
      ensures 1 <= attempts <= 3 && (r.Stopped? && IsRace(r.failure.error) ==> attempts == 3)
      ensures remote.Some? ==> attempts == 1
    {
      hide Good, HashesTell, ValidWorld, Linked, StillFrom, MatchesFreshIndex, IsRace;
      attempts := 0;
      r := Stopped(Failure("not_attempted", false));
      var attempt := 0;
      while attempt < 3
        invariant Given(w, remote) && Sound(w, remote, past) && old(store.db.outbox) <= store.db.outbox
        invariant r.Stopped? && attempts == attempt && (remote.Some? ==> attempts == 0)
        decreases 3 - attempt
      {
        r := SyncAttempt(w, remote, past);
        attempts := attempts + 1;
        if r.Done? || !r.failure.race || attempt == 2 {
          return r, attempts;
        }
        attempt := attempt + 1;
      }
    }

    /** The store shows exactly what its chain shows. */
    ghost predicate Faithful(w: World)
      requires ValidRegistry(registry)
      reads this, store
    {
      Inv(w, Base(), chain, store.db) && Complete(w, registry, chain, store.db)
    }

    /** Polls a node whose chain changes in any way from one poll to the next but holds still during each. After a poll
        that succeeds the store matches a fresh index of the chain the node has then, whatever it had before; so do its
        trades, if it started empty and no hash that left the node's chain has come back. */
    method FollowNode(ghost w: World, polls: seq<nat -> Node>, ghost remotes: seq<seq<Hash>>, ghost trades: bool)
      returns (r: Attempt<SyncResult>)
      requires Configured() && ValidWorld(w) && |polls| == |remotes| > 0
      requires forall k :: 0 <= k < |polls| ==> HashesTell(w, polls[k]) && Linked(w, Base(), remotes[k])
                                                && StillFrom(w, Base(), remotes[k], polls[k], 0)
      requires Faithful(w) && (trades ==> store.db == EMPTY_DB && chain == [] && NeverReturns(remotes))
      modifies `chain, rpc, store
      ensures Faithful(w) && old(store.db.outbox) <= store.db.outbox
      ensures r.Done? ==> MatchesFreshIndex(w, remotes[|remotes| - 1], trades)
    {
      hide HashesTell, ValidWorld, Linked, StillFrom, MatchesFreshIndex, Inv, Complete, JournalComplete;
      hide NothingReturns, ComesFrom, Past, NeverReturns, OrphansLeft, Seen;
      r := Stopped(Failure("not_polled", false));
      if trades {
        NothingYet(w, chain, store.db);
      }
      for k := 0 to |polls|
        invariant Faithful(w) && old(store.db.outbox) <= store.db.outbox
        invariant trades ==> JournalComplete(w, chain, store.db)
        invariant trades ==> OrphansLeft(store.db, remotes[..k]) && Seen(chain, remotes[..k])
        invariant k > 0 && r.Done? ==> MatchesFreshIndex(w, remotes[k - 1], trades)
        invariant k == 0 ==> r.Stopped?
      {
        rpc.Moves(polls[k]);
        StillFromNow(w, Base(), remotes[k], polls[k], rpc.calls);
        ghost var past := if trades then Some(Past(remotes[..k])) else None;
        if trades {
          BeforePoll(chain, store.db, remotes, k);
        }
        ghost var attempts;
        r, attempts := Sync(w, Some(remotes[k]), past);
        if trades {
          AfterPoll(chain, store.db, remotes, k);
        }
      }
    }
  }
}

/** Blocks, logs and the contract registry, and the chains that hashes link together. */
module ChainData {
  import opened Outcomes
  import opened PancakeTrades

  /** A thirty-two-byte hash, as the number its lower-case hexadecimal text writes. */
  type Hash = nat
  type Topic = nat

  const SWAP_TOPIC: Topic := 0xc42079f94a6350d7e6235f29174924f928cc2ac818eb64fed8004e115fbcca67

  datatype Block = Block(number: nat, hash: Hash, parentHash: Hash)

  /** The arguments of a launch that the market table keeps; `valid` when every argument passes its checks. */
  datatype Launch = Launch(
    launchId: nat, engineKind: nat, token: Address, quoteToken: Address, pool: Address, recordId: Hash, valid: bool)

  /** A decoded event: the kinds that the store treats in their own way, and the others. */
  datatype Event =
    | MarketLaunched(launch: Launch)
    | PriceAttested(digest: Hash, valid: bool)
    | DirectMarketLaunched(launchId: nat, valid: bool)
    | Swap(sender: Address, recipient: Address, amount0: int, amount1: int)
    | OtherEvent(payload: nat)

  datatype Log = Log(
    address: Address, blockHash: Hash, blockNumber: nat, txHash: Hash, txIndex: nat, logIndex: nat,
    topic0: Option<Topic>, event: Event, removed: bool)

  /** The key under which the raw log, fact and trade tables keep what a log says. */
  datatype LogKey = LogKey(blockHash: Hash, txHash: Hash, logIndex: nat)

  function KeyOf(log: Log): LogKey {
    LogKey(log.blockHash, log.txHash, log.logIndex)
  }

  // ---------------------------------------------------------------------------
  // The registry of contracts
  // ---------------------------------------------------------------------------

  datatype RegistryEntry = RegistryEntry(address: Address, startBlock: nat, topics: set<Topic>)

  type Registry = seq<RegistryEntry>

  /** The entries are non-empty, start after block zero and do not repeat an address at one start. */
  predicate ValidRegistry(registry: Registry) {
    && |registry| > 0
    && (forall i :: 0 <= i < |registry| ==> registry[i].startBlock >= 1)
    && (forall i, j :: 0 <= i < j < |registry| && registry[i].address == registry[j].address
                       ==> registry[i].startBlock != registry[j].startBlock)
  }

  function FirstStartBlock(registry: Registry): (start: nat)
    requires |registry| > 0
    ensures forall i :: 0 <= i < |registry| ==> start <= registry[i].startBlock
    ensures exists i :: 0 <= i < |registry| && start == registry[i].startBlock
  {
    if |registry| == 1 then
      registry[0].startBlock
    else
      var last := |registry| - 1;
      var start := FirstStartBlock(registry[..last]);
      if registry[last].startBlock < start then registry[last].startBlock else
        assert registry[..last][0] == registry[0];
        start
  }

  predicate Applies(entry: RegistryEntry, address: Address, number: nat) {
    entry.address == address && entry.startBlock <= number
  }

  /** The version of the contract at `address` that rules at block `number`: the last one that has started. */
  function ActiveEntry(registry: Registry, address: Address, number: nat): (active: Option<RegistryEntry>)
    ensures active.None? <==> forall i :: 0 <= i < |registry| ==> !Applies(registry[i], address, number)
    ensures active.Some? ==> active.value in registry && Applies(active.value, address, number)
    ensures active.Some? ==> forall i :: 0 <= i < |registry| && Applies(registry[i], address, number)
                                         ==> registry[i].startBlock <= active.value.startBlock
  {
    if registry == [] then
      None
    else
      var last := registry[|registry| - 1];
      var before := ActiveEntry(registry[..|registry| - 1], address, number);
      if Applies(last, address, number) && (before.None? || last.startBlock > before.value.startBlock) then
        assert forall i :: 0 <= i < |registry| - 1 ==> registry[..|registry| - 1][i] == registry[i];
        Some(last)
      else
        assert forall i :: 0 <= i < |registry| - 1 ==> registry[..|registry| - 1][i] == registry[i];
        before
  }

  /** The registry follows this log: its contract's version at the log's block declares its event. */
  predicate Registered(registry: Registry, log: Log) {
    var active := ActiveEntry(registry, log.address, log.blockNumber);
    log.topic0.Some? && active.Some? && log.topic0.value in active.value.topics
  }

  predicate PoolSwap(log: Log, pools: set<Address>) {
    log.address in pools && log.topic0 == Some(SWAP_TOPIC)
  }

  predicate Tracked(registry: Registry, pools: set<Address>, log: Log) {
    Registered(registry, log) || PoolSwap(log, pools)
  }

  /** The last version of the log's contract that has started by its block. */
  predicate Rules(registry: Registry, i: nat, log: Log)
    requires i < |registry|
  {
    && registry[i].address == log.address && registry[i].startBlock <= log.blockNumber
    && forall j :: 0 <= j < |registry| && registry[j].address == log.address && registry[j].startBlock <= log.blockNumber
                   ==> registry[j].startBlock <= registry[i].startBlock
  }

  /** A log is tracked exactly when the ruling version of its contract declares its topic, or it is a pool's swap. */
  lemma TrackedExactly(registry: Registry, pools: set<Address>, log: Log)
    requires ValidRegistry(registry)
    ensures Tracked(registry, pools, log)
            <==> log.topic0.Some?
                 && ((exists i :: 0 <= i < |registry| && Rules(registry, i, log) && log.topic0.value in registry[i].topics)
                     || (log.address in pools
                         && log.topic0.value == 0xc42079f94a6350d7e6235f29174924f928cc2ac818eb64fed8004e115fbcca67))
  {
    var active := ActiveEntry(registry, log.address, log.blockNumber);
    forall i | 0 <= i < |registry| && Rules(registry, i, log) ensures active == Some(registry[i]) {
      OneRules(registry, i, log);
    }
    if active.Some? {
      var i :| 0 <= i < |registry| && registry[i] == active.value;
      ActiveRules(registry, i, log);
    }
  }

  lemma OneRules(registry: Registry, i: nat, log: Log)
    requires ValidRegistry(registry) && i < |registry| && Rules(registry, i, log)
    ensures ActiveEntry(registry, log.address, log.blockNumber) == Some(registry[i])
  {
    assert Applies(registry[i], log.address, log.blockNumber);
    var active := ActiveEntry(registry, log.address, log.blockNumber);
    assert forall j :: 0 <= j < |registry| && registry[j] == active.value ==> j == i;
  }

  lemma ActiveRules(registry: Registry, i: nat, log: Log)
    requires i < |registry| && ActiveEntry(registry, log.address, log.blockNumber) == Some(registry[i])
    ensures Rules(registry, i, log)
  {
    forall j | 0 <= j < |registry| && registry[j].address == log.address && registry[j].startBlock <= log.blockNumber
      ensures registry[j].startBlock <= registry[i].startBlock
    {
      assert Applies(registry[j], log.address, log.blockNumber);
    }
  }

  /** What `eth_getLogs` is asked for. */
  datatype Filter = Filter(fromBlock: nat, toBlock: nat, addresses: set<Address>, topics: set<Topic>)

  predicate Matches(filter: Filter, log: Log) {
    && filter.fromBlock <= log.blockNumber <= filter.toBlock
    && log.address in filter.addresses
    && log.topic0.Some? && log.topic0.value in filter.topics
  }

  function RegistryFilter(registry: Registry, fromBlock: nat, toBlock: nat): Filter {
    Filter(fromBlock, toBlock,
           set i | 0 <= i < |registry| :: registry[i].address,
           set i, topic | 0 <= i < |registry| && topic in registry[i].topics :: topic)
  }

  function PoolFilter(pool: Address, fromBlock: nat, toBlock: nat): Filter {
    Filter(fromBlock, toBlock, {pool}, {SWAP_TOPIC})
  }

  /** Asking the node only for registered addresses and topics loses no registered log. */
  lemma RegistryFilterLosesNothing(registry: Registry, log: Log, fromBlock: nat, toBlock: nat)
    requires fromBlock <= log.blockNumber <= toBlock && Registered(registry, log)
    ensures Matches(RegistryFilter(registry, fromBlock, toBlock), log)
  {
    var active := ActiveEntry(registry, log.address, log.blockNumber).value;
    var i :| 0 <= i < |registry| && registry[i] == active;
    assert registry[i].address == log.address;
  }

  // ---------------------------------------------------------------------------
  // The order of logs
  // ---------------------------------------------------------------------------

  /** Block number, then transaction index, then log index, then transaction hash. */
  function CompareLogs(left: Log, right: Log): int {
    if left.blockNumber != right.blockNumber then (if left.blockNumber < right.blockNumber then -1 else 1)
    else if left.txIndex != right.txIndex then left.txIndex - right.txIndex
    else if left.logIndex != right.logIndex then left.logIndex - right.logIndex
    else if left.txHash == right.txHash then 0
    else if left.txHash < right.txHash then -1 else 1
  }

  /** Blocks first; within a block transactions as they stand in it; within a transaction index log indices; and last the
      transaction hashes. */
  predicate ComesBefore(a: Log, b: Log) {
    && a.blockNumber <= b.blockNumber
    && (a.blockNumber == b.blockNumber ==> a.txIndex <= b.txIndex)
    && (a.blockNumber == b.blockNumber && a.txIndex == b.txIndex ==> a.logIndex <= b.logIndex)
    && (a.blockNumber == b.blockNumber && a.txIndex == b.txIndex && a.logIndex == b.logIndex ==> a.txHash < b.txHash)
  }

  lemma CompareIsLexicographic(a: Log, b: Log)
    ensures CompareLogs(a, b) < 0 <==> ComesBefore(a, b)
    ensures CompareLogs(a, b) == 0 <==> !ComesBefore(a, b) && !ComesBefore(b, a)
  {
  }

  lemma OrderedIsInOrder(logs: seq<Log>)
    requires StrictlyOrdered(logs)
    ensures forall i, j :: 0 <= i < j < |logs| ==> ComesBefore(logs[i], logs[j])
  {
    hide CompareLogs, ComesBefore;
    forall i, j | 0 <= i < j < |logs| ensures ComesBefore(logs[i], logs[j]) {
      CompareIsLexicographic(logs[i], logs[j]);
    }
  }

  ghost predicate StrictlyOrdered(logs: seq<Log>) {
    forall i, j :: 0 <= i < j < |logs| ==> CompareLogs(logs[i], logs[j]) < 0
  }

  lemma CompareIsTotalOrder(a: Log, b: Log, c: Log)
    ensures CompareLogs(a, b) < 0 <==> CompareLogs(b, a) > 0
    ensures CompareLogs(a, b) <= 0 && CompareLogs(b, c) <= 0 ==> CompareLogs(a, c) <= 0
    ensures CompareLogs(a, b) == 0 ==>
              a.blockNumber == b.blockNumber && a.txIndex == b.txIndex && a.logIndex == b.logIndex && a.txHash == b.txHash
  {
  }

  lemma LastIsGreatest(logs: seq<Log>, log: Log)
    requires StrictlyOrdered(logs) && log in logs
    ensures log == logs[|logs| - 1] || CompareLogs(log, logs[|logs| - 1]) < 0
  {
    var i :| 0 <= i < |logs| && logs[i] == log;
  }

  lemma OrderedPrefix(logs: seq<Log>, n: nat)
    requires StrictlyOrdered(logs) && n <= |logs|
    ensures StrictlyOrdered(logs[..n])
  {
    hide CompareLogs;
  }

  lemma LastIsOnce(logs: seq<Log>)
    requires StrictlyOrdered(logs) && logs != []
    ensures logs[|logs| - 1] !in logs[..|logs| - 1]
  {
    var last := logs[|logs| - 1];
    if i :| 0 <= i < |logs| - 1 && logs[i] == last {
      CompareIsTotalOrder(logs[i], last, last);
    }
  }

  lemma BothOrNeither(left: seq<Log>, right: seq<Log>)
    requires forall log :: log in left <==> log in right
    ensures left == [] <==> right == []
    ensures left != [] ==> right[|right| - 1] in left && left[|left| - 1] in right
  {
    assert left != [] ==> left[0] in right && left[|left| - 1] in left;
    assert right != [] ==> right[0] in left && right[|right| - 1] in right;
  }

  /** A strictly ordered sequence is determined by which logs it holds. */
  lemma {:induction false} OrderedUnique(left: seq<Log>, right: seq<Log>)
    requires StrictlyOrdered(left) && StrictlyOrdered(right)
    requires forall log :: log in left <==> log in right
    ensures left == right
  {
    BothOrNeither(left, right);
    if left != [] {
      hide CompareLogs, StrictlyOrdered;
      var x, y := left[|left| - 1], right[|right| - 1];
      LastIsGreatest(left, y);
      LastIsGreatest(right, x);
      CompareIsTotalOrder(x, y, x);
      var l, r := left[..|left| - 1], right[..|right| - 1];
      assert left == l + [x] && right == r + [y];
      OrderedPrefix(left, |left| - 1);
      OrderedPrefix(right, |right| - 1);
      SameWithoutLast(l, r, x);
      OrderedUnique(l, r);
    }
  }

  lemma SameWithoutLast(l: seq<Log>, r: seq<Log>, x: Log)
    requires StrictlyOrdered(l + [x]) && StrictlyOrdered(r + [x])
    requires forall log :: log in l + [x] <==> log in r + [x]
    ensures forall log :: log in l <==> log in r
  {
    hide CompareLogs;
    LastIsOnce(l + [x]);
    LastIsOnce(r + [x]);
    assert (l + [x])[..|l|] == l && (r + [x])[..|r|] == r;
    forall log ensures log in l <==> log in r {
      assert log in l + [x] <==> log in l || log == x;
      assert log in r + [x] <==> log in r || log == x;
    }
  }

  // ---------------------------------------------------------------------------
  // Chains
  // ---------------------------------------------------------------------------

  /** What hashes determine: the block that has a hash, and the logs that block holds. */
  datatype World = World(blockOf: Hash -> Block, logsOf: Hash -> seq<Log>)

  ghost predicate BelongsTo(w: World, log: Log, h: Hash) {
    log.blockHash == h && log.blockNumber == w.blockOf(h).number && !log.removed
  }

  ghost predicate ValidWorld(w: World) {
    && (forall h :: w.blockOf(h).hash == h)
    && (forall h, i :: 0 <= i < |w.logsOf(h)| ==> BelongsTo(w, w.logsOf(h)[i], h))
    && (forall h, i, j :: 0 <= i < j < |w.logsOf(h)| ==> KeyOf(w.logsOf(h)[i]) != KeyOf(w.logsOf(h)[j]))
    && (forall h :: StrictlyOrdered(w.logsOf(h)))
  }

  /** `chain` runs from height `base` upwards, each block naming the one before as its parent. */
  ghost predicate Linked(w: World, base: nat, chain: seq<Hash>) {
    && (forall i :: 0 <= i < |chain| ==> w.blockOf(chain[i]).number == base + i)
    && (forall i :: 0 < i < |chain| ==> w.blockOf(chain[i]).parentHash == chain[i - 1])
  }

  /** Agreeing at one height is agreeing at every height below. */
  lemma {:induction false} HashLinking(w: World, base: nat, left: seq<Hash>, right: seq<Hash>, at: nat)
    requires Linked(w, base, left) && Linked(w, base, right)
    requires at < |left| && at < |right| && left[at] == right[at]
    ensures left[..at + 1] == right[..at + 1]
  {
    if at > 0 {
      HashLinking(w, base, left, right, at - 1);
      assert left[..at + 1] == left[..at] + [left[at]];
      assert right[..at + 1] == right[..at] + [right[at]];
    }
  }

  lemma LinkedPrefix(w: World, base: nat, chain: seq<Hash>, n: nat)
    requires Linked(w, base, chain) && n <= |chain|
    ensures Linked(w, base, chain[..n])
  {
  }
}

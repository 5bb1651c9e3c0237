/** Checking, ordering and grouping the logs that a node answers with. */
module LogValidation {
  import opened Outcomes
  import opened PancakeTrades
  import opened ChainData

  /** What makes two logs one: the node may repeat a log but not give its place to another. */
  datatype Identity = Identity(blockNumber: nat, txHash: Hash, logIndex: nat)

  function IdentityOf(log: Log): Identity {
    Identity(log.blockNumber, log.txHash, log.logIndex)
  }

  ghost predicate InRange(logs: seq<Log>, fromBlock: nat, toBlock: nat) {
    forall log :: log in logs ==> fromBlock <= log.blockNumber <= toBlock
  }

  ghost predicate NoConflict(logs: seq<Log>, registry: Registry, pools: set<Address>) {
    forall a, b | a in logs && b in logs && Tracked(registry, pools, a) && Tracked(registry, pools, b)
      :: IdentityOf(a) == IdentityOf(b) ==> a == b
  }

  ghost predicate Acceptable(logs: seq<Log>, fromBlock: nat, toBlock: nat, registry: Registry, pools: set<Address>) {
    && InRange(logs, fromBlock, toBlock)
    && (forall log :: log in logs ==> !log.removed)
    && NoConflict(logs, registry, pools)
  }

  // ---------------------------------------------------------------------------
  // Sorting
  // ---------------------------------------------------------------------------

  predicate Ordered(logs: seq<Log>) {
    forall i, j :: 0 <= i < j < |logs| ==> CompareLogs(logs[i], logs[j]) <= 0
  }

  function Insert(sorted: seq<Log>, log: Log): seq<Log> {
    if sorted == [] || CompareLogs(sorted[|sorted| - 1], log) <= 0 then
      sorted + [log]
    else
      Insert(sorted[..|sorted| - 1], log) + [sorted[|sorted| - 1]]
  }

  /** A stable sort by `CompareLogs`. */
  function Sort(logs: seq<Log>): seq<Log> {
    if logs == [] then [] else Insert(Sort(logs[..|logs| - 1]), logs[|logs| - 1])
  }

  predicate DistinctIdentities(logs: seq<Log>) {
    forall i, j :: 0 <= i < j < |logs| ==> IdentityOf(logs[i]) != IdentityOf(logs[j])
  }

  lemma {:induction false} InsertOrders(sorted: seq<Log>, log: Log)
    requires Ordered(sorted)
    ensures Ordered(Insert(sorted, log)) && |Insert(sorted, log)| == |sorted| + 1
    ensures multiset(Insert(sorted, log)) == multiset(sorted) + multiset{log}
  {
    hide CompareLogs;
    var r := Insert(sorted, log);
    if sorted != [] {
      var n := |sorted| - 1;
      var last := sorted[n];
      assert sorted == sorted[..n] + [last];
      CompareIsTotalOrder(last, log, last);
      if CompareLogs(last, log) <= 0 {
        forall i | 0 <= i <= n ensures CompareLogs(sorted[i], log) <= 0 {
          CompareIsTotalOrder(sorted[i], last, log);
        }
      } else {
        InsertOrders(sorted[..n], log);
        forall i | 0 <= i <= n ensures CompareLogs(r[i], last) <= 0 {
          assert r[i] in multiset(Insert(sorted[..n], log));
          assert r[i] == log || r[i] in sorted[..n];
        }
      }
    }
  }

  lemma {:induction false} SortOrders(logs: seq<Log>)
    ensures Ordered(Sort(logs)) && |Sort(logs)| == |logs|
    ensures multiset(Sort(logs)) == multiset(logs)
  {
    hide CompareLogs;
    if logs != [] {
      var n := |logs| - 1;
      SortOrders(logs[..n]);
      InsertOrders(Sort(logs[..n]), logs[n]);
      assert logs == logs[..n] + [logs[n]];
    }
  }

  /** In a sequence of distinct identities each log stands once. */
  lemma DistinctOnce(logs: seq<Log>, i: nat, j: nat)
    requires i < j < |logs| && IdentityOf(logs[i]) == IdentityOf(logs[j])
    requires forall a, b | a in logs && b in logs :: IdentityOf(a) == IdentityOf(b) ==> a == b
    ensures multiset(logs)[logs[i]] >= 2
  {
    assert logs[i] in logs && logs[j] in logs;
    assert logs == logs[..i] + [logs[i]] + logs[i + 1..j] + [logs[j]] + logs[j + 1..];
  }

  lemma {:induction false} DistinctCounts(logs: seq<Log>, log: Log)
    requires DistinctIdentities(logs)
    ensures multiset(logs)[log] <= 1
    ensures forall a, b | a in logs && b in logs :: IdentityOf(a) == IdentityOf(b) ==> a == b
  {
    if log in logs {
      var i :| 0 <= i < |logs| && logs[i] == log;
      assert logs == logs[..i] + [log] + logs[i + 1..];
      assert log !in logs[..i] && log !in logs[i + 1..];
    }
  }

  lemma {:induction false} SortedDistinct(logs: seq<Log>)
    requires DistinctIdentities(logs)
    ensures StrictlyOrdered(Sort(logs)) && DistinctIdentities(Sort(logs))
    ensures forall log :: log in Sort(logs) <==> log in logs
  {
    hide CompareLogs, Sort, Ordered, StrictlyOrdered;
    var r := Sort(logs);
    SortOrders(logs);
    forall log ensures log in r <==> log in logs {
      assert log in multiset(r) <==> log in multiset(logs);
    }
    forall i, j | 0 <= i < j < |r| ensures IdentityOf(r[i]) != IdentityOf(r[j]) {
      DistinctCounts(logs, r[i]);
      if IdentityOf(r[i]) == IdentityOf(r[j]) {
        DistinctOnce(r, i, j);
      }
    }
    OrderedDistinctIsStrict(r);
  }

  lemma OrderedDistinctIsStrict(logs: seq<Log>)
    requires Ordered(logs) && DistinctIdentities(logs)
    ensures StrictlyOrdered(logs)
  {
    hide CompareLogs;
    forall i, j | 0 <= i < j < |logs| ensures CompareLogs(logs[i], logs[j]) < 0 {
      CompareIsTotalOrder(logs[i], logs[j], logs[i]);
    }
  }

  // ---------------------------------------------------------------------------
  // Validation
  // ---------------------------------------------------------------------------

  /** The result is what the response says, whatever order it says it in and however often: see `OrderedUnique`. */
  method ValidateAndDecodeLogs(
    registry: Registry, rawLogs: seq<Log>, fromBlock: nat, toBlock: nat, pools: set<Address>)
    returns (r: Outcome<seq<Log>>)
    ensures r.Ok? <==> Acceptable(rawLogs, fromBlock, toBlock, registry, pools)
    ensures r.Ok? <==>
              && (forall log :: log in rawLogs ==> fromBlock <= log.blockNumber <= toBlock && !log.removed)
              && (forall a, b | a in rawLogs && b in rawLogs && Tracked(registry, pools, a) && Tracked(registry, pools, b)
                    :: a.blockNumber == b.blockNumber && a.txHash == b.txHash && a.logIndex == b.logIndex ==> a == b)
    ensures r.Fail? && r.error == "removed_log_from_http_proof" ==> exists log :: log in rawLogs && log.removed
    ensures r.Fail? && r.error != "removed_log_from_http_proof"
            ==> r.error == "rpc_log_outside_requested_range" || r.error == "rpc_log_identity_conflict"
    ensures r.Ok? ==> StrictlyOrdered(r.value) && DistinctIdentities(r.value)
    ensures r.Ok? ==> forall i, j :: 0 <= i < j < |r.value| ==> ComesBefore(r.value[i], r.value[j])
    ensures r.Ok? ==> forall log :: log in r.value <==> log in rawLogs && Tracked(registry, pools, log)
  {
    var unique: map<Identity, Log> := map[];
    var values: seq<Log> := [];
    for i := 0 to |rawLogs|
      invariant Acceptable(rawLogs[..i], fromBlock, toBlock, registry, pools)
      invariant forall key :: key in unique ==> unique[key] in values && IdentityOf(unique[key]) == key
      invariant forall log :: log in values ==> IdentityOf(log) in unique && unique[IdentityOf(log)] == log
      invariant forall log :: log in values <==> log in rawLogs[..i] && Tracked(registry, pools, log)
      invariant DistinctIdentities(values)
    {
      var log := rawLogs[i];
      assert log in rawLogs;
      assert rawLogs[..i + 1] == rawLogs[..i] + [log];
      if log.blockNumber < fromBlock || log.blockNumber > toBlock {
        return Fail("rpc_log_outside_requested_range");
      }
      if log.removed {
        return Fail("removed_log_from_http_proof");
      }
      if log.topic0.None? || !Tracked(registry, pools, log) {
        continue;
      }
      var key := IdentityOf(log);
      if key in unique && unique[key] != log {
        assert unique[key] in rawLogs[..i];
        assert unique[key] in rawLogs;
        return Fail("rpc_log_identity_conflict");
      }
      if key !in unique {
        unique := unique[key := log];
        values := values + [log];
      }
    }
    assert rawLogs[..|rawLogs|] == rawLogs;
    SortedDistinct(values);
    OrderedIsInOrder(Sort(values));
    return Ok(Sort(values));
  }

  /** Two responses that hold the same logs are accepted together and read as the same sequence. */
  lemma {:induction false} ResponseOrderAndRepetition(
    left: seq<Log>, right: seq<Log>, fromBlock: nat, toBlock: nat, registry: Registry, pools: set<Address>,
    l: seq<Log>, r: seq<Log>)
    requires forall log :: log in left <==> log in right
    requires StrictlyOrdered(l) && forall log :: log in l <==> log in left && Tracked(registry, pools, log)
    requires StrictlyOrdered(r) && forall log :: log in r <==> log in right && Tracked(registry, pools, log)
    ensures Acceptable(left, fromBlock, toBlock, registry, pools) <==> Acceptable(right, fromBlock, toBlock, registry, pools)
    ensures l == r
  {
    OrderedUnique(l, r);
  }

  // ---------------------------------------------------------------------------
  // Grouping
  // ---------------------------------------------------------------------------

  /** The logs of one block, in the order they have. */
  function AtBlock(logs: seq<Log>, number: nat): seq<Log> {
    if logs == [] then []
    else
      var last := logs[|logs| - 1];
      AtBlock(logs[..|logs| - 1], number) + if last.blockNumber == number then [last] else []
  }

  lemma {:induction false} AtBlockMembers(logs: seq<Log>, number: nat)
    ensures forall log :: log in AtBlock(logs, number) <==> log in logs && log.blockNumber == number
  {
    if logs != [] {
      var n := |logs| - 1;
      AtBlockMembers(logs[..n], number);
      assert logs == logs[..n] + [logs[n]];
    }
  }

  lemma {:induction false} AtBlockOrdered(logs: seq<Log>, number: nat)
    requires StrictlyOrdered(logs) && DistinctIdentities(logs)
    ensures StrictlyOrdered(AtBlock(logs, number)) && DistinctIdentities(AtBlock(logs, number))
  {
    hide CompareLogs;
    if logs != [] {
      var n := |logs| - 1;
      AtBlockOrdered(logs[..n], number);
      AtBlockMembers(logs[..n], number);
      var before := AtBlock(logs[..n], number);
      forall i | 0 <= i < |before|
        ensures CompareLogs(before[i], logs[n]) < 0 && IdentityOf(before[i]) != IdentityOf(logs[n])
      {
        assert before[i] in logs[..n];
      }
    }
  }

  method GroupLogsByBlock(logs: seq<Log>) returns (grouped: map<nat, seq<Log>>)
    ensures forall n :: n in grouped <==> AtBlock(logs, n) != []
    ensures forall n :: n in grouped ==> grouped[n] == AtBlock(logs, n)
  {
    hide CompareLogs;
    grouped := map[];
    for i := 0 to |logs|
      invariant forall n :: n in grouped <==> AtBlock(logs[..i], n) != []
      invariant forall n :: n in grouped ==> grouped[n] == AtBlock(logs[..i], n)
    {
      var number := logs[i].blockNumber;
      var entries := if number in grouped then grouped[number] else [];
      assert logs[..i + 1][..i] == logs[..i];
      grouped := grouped[number := entries + [logs[i]]];
    }
    assert logs[..|logs|] == logs;
  }

  /** Grouping keeps every log as often as it came, and only with its own block. */
  lemma {:induction false} GroupingKeepsEveryLog(logs: seq<Log>, log: Log, number: nat)
    ensures multiset(AtBlock(logs, number))[log] == if log.blockNumber == number then multiset(logs)[log] else 0
  {
    if logs != [] {
      var n := |logs| - 1;
      GroupingKeepsEveryLog(logs[..n], log, number);
      assert logs == logs[..n] + [logs[n]];
    }
  }

  // ---------------------------------------------------------------------------
  // The free-standing deduplication
  // ---------------------------------------------------------------------------

  /** The first log of each identity in the given order. */
  function FirstOfEach(logs: seq<Log>): seq<Log> {
    if logs == [] then []
    else
      var n := |logs| - 1;
      var before := FirstOfEach(logs[..n]);
      if exists log :: log in before && IdentityOf(log) == IdentityOf(logs[n]) then before else before + [logs[n]]
  }

  /** `kept` has a log of the same identity that comes no later. */
  ghost predicate Represented(log: Log, kept: seq<Log>) {
    exists k :: k in kept && IdentityOf(k) == IdentityOf(log) && CompareLogs(k, log) <= 0
  }

  lemma AppendFirst(before: seq<Log>, log: Log)
    requires Ordered(before) && DistinctIdentities(before)
    requires forall k :: k in before ==> CompareLogs(k, log) <= 0 && IdentityOf(k) != IdentityOf(log)
    ensures Ordered(before + [log]) && DistinctIdentities(before + [log])
  {
    hide CompareLogs, IdentityOf;
    assert forall i :: 0 <= i < |before| ==> before[i] in before;
  }

  lemma {:induction false} FirstOfEachIsOrdered(logs: seq<Log>)
    requires Ordered(logs)
    ensures Ordered(FirstOfEach(logs)) && DistinctIdentities(FirstOfEach(logs))
    ensures forall log :: log in FirstOfEach(logs) ==> log in logs
  {
    hide CompareLogs, IdentityOf, DistinctIdentities;
    if logs != [] {
      var n := |logs| - 1;
      FirstOfEachIsOrdered(logs[..n]);
      var before := FirstOfEach(logs[..n]);
      if !exists log :: log in before && IdentityOf(log) == IdentityOf(logs[n]) {
        forall k | k in before ensures CompareLogs(k, logs[n]) <= 0 && IdentityOf(k) != IdentityOf(logs[n]) {
          assert k in logs[..n];
        }
        hide Ordered;
        AppendFirst(before, logs[n]);
      }
    } else {
      assert DistinctIdentities([]) by {
        NothingIsDistinct();
      }
    }
  }

  lemma NothingIsDistinct()
    ensures DistinctIdentities([])
  {
  }

  lemma {:induction false} FirstOfEachKeepsLeast(logs: seq<Log>, log: Log)
    requires Ordered(logs) && log in logs
    ensures Represented(log, FirstOfEach(logs))
  {
    hide CompareLogs;
    var n := |logs| - 1;
    var before := FirstOfEach(logs[..n]);
    if log in logs[..n] {
      FirstOfEachKeepsLeast(logs[..n], log);
      var k :| k in before && IdentityOf(k) == IdentityOf(log) && CompareLogs(k, log) <= 0;
      assert k in FirstOfEach(logs);
    } else {
      assert log == logs[n];
      CompareIsTotalOrder(log, log, log);
      if k :| k in before && IdentityOf(k) == IdentityOf(log) {
        FirstOfEachIsOrdered(logs[..n]);
        assert k in logs[..n];
      }
    }
  }

  method DedupeLogs(logs: seq<Log>) returns (r: seq<Log>)
    ensures r == FirstOfEach(Sort(logs))
    ensures forall i, j :: 0 <= i < j < |r| ==> !ComesBefore(r[j], r[i]) && IdentityOf(r[i]) != IdentityOf(r[j])
  {
    var sorted := Sort(logs);
    var seen: set<Identity> := {};
    r := [];
    for i := 0 to |sorted|
      invariant r == FirstOfEach(sorted[..i])
      invariant forall key :: key in seen <==> exists log :: log in r && IdentityOf(log) == key
    {
      assert sorted[..i + 1][..i] == sorted[..i];
      if IdentityOf(sorted[i]) !in seen {
        seen := seen + {IdentityOf(sorted[i])};
        r := r + [sorted[i]];
      }
    }
    assert sorted[..|sorted|] == sorted;
    SortOrders(logs);
    FirstOfEachIsOrdered(sorted);
    forall i, j | 0 <= i < j < |r| ensures !ComesBefore(r[j], r[i]) {
      CompareIsLexicographic(r[j], r[i]);
      CompareIsTotalOrder(r[i], r[j], r[i]);
    }
  }
}

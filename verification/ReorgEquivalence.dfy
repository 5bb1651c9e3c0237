/** What the store shows after any honest history is what a fresh index of its chain shows. */
module ReorgEquivalence {
  import opened Outcomes
  import opened PancakeTrades
  import opened ChainData
  import opened Store
  import opened StoreInvariants
  import opened StoreRuns

  /** What readers of the canonical rows see: registered logs, facts and markets. */
  datatype View = View(logs: map<LogKey, Log>, facts: map<LogKey, Subject>, markets: map<MarketId, MarketRow>)

  const EMPTY_VIEW := View(map[], map[], map[])

  function Shown(rawLogs: map<LogKey, RawLogRow>, registry: Registry): map<LogKey, Log> {
    map k | k in rawLogs && rawLogs[k].canonical && Registered(registry, rawLogs[k].log) :: rawLogs[k].log
  }

  function ShownFacts(facts: map<LogKey, FactRow>): map<LogKey, Subject> {
    map k | k in facts && facts[k].canonical :: facts[k].subject
  }

  function CanonicalView(registry: Registry, db: Db): View {
    View(Shown(db.rawLogs, registry), ShownFacts(db.facts), db.markets)
  }

  // ---------------------------------------------------------------------------
  // Reading a chain from scratch
  // ---------------------------------------------------------------------------

  predicate SubjectTaken(facts: map<LogKey, Subject>, key: LogKey, subject: Subject) {
    exists other :: other in facts && other != key && facts[other] == subject
  }

  function ViewFact(view: View, log: Log, subject: Subject): Outcome<View> {
    if SubjectTaken(view.facts, KeyOf(log), subject) then Fail("one_canonical_fact")
    else Ok(view.(facts := view.facts[KeyOf(log) := subject]))
  }

  function ViewMarket(view: View, number: nat, log: Log): Outcome<View>
    requires log.event.MarketLaunched?
  {
    var launch := log.event.launch;
    if !ValidLaunch(launch) then Fail("invalid_QUOTEMarketLaunched")
    else if MarketIdOf(log) in view.markets then Ok(view)
    else if LaunchTaken(view.markets, launch) then Fail("markets_unique")
    else Ok(view.(markets := view.markets[MarketIdOf(log) := MarketRow(launch, number, log.txHash, log.logIndex)]))
  }

  function ViewEvent(view: View, number: nat, log: Log): Outcome<View> {
    match log.event
    case PriceAttested(digest, valid) =>
      if valid then ViewFact(view, log, Attestation(digest)) else Fail("invalid_QuotePriceAttestationConsumed")
    case DirectMarketLaunched(launchId, valid) =>
      if valid then ViewFact(view, log, DirectLaunch(log.address, launchId)) else Fail("invalid_DirectMarketLaunched")
    case MarketLaunched(_) => ViewMarket(view, number, log)
    case _ => Ok(view)
  }

  function ViewLog(view: View, number: nat, log: Log): Outcome<View> {
    ViewEvent(view.(logs := view.logs[KeyOf(log) := log]), number, log)
  }

  function ViewLogs(view: View, number: nat, logs: seq<Log>): Outcome<View> {
    if logs == [] then Ok(view)
    else
      var before :- ViewLogs(view, number, logs[..|logs| - 1]);
      ViewLog(before, number, logs[|logs| - 1])
  }

  function KeepRegistered(registry: Registry, logs: seq<Log>): seq<Log> {
    if logs == [] then []
    else
      var last := logs[|logs| - 1];
      KeepRegistered(registry, logs[..|logs| - 1]) + if Registered(registry, last) then [last] else []
  }

  /** The logs of a block that the registry follows, in their order. */
  function RegisteredLogs(w: World, registry: Registry, h: Hash): seq<Log> {
    KeepRegistered(registry, w.logsOf(h))
  }

  /** What a chain shows: its registered logs above the baseline, read in order, with nothing before them. */
  function ChainView(w: World, registry: Registry, chain: seq<Hash>): Outcome<View> {
    if |chain| <= 1 then Ok(EMPTY_VIEW)
    else
      var tip := chain[|chain| - 1];
      var before :- ChainView(w, registry, chain[..|chain| - 1]);
      ViewLogs(before, w.blockOf(tip).number, RegisteredLogs(w, registry, tip))
  }

  lemma {:induction false} KeepRegisteredMembers(registry: Registry, logs: seq<Log>)
    ensures forall log :: log in KeepRegistered(registry, logs) <==> log in logs && Registered(registry, log)
  {
    if logs != [] {
      var n := |logs| - 1;
      KeepRegisteredMembers(registry, logs[..n]);
      assert logs == logs[..n] + [logs[n]];
    }
  }

  lemma {:induction false} KeepRegisteredOrder(registry: Registry, logs: seq<Log>)
    requires StrictlyOrdered(logs)
    requires forall i, j :: 0 <= i < j < |logs| ==> KeyOf(logs[i]) != KeyOf(logs[j])
    ensures var kept := KeepRegistered(registry, logs);
            StrictlyOrdered(kept) && forall i, j :: 0 <= i < j < |kept| ==> KeyOf(kept[i]) != KeyOf(kept[j])
  {
    hide CompareLogs;
    if logs != [] {
      var n := |logs| - 1;
      KeepRegisteredOrder(registry, logs[..n]);
      KeepRegisteredMembers(registry, logs[..n]);
      var before := KeepRegistered(registry, logs[..n]);
      forall i | 0 <= i < |before| ensures CompareLogs(before[i], logs[n]) < 0 && KeyOf(before[i]) != KeyOf(logs[n]) {
        assert before[i] in logs[..n];
      }
    }
  }

  lemma RegisteredLogsAreTheBlocks(w: World, registry: Registry, h: Hash)
    requires ValidWorld(w)
    ensures var logs := RegisteredLogs(w, registry, h);
            && LogsOfBlock(logs, w.blockOf(h)) && StrictlyOrdered(logs)
            && forall log :: log in logs <==> log in w.logsOf(h) && Registered(registry, log)
  {
    hide CompareLogs;
    KeepRegisteredMembers(registry, w.logsOf(h));
    KeepRegisteredOrder(registry, w.logsOf(h));
    forall log | log in RegisteredLogs(w, registry, h) ensures BelongsTo(w, log, h) {
      var i :| 0 <= i < |w.logsOf(h)| && w.logsOf(h)[i] == log;
    }
  }

  // ---------------------------------------------------------------------------
  // Genuine rows
  // ---------------------------------------------------------------------------

  /** The subject of the fact that a log states. */
  function SubjectOf(log: Log): Option<Subject> {
    match log.event
    case PriceAttested(digest, _) => Some(Attestation(digest))
    case DirectMarketLaunched(launchId, _) => Some(DirectLaunch(log.address, launchId))
    case _ => None
  }

  /** Every stored log, canonical or not, is the one its block holds; every fact is what its log states. */
  ghost predicate Genuine(w: World, db: Db) {
    && (forall k :: k in db.rawLogs ==> db.rawLogs[k].log in w.logsOf(k.blockHash) && KeyOf(db.rawLogs[k].log) == k)
    && (forall k :: k in db.facts ==> k in db.rawLogs && SubjectOf(db.rawLogs[k].log) == Some(db.facts[k].subject))
  }

  lemma SameKeySameLog(w: World, a: Log, b: Log)
    requires ValidWorld(w) && a in w.logsOf(a.blockHash) && b in w.logsOf(b.blockHash) && KeyOf(a) == KeyOf(b)
    ensures a == b
  {
    hide StrictlyOrdered;
    var logs := w.logsOf(a.blockHash);
    var i :| 0 <= i < |logs| && logs[i] == a;
    var j :| 0 <= j < |logs| && logs[j] == b;
  }

  lemma RawLogStored(w: World, db: Db, log: Log)
    requires ValidWorld(w) && Genuine(w, db) && log in w.logsOf(log.blockHash) && log.blockHash in db.blocks
    ensures InsertRawLog(db, log) == Ok(db.(rawLogs := db.rawLogs[KeyOf(log) := RawLogRow(log, true)]))
  {
    hide ValidWorld;
    if KeyOf(log) in db.rawLogs {
      var row := db.rawLogs[KeyOf(log)];
      SameKeySameLog(w, row.log, log);
      assert row.log.(event := log.event) == log;
    }
  }

  lemma GenuineRawLog(w: World, db: Db, log: Log)
    requires ValidWorld(w) && Genuine(w, db) && log in w.logsOf(log.blockHash)
    ensures Genuine(w, db.(rawLogs := db.rawLogs[KeyOf(log) := RawLogRow(log, true)]))
  {
    hide ValidWorld;
    if KeyOf(log) in db.rawLogs {
      SameKeySameLog(w, db.rawLogs[KeyOf(log)].log, log);
    }
  }

  lemma InsertRawLogShows(w: World, registry: Registry, db: Db, log: Log)
    requires ValidWorld(w) && Genuine(w, db) && log in w.logsOf(log.blockHash) && log.blockHash in db.blocks
    ensures var r := InsertRawLog(db, log);
            && r.Ok? && Genuine(w, r.value)
            && KeyOf(log) in r.value.rawLogs && r.value.rawLogs[KeyOf(log)] == RawLogRow(log, true)
            && (Registered(registry, log)
                ==> Shown(r.value.rawLogs, registry) == Shown(db.rawLogs, registry)[KeyOf(log) := log])
            && (!Registered(registry, log) ==> Shown(r.value.rawLogs, registry) == Shown(db.rawLogs, registry))
  {
    RawLogStored(w, db, log);
    GenuineRawLog(w, db, log);
    assert KeyOf(log) in db.rawLogs ==> db.rawLogs[KeyOf(log)].log == log by {
      if KeyOf(log) in db.rawLogs {
        SameKeySameLog(w, db.rawLogs[KeyOf(log)].log, log);
      }
    }
    hide ValidWorld, Genuine, Registered, InsertRawLog, Shown;
    ShownUpdate(db.rawLogs, registry, log);
  }

  lemma ShownUpdate(rawLogs: map<LogKey, RawLogRow>, registry: Registry, log: Log)
    requires KeyOf(log) in rawLogs ==> rawLogs[KeyOf(log)].log == log
    ensures var after := Shown(rawLogs[KeyOf(log) := RawLogRow(log, true)], registry);
            && (Registered(registry, log) ==> after == Shown(rawLogs, registry)[KeyOf(log) := log])
            && (!Registered(registry, log) ==> after == Shown(rawLogs, registry))
  {
    hide Registered;
  }

  lemma TakenShows(facts: map<LogKey, FactRow>, key: LogKey, subject: Subject)
    ensures FactTaken(facts, key, subject) <==> SubjectTaken(ShownFacts(facts), key, subject)
  {
    if FactTaken(facts, key, subject) {
      var other :| other in facts && other != key && facts[other].canonical && facts[other].subject == subject;
      assert other in ShownFacts(facts);
    }
  }

  lemma InsertFactShows(w: World, db: Db, log: Log, subject: Subject, view: View)
    requires Genuine(w, db) && KeyOf(log) in db.rawLogs && db.rawLogs[KeyOf(log)].log == log
    requires SubjectOf(log) == Some(subject) && view.facts == ShownFacts(db.facts)
    ensures InsertFact(db, log, subject).Ok? <==> ViewFact(view, log, subject).Ok?
    ensures InsertFact(db, log, subject).Ok? ==>
              && Genuine(w, InsertFact(db, log, subject).value)
              && ShownFacts(InsertFact(db, log, subject).value.facts) == ViewFact(view, log, subject).value.facts
  {
    hide FactTaken, SubjectTaken;
    assert KeyOf(log) in db.facts ==> db.facts[KeyOf(log)].subject == subject;
    TakenShows(db.facts, KeyOf(log), subject);
  }

  /** One committed log changes what the store shows exactly as it changes the view. */
  lemma CommitLogShows(w: World, registry: Registry, db: Db, block: Block, generation: nat, log: Log)
    requires ValidWorld(w) && Genuine(w, db)
    requires log in w.logsOf(log.blockHash) && log.blockHash in db.blocks && Registered(registry, log)
    ensures CommitLog(db, block, generation, log).Ok? <==> ViewLog(CanonicalView(registry, db), block.number, log).Ok?
    ensures CommitLog(db, block, generation, log).Ok? ==>
              && Genuine(w, CommitLog(db, block, generation, log).value)
              && CanonicalView(registry, CommitLog(db, block, generation, log).value)
                 == ViewLog(CanonicalView(registry, db), block.number, log).value
              && CommitLog(db, block, generation, log).value.blocks == db.blocks
  {
    hide ValidWorld, Registered, InsertRawLog, InsertFact, Shown, ShownFacts, HasKey, Genuine;
    InsertRawLogShows(w, registry, db, log);
    var stored := InsertRawLog(db, log).value;
    var view := CanonicalView(registry, db).(logs := CanonicalView(registry, db).logs[KeyOf(log) := log]);
    assert CanonicalView(registry, stored) == view;
    match log.event {
      case PriceAttested(digest, valid) =>
        InsertFactShows(w, stored, log, Attestation(digest), view);
        if valid && InsertFact(stored, log, Attestation(digest)).Ok? {
          OutboxDoesNotShow(w, InsertFact(stored, log, Attestation(digest)).value, BuildEmission(log, generation));
        }
      case DirectMarketLaunched(launchId, valid) =>
        InsertFactShows(w, stored, log, DirectLaunch(log.address, launchId), view);
        if valid && InsertFact(stored, log, DirectLaunch(log.address, launchId)).Ok? {
          OutboxDoesNotShow(w, InsertFact(stored, log, DirectLaunch(log.address, launchId)).value,
                            BuildEmission(log, generation));
        }
      case MarketLaunched(_) =>
        if InsertMarket(stored, block, log).Ok? {
          GenuineFrame(w, stored, InsertMarket(stored, block, log).value);
          OutboxDoesNotShow(w, InsertMarket(stored, block, log).value, BuildEmission(log, generation));
        }
      case _ =>
        OutboxDoesNotShow(w, stored, BuildEmission(log, generation));
    }
  }

  lemma GenuineFrame(w: World, db: Db, after: Db)
    requires Genuine(w, db) && after.rawLogs == db.rawLogs && after.facts == db.facts
    ensures Genuine(w, after)
  {
  }

  lemma OutboxDoesNotShow(w: World, db: Db, row: OutboxRow)
    requires Genuine(w, db)
    ensures Genuine(w, InsertOutbox(db, row)) && InsertOutbox(db, row) == db.(outbox := InsertOutbox(db, row).outbox)
  {
  }

  lemma {:induction false} CommitLogsShow(w: World, registry: Registry, db: Db, block: Block, generation: nat, logs: seq<Log>)
    requires ValidWorld(w) && Genuine(w, db) && block.hash in db.blocks
    requires forall log :: log in logs
                           ==> log.blockHash == block.hash && log in w.logsOf(block.hash) && Registered(registry, log)
    ensures CommitLogs(db, block, generation, logs).Ok? <==> ViewLogs(CanonicalView(registry, db), block.number, logs).Ok?
    ensures CommitLogs(db, block, generation, logs).Ok? ==>
              && Genuine(w, CommitLogs(db, block, generation, logs).value)
              && CanonicalView(registry, CommitLogs(db, block, generation, logs).value)
                 == ViewLogs(CanonicalView(registry, db), block.number, logs).value
              && CommitLogs(db, block, generation, logs).value.blocks == db.blocks
  {
    hide ValidWorld, Genuine, Registered, CommitLog, ViewLog, CanonicalView;
    if logs != [] {
      var n := |logs| - 1;
      CommitLogsShow(w, registry, db, block, generation, logs[..n]);
      assert logs[n] in logs;
      if CommitLogs(db, block, generation, logs[..n]).Ok? {
        CommitLogShows(w, registry, CommitLogs(db, block, generation, logs[..n]).value, block, generation, logs[n]);
      }
    }
  }

  // ---------------------------------------------------------------------------
  // Views of a chain cut short
  // ---------------------------------------------------------------------------

  /** What a view shows of blocks up to a height. */
  function Restrict(w: World, view: View, number: nat): View {
    View(map k | k in view.logs && w.blockOf(k.blockHash).number <= number :: view.logs[k],
         map k | k in view.facts && w.blockOf(k.blockHash).number <= number :: view.facts[k],
         map id | id in view.markets && view.markets[id].launchBlock <= number :: view.markets[id])
  }

  lemma ViewFactAbove(w: World, view: View, log: Log, subject: Subject, height: nat)
    requires w.blockOf(log.blockHash).number > height && ViewFact(view, log, subject).Ok?
    ensures Restrict(w, ViewFact(view, log, subject).value, height) == Restrict(w, view, height)
  {
    hide SubjectTaken;
  }

  lemma ViewMarketAbove(w: World, view: View, number: nat, log: Log, height: nat)
    requires log.event.MarketLaunched? && number > height && ViewMarket(view, number, log).Ok?
    ensures Restrict(w, ViewMarket(view, number, log).value, height) == Restrict(w, view, height)
  {
    hide LaunchTaken;
  }

  /** A log of a later block leaves what is shown of the blocks below. */
  lemma ViewLogAbove(w: World, view: View, number: nat, log: Log, height: nat)
    requires w.blockOf(log.blockHash).number > height && number > height && ViewLog(view, number, log).Ok?
    ensures Restrict(w, ViewLog(view, number, log).value, height) == Restrict(w, view, height)
  {
    var stored := view.(logs := view.logs[KeyOf(log) := log]);
    assert Restrict(w, stored, height) == Restrict(w, view, height);
    hide Restrict, ViewFact, ViewMarket;
    match log.event {
      case PriceAttested(digest, _) => ViewFactAbove(w, stored, log, Attestation(digest), height);
      case DirectMarketLaunched(launchId, _) => ViewFactAbove(w, stored, log, DirectLaunch(log.address, launchId), height);
      case MarketLaunched(_) => ViewMarketAbove(w, stored, number, log, height);
      case _ =>
    }
  }

  lemma {:induction false} ViewLogsAbove(w: World, view: View, number: nat, logs: seq<Log>, height: nat)
    requires number > height && ViewLogs(view, number, logs).Ok?
    requires forall log :: log in logs ==> w.blockOf(log.blockHash).number > height
    ensures Restrict(w, ViewLogs(view, number, logs).value, height) == Restrict(w, view, height)
  {
    hide ViewLog, Restrict;
    if logs != [] {
      var n := |logs| - 1;
      assert logs[n] in logs;
      ViewLogsAbove(w, view, number, logs[..n], height);
      ViewLogAbove(w, ViewLogs(view, number, logs[..n]).value, number, logs[n], height);
    }
  }

  /** Everything a view shows is of blocks up to a height. */
  ghost predicate Within(w: World, view: View, number: nat) {
    && (forall k :: k in view.logs ==> w.blockOf(k.blockHash).number <= number)
    && (forall k :: k in view.facts ==> w.blockOf(k.blockHash).number <= number)
    && (forall id :: id in view.markets ==> view.markets[id].launchBlock <= number)
  }

  lemma ViewLogWithin(w: World, view: View, number: nat, log: Log, height: nat)
    requires Within(w, view, height) && ViewLog(view, number, log).Ok?
    requires w.blockOf(log.blockHash).number <= height && number <= height
    ensures Within(w, ViewLog(view, number, log).value, height)
  {
    hide SubjectTaken, LaunchTaken;
  }

  lemma {:induction false} ViewLogsWithin(w: World, view: View, number: nat, logs: seq<Log>, height: nat)
    requires Within(w, view, height) && ViewLogs(view, number, logs).Ok?
    requires number <= height && forall log :: log in logs ==> w.blockOf(log.blockHash).number <= height
    ensures Within(w, ViewLogs(view, number, logs).value, height)
  {
    hide ViewLog, Within;
    if logs != [] {
      var n := |logs| - 1;
      assert logs[n] in logs;
      ViewLogsWithin(w, view, number, logs[..n], height);
      ViewLogWithin(w, ViewLogs(view, number, logs[..n]).value, number, logs[n], height);
    }
  }

  lemma {:induction false} ChainViewWithin(w: World, registry: Registry, base: nat, chain: seq<Hash>)
    requires ValidWorld(w) && Linked(w, base, chain) && chain != [] && ChainView(w, registry, chain).Ok?
    ensures Within(w, ChainView(w, registry, chain).value, base + |chain| - 1)
  {
    if |chain| > 1 {
      hide ValidWorld, RegisteredLogs, ViewLogs, StrictlyOrdered;
      var n := |chain| - 1;
      ChainViewWithin(w, registry, base, chain[..n]);
      WithinMore(w, ChainView(w, registry, chain[..n]).value, base + n - 1, base + n);
      hide Within;
      RegisteredLogsAreTheBlocks(w, registry, chain[n]);
      var before := ChainView(w, registry, chain[..n]).value;
      HashesItself(w, chain[n]);
      ViewLogsWithin(w, before, base + n, RegisteredLogs(w, registry, chain[n]), base + n);
    }
  }

  lemma WithinMore(w: World, view: View, low: nat, high: nat)
    requires Within(w, view, low) && low <= high
    ensures Within(w, view, high)
  {
  }

  lemma HashesItself(w: World, h: Hash)
    requires ValidWorld(w)
    ensures w.blockOf(h).hash == h
  {
  }

  /** Cutting a chain short shows what the longer chain shows of the blocks that stay. */
  lemma {:induction false} ChainViewCut(w: World, registry: Registry, base: nat, chain: seq<Hash>, kept: nat)
    requires ValidWorld(w) && Linked(w, base, chain) && 0 < kept <= |chain| && ChainView(w, registry, chain).Ok?
    ensures ChainView(w, registry, chain[..kept])
            == Ok(Restrict(w, ChainView(w, registry, chain).value, base + kept - 1))
  {
    hide ValidWorld, RegisteredLogs, Within, Restrict;
    var n := |chain| - 1;
    if kept == |chain| {
      assert chain[..kept] == chain;
      ChainViewWithin(w, registry, base, chain);
      RestrictWithin(w, ChainView(w, registry, chain).value, base + n);
    } else {
      ChainViewCut(w, registry, base, chain[..n], kept);
      assert chain[..n][..kept] == chain[..kept];
      RegisteredLogsAreTheBlocks(w, registry, chain[n]);
      HashesItself(w, chain[n]);
      ViewLogsAbove(w, ChainView(w, registry, chain[..n]).value, base + n, RegisteredLogs(w, registry, chain[n]),
                    base + kept - 1);
    }
  }

  lemma RestrictWithin(w: World, view: View, number: nat)
    requires Within(w, view, number)
    ensures Restrict(w, view, number) == view
  {
  }

  // ---------------------------------------------------------------------------
  // The store shows its chain
  // ---------------------------------------------------------------------------

  /** The rows are genuine, and the canonical ones show what the chain shows. */
  ghost predicate Complete(w: World, registry: Registry, chain: seq<Hash>, db: Db) {
    Genuine(w, db) && ChainView(w, registry, chain) == Ok(CanonicalView(registry, db))
  }

  lemma CommitShows(
    w: World, registry: Registry, base: nat, chain: seq<Hash>, db: Db, h: Hash, observed: nat)
    requires ValidWorld(w) && Inv(w, base, chain, db) && chain != [] && Complete(w, registry, chain, db)
    requires Extends(w, base, chain, w.blockOf(h))
    ensures var r := CommitBlock(db, w.blockOf(h), RegisteredLogs(w, registry, h), observed);
            && (r.Ok? <==> ChainView(w, registry, chain + [h]).Ok?)
            && (r.Ok? ==> Complete(w, registry, chain + [h], r.value))
  {
    hide ValidWorld, Tables, Genuine, CanonicalView, RegisteredLogs, CommitLogs, Extends;
    var block := w.blockOf(h);
    var logs := RegisteredLogs(w, registry, h);
    var generation := db.cursor.value.generation;
    var with := InsertCanonicalBlock(db, block);
    HashesItself(w, h);
    FrameShows(w, registry, db, with);
    RegisteredLogsAreTheBlocks(w, registry, h);
    CommitLogsShow(w, registry, with, block, generation, logs);
    assert (chain + [h])[..|chain|] == chain;
    ExtendsCursor(w, base, chain, db, block);
    if CommitLogs(with, block, generation, logs).Ok? {
      CommitLogsCursor(with, block, generation, logs);
      FrameShows(w, registry, CommitLogs(with, block, generation, logs).value,
                 AdvanceCursor(CommitLogs(with, block, generation, logs).value, block, observed));
    }
  }

  lemma ExtendsCursor(w: World, base: nat, chain: seq<Hash>, db: Db, block: Block)
    requires Inv(w, base, chain, db) && Extends(w, base, chain, block)
    ensures block.number == db.cursor.value.number + 1 && block.parentHash == db.cursor.value.hash
  {
  }

  lemma FrameShows(w: World, registry: Registry, db: Db, after: Db)
    requires Genuine(w, db)
    requires after.rawLogs == db.rawLogs && after.facts == db.facts && after.markets == db.markets
    ensures Genuine(w, after) && CanonicalView(registry, after) == CanonicalView(registry, db)
  {
  }

  /** Rolling back shows what the shorter chain shows. */
  lemma RollbackShows(
    w: World, registry: Registry, base: nat, chain: seq<Hash>, db: Db, ancestor: Block, oldTip: Block,
    removed: seq<MarketId>, kept: nat)
    requires ValidWorld(w) && Inv(w, base, chain, db) && Complete(w, registry, chain, db) && 0 < kept <= |chain|
    requires ancestor.number == base + kept - 1 && RemovalOrder(db, ancestor.number, removed)
    requires Rollback(db, ancestor, oldTip, removed).Ok?
    ensures Complete(w, registry, chain[..kept], Rollback(db, ancestor, oldTip, removed).value)
  {
    hide ValidWorld, Tables, Genuine, CanonicalView, Restrict, RemovalOrder, Rollback, ChainView;
    hide OrphanRawLogs, OrphanFacts, RetainMarkets, OrphanTrades, RewindPools, OrphanBlocks;
    InvLinked(w, base, chain, db);
    ChainViewCut(w, registry, base, chain, kept);
    RollbackTables(db, ancestor, oldTip, removed);
    var after := Rollback(db, ancestor, oldTip, removed).value;
    RollbackRestricts(w, registry, base, chain, db, ancestor.number, removed, after);
  }

  lemma RollbackTables(db: Db, ancestor: Block, oldTip: Block, removed: seq<MarketId>)
    requires Rollback(db, ancestor, oldTip, removed).Ok?
    ensures var after := Rollback(db, ancestor, oldTip, removed).value;
            && after.rawLogs == OrphanRawLogs(db.rawLogs, ancestor.number)
            && after.facts == OrphanFacts(db.facts, ancestor.number)
            && after.markets == RetainMarkets(db.markets, removed)
            && after.trades == OrphanTrades(db.trades, ancestor.number, removed)
            && after.pools == RewindPools(db.pools, ancestor.number, removed)
            && after.blocks == OrphanBlocks(db.blocks, ancestor.number)
  {
    hide OrphanBlocks, OrphanRawLogs, OrphanFacts, OrphanTrades, RewindPools, RetainMarkets, HasKey;
    AnnounceOnlyAnnounces(Rewound(db, ancestor, oldTip, removed), removed, db.cursor.value.generation + 1);
  }

  lemma {:induction false} AnnounceOnlyAnnounces(db: Db, removed: seq<MarketId>, generation: nat)
    ensures Announce(db, removed, generation) == db.(outbox := Announce(db, removed, generation).outbox)
  {
    hide HasKey;
    if removed != [] {
      AnnounceOnlyAnnounces(db, removed[..|removed| - 1], generation);
    }
  }

  lemma InvLinked(w: World, base: nat, chain: seq<Hash>, db: Db)
    requires Inv(w, base, chain, db)
    ensures Linked(w, base, chain)
  {
  }

  lemma RollbackRestricts(
    w: World, registry: Registry, base: nat, chain: seq<Hash>, db: Db, number: nat, removed: seq<MarketId>, after: Db)
    requires chain != [] && Inv(w, base, chain, db) && Genuine(w, db) && RemovalOrder(db, number, removed)
    requires after.rawLogs == OrphanRawLogs(db.rawLogs, number) && after.facts == OrphanFacts(db.facts, number)
    requires after.markets == RetainMarkets(db.markets, removed)
    ensures Genuine(w, after)
    ensures CanonicalView(registry, after) == Restrict(w, CanonicalView(registry, db), number)
  {
    hide Registered, BlocksInv, MarketsInv, TradesInv, PoolsInv, OutboxInv, FoldMarkets, RawLogsInv, FactsInv;
    ShownRestricts(w, registry, chain, db, number);
    FactsRestrict(w, chain, db, number);
    MarketsRestrict(w, registry, db, number, removed);
    hide Shown, ShownFacts, RemovalOrder, RetainMarkets;
  }

  lemma ShownRestricts(w: World, registry: Registry, chain: seq<Hash>, db: Db, number: nat)
    requires RawLogsInv(w, chain, db.blocks, db.rawLogs)
    ensures Shown(OrphanRawLogs(db.rawLogs, number), registry) == Restrict(w, CanonicalView(registry, db), number).logs
  {
    hide Registered;
  }

  lemma FactsRestrict(w: World, chain: seq<Hash>, db: Db, number: nat)
    requires FactsInv(w, chain, db.rawLogs, db.facts)
    ensures ShownFacts(OrphanFacts(db.facts, number))
            == map k | k in ShownFacts(db.facts) && w.blockOf(k.blockHash).number <= number :: ShownFacts(db.facts)[k]
  {
    hide FactTaken;
  }

  lemma MarketsRestrict(w: World, registry: Registry, db: Db, number: nat, removed: seq<MarketId>)
    requires RemovalOrder(db, number, removed)
    ensures RetainMarkets(db.markets, removed) == Restrict(w, CanonicalView(registry, db), number).markets
  {
    hide RemovalBefore;
  }

  // ---------------------------------------------------------------------------
  // Backfilled logs show nothing new
  // ---------------------------------------------------------------------------

  lemma ViewLogHolds(view: View, number: nat, log: Log, key: LogKey)
    requires ViewLog(view, number, log).Ok?
    ensures key != KeyOf(log) && key in view.logs
            ==> key in ViewLog(view, number, log).value.logs && ViewLog(view, number, log).value.logs[key] == view.logs[key]
    ensures KeyOf(log) in ViewLog(view, number, log).value.logs && ViewLog(view, number, log).value.logs[KeyOf(log)] == log
  {
    hide SubjectTaken, LaunchTaken;
  }

  lemma {:induction false} ViewLogsHold(view: View, number: nat, logs: seq<Log>, key: LogKey, log: Log)
    requires ViewLogs(view, number, logs).Ok? && KeyOf(log) == key
    requires forall other :: other in logs && KeyOf(other) == key ==> other == log
    requires log in logs || (key in view.logs && view.logs[key] == log)
    ensures key in ViewLogs(view, number, logs).value.logs && ViewLogs(view, number, logs).value.logs[key] == log
  {
    hide ViewLog;
    if logs != [] {
      var n := |logs| - 1;
      assert logs == logs[..n] + [logs[n]];
      if log in logs[..n] || (key in view.logs && view.logs[key] == log) {
        ViewLogsHold(view, number, logs[..n], key, log);
      }
      ViewLogHolds(ViewLogs(view, number, logs[..n]).value, number, logs[n], key);
    }
  }

  /** A chain shows every registered log above its baseline. */
  lemma {:induction false} ChainShowsItsLogs(w: World, registry: Registry, chain: seq<Hash>, i: nat, log: Log)
    requires ValidWorld(w) && ChainView(w, registry, chain).Ok? && 0 < i < |chain|
    requires log in w.logsOf(chain[i]) && Registered(registry, log)
    ensures var logs := ChainView(w, registry, chain).value.logs; KeyOf(log) in logs && logs[KeyOf(log)] == log
  {
    hide ValidWorld, Registered, RegisteredLogs;
    var n := |chain| - 1;
    var here := RegisteredLogs(w, registry, chain[n]);
    RegisteredLogsAreTheBlocks(w, registry, chain[n]);
    LogsKnowTheirBlock(w, chain[i], log);
    forall other | other in here && KeyOf(other) == KeyOf(log) ensures other == log {
      LogsKnowTheirBlock(w, chain[n], other);
      SameKeySameLog(w, other, log);
    }
    if i < n {
      ChainShowsItsLogs(w, registry, chain[..n], i, log);
    }
    ViewLogsHold(ChainView(w, registry, chain[..n]).value, w.blockOf(chain[n]).number, here, KeyOf(log), log);
  }

  lemma LogsKnowTheirBlock(w: World, h: Hash, log: Log)
    requires ValidWorld(w) && log in w.logsOf(h)
    ensures BelongsTo(w, log, h)
  {
    hide StrictlyOrdered;
    var i :| 0 <= i < |w.logsOf(h)| && w.logsOf(h)[i] == log;
  }

  lemma BackfillLogShows(w: World, registry: Registry, base: nat, chain: seq<Hash>, db: Db, log: Log)
    requires ValidWorld(w) && chain != [] && db.cursor.Some? && Tables(w, base, chain, db.cursor.value.generation, db)
    requires Complete(w, registry, chain, db)
    requires log in w.logsOf(log.blockHash) && log.blockNumber > base && BackfillLog(db, log).Ok?
    ensures Complete(w, registry, chain, BackfillLog(db, log).value)
  {
    hide ValidWorld, Registered, InsertRawLog, InsertTrade, Tables, Genuine, Shown, ShownFacts, ChainView;
    var stored := InsertRawLog(db, log).value;
    TradeNeedsCanonicalBlock(w, base, chain, db.cursor.value.generation, db, stored, log);
    RawLogNeedsBlock(db, log);
    InsertRawLogShows(w, registry, db, log);
    if Registered(registry, log) {
      TablesLinked(w, base, chain, db.cursor.value.generation, db);
      var i :| 0 <= i < |chain| && chain[i] == log.blockHash;
      assert w.blockOf(chain[i]).number == base + i;
      ChainShowsItsLogs(w, registry, chain, i, log);
    }
    assert CanonicalView(registry, stored) == CanonicalView(registry, db);
    GenuineFrame(w, stored, InsertTrade(stored, log).value);
  }

  lemma RawLogNeedsBlock(db: Db, log: Log)
    ensures InsertRawLog(db, log).Ok? <==> log.blockHash in db.blocks
  {
  }

  lemma TablesLinked(w: World, base: nat, chain: seq<Hash>, generation: nat, db: Db)
    requires Tables(w, base, chain, generation, db)
    ensures Linked(w, base, chain)
  {
  }

  lemma {:induction false} BackfillLogsShow(
    w: World, registry: Registry, base: nat, chain: seq<Hash>, db: Db, logs: seq<Log>)
    requires ValidWorld(w) && chain != [] && db.cursor.Some? && Tables(w, base, chain, db.cursor.value.generation, db)
    requires Complete(w, registry, chain, db) && BackfillLogs(db, logs).Ok?
    requires forall log :: log in logs ==> log in w.logsOf(log.blockHash) && log.blockNumber > base
    ensures Complete(w, registry, chain, BackfillLogs(db, logs).value)
  {
    hide ValidWorld, Tables, Complete, BackfillLog;
    if logs != [] {
      var n := |logs| - 1;
      assert logs[n] in logs;
      BackfillLogsShow(w, registry, base, chain, db, logs[..n]);
      BackfillLogsKeep(w, base, chain, db.cursor.value.generation, db, logs[..n]);
      BackfillLogShows(w, registry, base, chain, BackfillLogs(db, logs[..n]).value, logs[n]);
    }
  }

  lemma BackfillShows(
    w: World, registry: Registry, base: nat, chain: seq<Hash>, db: Db, logs: seq<Log>, pools: set<Address>, through: int)
    requires ValidWorld(w) && Inv(w, base, chain, db) && chain != [] && Complete(w, registry, chain, db)
    requires forall log :: log in logs ==> log in w.logsOf(log.blockHash) && log.blockNumber > base
    requires Backfill(db, logs, pools, through).Ok?
    ensures Complete(w, registry, chain, Backfill(db, logs, pools, through).value)
  {
    hide ValidWorld, Tables, BackfillLogs, Genuine, CanonicalView, ChainView;
    BackfillLogsShow(w, registry, base, chain, db, logs);
    var filled := BackfillLogs(db, logs).value;
    FrameShows(w, registry, filled, AdvancePools(filled, pools, through));
  }

  // ---------------------------------------------------------------------------
  // Honest histories
  // ---------------------------------------------------------------------------

  /** An allowed step whose logs are what the blocks hold: the node did not change while it was asked. */
  ghost predicate Honest(w: World, registry: Registry, base: nat, db: Db, step: Step) {
    Allowed(w, base, db, step)
    && match step
       case Extend(block, logs, _) => logs == RegisteredLogs(w, registry, block.hash)
       case FillPools(logs, _, _) => forall log :: log in logs ==> log in w.logsOf(log.blockHash) && log.blockNumber > base
       case _ => true
  }

  lemma StartShows(w: World, registry: Registry, baseline: Block, observed: nat)
    ensures Complete(w, registry, [baseline.hash], InitializeCursor(EMPTY_DB, baseline, observed))
  {
  }

  lemma EmptyShows(w: World, registry: Registry)
    ensures Complete(w, registry, [], EMPTY_DB)
  {
  }

  lemma HonestStepShows(w: World, registry: Registry, base: nat, chain: seq<Hash>, db: Db, step: Step)
    requires ValidWorld(w) && Inv(w, base, chain, db) && Complete(w, registry, chain, db)
    requires Honest(w, registry, base, db, step)
    ensures Complete(w, registry, ChainAfter(base, chain, db, step), After(db, step))
  {
    hide ValidWorld, Tables, CommitBlock, Rollback, Backfill, RemovalOrder, PoolOwners, RegisteredLogs, Genuine, CanonicalView;
    hide ChainView;
    if Apply(db, step).Ok? {
      match step {
        case Start(baseline, observed) =>
          StartShows(w, registry, baseline, observed);
        case Observe(observed) =>
          FrameShows(w, registry, db, After(db, step));
        case Extend(block, logs, observed) =>
          CommitNeedsCursor(db, block, logs, observed);
          CursorExtends(w, base, chain, db, block, logs, observed);
          CommitShows(w, registry, base, chain, db, block.hash, observed);
        case Rewind(ancestor, oldTip, removed) =>
          RewindStep(w, base, chain, db, ancestor, oldTip, removed);
          RollbackShows(w, registry, base, chain, db, ancestor, oldTip, removed, ancestor.number - base + 1);
        case TrackPools(through, owners) =>
          FrameShows(w, registry, db, After(db, step));
        case FillPools(logs, pools, through) =>
          BackfillShows(w, registry, base, chain, db, logs, pools, through);
      }
    }
  }

  ghost predicate HonestRun(w: World, registry: Registry, base: nat, run: seq<Step>) {
    forall n :: 0 <= n < |run| ==> Honest(w, registry, base, RunDb(run[..n]), run[n])
  }

  lemma {:induction false} HonestRunShows(w: World, registry: Registry, base: nat, run: seq<Step>)
    requires ValidWorld(w) && HonestRun(w, registry, base, run)
    ensures Inv(w, base, RunChain(base, run), RunDb(run))
    ensures Complete(w, registry, RunChain(base, run), RunDb(run))
  {
    hide ValidWorld, Inv, Complete, After, ChainAfter;
    if run == [] {
      EmptyShows(w, registry);
      RunKeeps(w, base, run);
    } else {
      var n := |run| - 1;
      forall m | 0 <= m < n ensures Honest(w, registry, base, RunDb(run[..n][..m]), run[..n][m]) {
        assert run[..n][..m] == run[..m];
      }
      HonestRunShows(w, registry, base, run[..n]);
      StepKeeps(w, base, RunChain(base, run[..n]), RunDb(run[..n]), run[n]);
      HonestStepShows(w, registry, base, RunChain(base, run[..n]), RunDb(run[..n]), run[n]);
    }
  }

  // ---------------------------------------------------------------------------
  // The fresh index
  // ---------------------------------------------------------------------------

  /** Indexing a chain into an empty database, block after block. */
  function FreshIndex(w: World, registry: Registry, chain: seq<Hash>): Outcome<Db>
    requires chain != []
  {
    if |chain| == 1 then
      Ok(InitializeCursor(EMPTY_DB, w.blockOf(chain[0]), 0))
    else
      var tip := chain[|chain| - 1];
      var before :- FreshIndex(w, registry, chain[..|chain| - 1]);
      CommitBlock(before, w.blockOf(tip), RegisteredLogs(w, registry, tip), 0)
  }

  lemma {:induction false} FreshIndexShows(w: World, registry: Registry, base: nat, chain: seq<Hash>)
    requires ValidWorld(w) && Linked(w, base, chain) && chain != []
    ensures FreshIndex(w, registry, chain).Ok? <==> ChainView(w, registry, chain).Ok?
    ensures FreshIndex(w, registry, chain).Ok? ==>
              Inv(w, base, chain, FreshIndex(w, registry, chain).value)
              && Complete(w, registry, chain, FreshIndex(w, registry, chain).value)
  {
    hide ValidWorld, Inv, Complete, CommitBlock, RegisteredLogs, ChainView;
    HashesItself(w, chain[0]);
    if |chain| == 1 {
      assert chain == [chain[0]];
      InitializeKeeps(w, base, w.blockOf(chain[0]), 0);
      StartShows(w, registry, w.blockOf(chain[0]), 0);
      SingleBlockShows(w, registry, chain);
    } else {
      var n := |chain| - 1;
      var shorter := chain[..n];
      assert chain == shorter + [chain[n]];
      FreshIndexShows(w, registry, base, shorter);
      LongerShows(w, registry, chain);
      if FreshIndex(w, registry, shorter).Ok? {
        var before := FreshIndex(w, registry, shorter).value;
        HashesItself(w, chain[n]);
        RegisteredLogsAreTheBlocks(w, registry, chain[n]);
        CommitShows(w, registry, base, shorter, before, chain[n], 0);
        if FreshIndex(w, registry, chain).Ok? {
          CommitBlockKeeps(w, base, shorter, before, w.blockOf(chain[n]), RegisteredLogs(w, registry, chain[n]), 0);
        }
      }
    }
  }

  lemma SingleBlockShows(w: World, registry: Registry, chain: seq<Hash>)
    requires |chain| == 1
    ensures ChainView(w, registry, chain) == Ok(EMPTY_VIEW)
  {
  }

  lemma LongerShows(w: World, registry: Registry, chain: seq<Hash>)
    requires |chain| > 1
    ensures ChainView(w, registry, chain).Ok? ==> ChainView(w, registry, chain[..|chain| - 1]).Ok?
  {
  }

  /** A store that agrees with its chain shows what a fresh index of that chain shows, and has its canonical blocks. */
  lemma ShowsFreshIndex(w: World, registry: Registry, base: nat, chain: seq<Hash>, db: Db)
    requires ValidWorld(w) && chain != [] && Inv(w, base, chain, db) && Complete(w, registry, chain, db)
    ensures FreshIndex(w, registry, chain).Ok?
    ensures CanonicalView(registry, db) == CanonicalView(registry, FreshIndex(w, registry, chain).value)
    ensures forall h, n :: CanonicalAt(db, h, n) <==> CanonicalAt(FreshIndex(w, registry, chain).value, h, n)
  {
    hide ValidWorld, RegisteredLogs, FreshIndex, ChainView, CanonicalView, Genuine;
    InvLinked(w, base, chain, db);
    FreshIndexShows(w, registry, base, chain);
    SameChainSameBlocks(w, base, chain, db, FreshIndex(w, registry, chain).value);
  }

  lemma SameChainSameBlocks(w: World, base: nat, chain: seq<Hash>, db: Db, other: Db)
    requires chain != [] && Inv(w, base, chain, db) && Inv(w, base, chain, other)
    ensures forall h, n :: CanonicalAt(db, h, n) <==> CanonicalAt(other, h, n)
  {
    hide RawLogsInv, FactsInv, MarketsInv, TradesInv, PoolsInv, OutboxInv, FoldMarkets, Linked;
  }

  /** Whatever an honest history was, the store shows what indexing its chain afresh shows. */
  lemma HistoryDoesNotMatter(w: World, registry: Registry, base: nat, run: seq<Step>)
    requires ValidWorld(w) && HonestRun(w, registry, base, run) && RunDb(run).cursor.Some?
    ensures var chain := RunChain(base, run);
            && chain != [] && FreshIndex(w, registry, chain).Ok?
            && CanonicalView(registry, RunDb(run)) == CanonicalView(registry, FreshIndex(w, registry, chain).value)
            && forall h, n :: CanonicalAt(RunDb(run), h, n) <==> CanonicalAt(FreshIndex(w, registry, chain).value, h, n)
  {
    hide ValidWorld, Tables, Complete, After, ChainAfter, FreshIndex, CanonicalView, HonestRun;
    HonestRunShows(w, registry, base, run);
    ShowsFreshIndex(w, registry, base, RunChain(base, run), RunDb(run));
  }
}

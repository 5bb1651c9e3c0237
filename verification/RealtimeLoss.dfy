/** When a client of the hub can lose an event: the asks after which every continuation delivers. */
module RealtimeLoss {
  import opened OutboxReads
  import opened RealtimeHub

  // ---------------------------------------------------------------------------
  // What is promised, and what endangers it
  // ---------------------------------------------------------------------------

  /** Unless the client has been told to start over, has had a failing replay or still waits for one, it was sent every
      event above its request that the hub has broadcast. */
  ghost predicate Delivered(hub: Hub, c: nat) {
    (c in hub.clients && hub.clients[c].open && !hub.clients[c].resynced && !hub.clients[c].dropped && NoReplay(hub, c))
    ==> forall e :: e in hub.log && hub.clients[c].requested < e <= hub.latestBroadcastId ==> e in hub.clients[c].sent
  }

  /** Whatever the hub, the other clients and the database do, until the client asks again. */
  ghost predicate SafeFrom(hub: Hub, c: nat) {
    forall steps: seq<Step> :: NeverAsks(steps, c) ==> Delivered(Run(hub, steps), c)
  }

  /** A replay of the client has not read yet and starts beyond the log, above the position asked for. */
  predicate AsksBehind(hub: Hub, c: nat, after: nat) {
    exists r :: r in hub.replays && hub.replays[r].Reading? && hub.replays[r].client == c
                && after < hub.replays[r].after && LatestId(hub.log) < hub.replays[r].after
  }

  predicate Endangered(hub: Hub, c: nat)
    requires c in hub.clients
  {
    AsksBehind(hub, c, hub.clients[c].requested)
  }

  /** The replay holds or will read more rows than it may send. */
  predicate Overflows(log: seq<nat>, replay: Replay) {
    match replay
    case Reading(_, after) => |log| - Position(log, after) > MAX_REPLAY
    case Fetched(_, _, events) => |events| > MAX_REPLAY
  }

  predicate BoundToResync(hub: Hub, c: nat) {
    exists r :: r in hub.replays && hub.replays[r].client == c && Overflows(hub.log, hub.replays[r])
  }

  // ---------------------------------------------------------------------------
  // Without such a replay everything is delivered
  // ---------------------------------------------------------------------------

  predicate BehindStep(hub: Hub, step: Step, c: nat) {
    step.Subscribe? && step.client == c && AsksBehind(hub, c, step.after)
  }

  predicate Calm(hub: Hub, c: nat) {
    c in hub.clients ==> !hub.clients[c].exposed && !Endangered(hub, c)
  }

  lemma StepCalm(hub: Hub, step: Step, c: nat)
    requires HubInv(hub) && Calm(hub, c) && !BehindStep(hub, step, c)
    ensures Calm(Next(hub, step), c)
  {
    hide Kept, Slice, Increasing, ReplayAll, BroadcastAll, ReadAfter, Promised, LatestId;
    if c in Next(hub, step).clients && Enabled(hub, step) {
      if step.Commit? {
        CommitCalm(hub, step.id, c);
      } else if step.ReplayResumes? && c in hub.clients {
        ReplayAllKeeps(hub.clients[c], hub.replays[step.replay].events, step.slow);
      } else if step.FlushResumes? {
        BroadcastOffersAll(hub.clients, hub.flush.events, step.broadcastSlow);
        OfferAllKeeps(hub.clients[c], c, hub.flush.events, step.broadcastSlow);
      }
    }
  }

  lemma CommitCalm(hub: Hub, id: nat, c: nat)
    requires Calm(hub, c) && c in hub.clients && id > LatestId(hub.log)
    ensures Calm(Append(hub, id), c)
  {
    hide Promised, LatestId;
    LatestOfAppended(hub.log, id);
  }

  predicate BehindAt(start: Hub, steps: seq<Step>, k: nat, c: nat)
    requires k < |steps|
  {
    BehindStep(Run(start, steps[..k]), steps[k], c)
  }

  lemma {:induction false} RunCalm(start: Hub, steps: seq<Step>, c: nat)
    requires HubInv(start) && Calm(start, c)
    requires forall k :: 0 <= k < |steps| ==> !BehindAt(start, steps, k, c)
    ensures Calm(Run(start, steps), c) && HubInv(Run(start, steps))
    decreases |steps|
  {
    hide HubInv, Next, BehindStep, Calm;
    if steps != [] {
      var n := |steps| - 1;
      assert forall k :: 0 <= k < n ==> steps[..n][..k] == steps[..k];
      forall k | 0 <= k < n ensures !BehindAt(start, steps[..n], k, c) {
        assert !BehindAt(start, steps, k, c);
      }
      RunCalm(start, steps[..n], c);
      assert !BehindAt(start, steps, n, c);
      StepCalm(Run(start, steps[..n]), steps[n], c);
      StepKeeps(Run(start, steps[..n]), steps[n]);
    }
  }

  lemma CalmDelivers(hub: Hub, c: nat)
    requires HubInv(hub) && Calm(hub, c)
    ensures Delivered(hub, c)
  {
    if c in hub.clients && Served(hub.clients[c]) {
      KeptOf(hub, c);
      hide HubInv;
      assert NoReplay(hub, c) ==> forall e :: !Promised(hub.replays, c, e);
    }
  }

  /** A client that never asks behind a replay of its own that is still to read beyond the log loses nothing. */
  lemma NeverBehindDelivers(start: Hub, steps: seq<Step>, c: nat)
    requires HubInv(start) && start.clients == map[]
    requires forall k :: 0 <= k < |steps| ==> !BehindAt(start, steps, k, c)
    ensures Delivered(Run(start, steps), c)
  {
    hide HubInv, Delivered;
    RunCalm(start, steps, c);
    CalmDelivers(Run(start, steps), c);
  }

  lemma CalmIsSafe(hub: Hub, c: nat)
    requires HubInv(hub) && Calm(hub, c)
    ensures SafeFrom(hub, c)
  {
    hide HubInv, Calm, Delivered;
    forall steps: seq<Step> | NeverAsks(steps, c) ensures Delivered(Run(hub, steps), c) {
      RunCalm(hub, steps, c);
      CalmDelivers(Run(hub, steps), c);
    }
  }

  // ---------------------------------------------------------------------------
  // A client that will be told to start over
  // ---------------------------------------------------------------------------

  predicate GivenUp(hub: Hub, c: nat) {
    c in hub.clients ==>
      !hub.clients[c].open || hub.clients[c].resynced || hub.clients[c].dropped || BoundToResync(hub, c)
  }

  lemma OverflowsStill(log: seq<nat>, id: nat, replay: Replay)
    requires Overflows(log, replay)
    ensures Overflows(log + [id], replay)
  {
    assert (log + [id])[..|log|] == log;
  }

  lemma CommitGivenUp(hub: Hub, id: nat, c: nat)
    requires c in hub.clients && GivenUp(hub, c)
    ensures GivenUp(Append(hub, id), c)
  {
    hide Overflows, Misses;
    if BoundToResync(hub, c) {
      var r :| r in hub.replays && hub.replays[r].client == c && Overflows(hub.log, hub.replays[r]);
      OverflowsStill(hub.log, id, hub.replays[r]);
    }
  }

  lemma ReadsOverflow(log: seq<nat>, c: nat, after: nat)
    ensures Overflows(log, Reading(c, after)) <==> Overflows(log, Fetched(c, after, ReadAfter(log, after, MAX_REPLAY + 1)))
  {
  }

  lemma ReadGivenUp(hub: Hub, r: nat, c: nat)
    requires c in hub.clients && GivenUp(hub, c) && r in hub.replays && hub.replays[r].Reading?
    ensures GivenUp(Next(hub, ReplayReads(r)), c)
  {
    hide Overflows, ReadAfter;
    var after := Next(hub, ReplayReads(r));
    ReadsOverflow(hub.log, hub.replays[r].client, hub.replays[r].after);
    if BoundToResync(hub, c) {
      var q :| q in hub.replays && hub.replays[q].client == c && Overflows(hub.log, hub.replays[q]);
      assert q in after.replays && after.replays[q].client == c && Overflows(after.log, after.replays[q]);
    }
  }

  /** Another replay, or a replay of another client, changes nothing for the client; its own overflowing one ends in a
      resync. */
  lemma ResumeGivenUp(hub: Hub, r: nat, slow: nat -> bool, c: nat)
    requires c in hub.clients && GivenUp(hub, c) && r in hub.replays && hub.replays[r].Fetched?
    ensures GivenUp(ResumeReplay(hub, r, slow), c)
  {
    hide ReplayAll;
    var after := ResumeReplay(hub, r, slow);
    ReplayAllKeeps(hub.clients[c], hub.replays[r].events, slow);
    if BoundToResync(hub, c) {
      var q :| q in hub.replays && hub.replays[q].client == c && Overflows(hub.log, hub.replays[q]);
      if q != r {
        assert q in after.replays && after.replays[q] == hub.replays[q];
      }
    }
  }

  lemma FailGivenUp(hub: Hub, r: nat, c: nat)
    requires c in hub.clients && GivenUp(hub, c) && r in hub.replays
    ensures GivenUp(FailReplay(hub, r), c)
  {
    hide Overflows;
    var after := FailReplay(hub, r);
    if BoundToResync(hub, c) {
      var q :| q in hub.replays && hub.replays[q].client == c && Overflows(hub.log, hub.replays[q]);
      if q != r {
        assert q in after.replays && after.replays[q] == hub.replays[q];
      }
    }
  }

  /** A step that only adds replays, and changes at most other clients or whether this one is open. */
  lemma OthersGivenUp(hub: Hub, after: Hub, c: nat)
    requires c in hub.clients && GivenUp(hub, c) && after.log == hub.log
    requires forall r :: r in hub.replays ==> r in after.replays && after.replays[r] == hub.replays[r]
    requires c in after.clients ==> after.clients[c] == hub.clients[c].(
                                      open := after.clients[c].open, sent := after.clients[c].sent,
                                      lastEventId := after.clients[c].lastEventId)
                                    && (after.clients[c].open ==> hub.clients[c].open)
    ensures GivenUp(after, c)
  {
    hide Overflows;
    if BoundToResync(hub, c) {
      var q :| q in hub.replays && hub.replays[q].client == c && Overflows(hub.log, hub.replays[q]);
      assert q in after.replays && after.replays[q] == hub.replays[q];
    }
  }

  lemma StepGivenUp(hub: Hub, step: Step, c: nat)
    requires HubInv(hub) && c < hub.nextClient && GivenUp(hub, c) && !(step.Subscribe? && step.client == c)
    ensures GivenUp(Next(hub, step), c) && c < Next(hub, step).nextClient
  {
    hide Kept, Slice, Increasing, ReplayAll, BroadcastAll, ReadAfter, GivenUp, Misses, FailReplay;
    TakenNumbers(hub, c);
    if !Enabled(hub, step) {
    } else if c !in hub.clients {
      StaysAway(hub, step, c);
    } else {
      match step {
        case Commit(id) => CommitGivenUp(hub, id, c);
        case ReplayReads(r) => ReadGivenUp(hub, r, c);
        case ReplayResumes(r, slow) => ResumeGivenUp(hub, r, slow, c);
        case ReplayFails(r) =>
          FailGivenUp(hub, r, c);
          assert FailReplay(hub, r).nextClient == hub.nextClient by {
            FailAddsNobody(hub, r);
          }
        case FlushResumes(slow) =>
          BroadcastOffersAll(hub.clients, hub.flush.events, slow);
          OfferAllKeeps(hub.clients[c], c, hub.flush.events, slow);
          OthersGivenUp(hub, Next(hub, step), c);
        case _ => OthersGivenUp(hub, Next(hub, step), c);
      }
    }
  }

  lemma FailAddsNobody(hub: Hub, r: nat)
    requires r in hub.replays
    ensures FailReplay(hub, r).nextClient == hub.nextClient
  {
  }

  /** A client that has left does not come back under its number. */
  lemma StaysAway(hub: Hub, step: Step, c: nat)
    requires c !in hub.clients && c < hub.nextClient
    ensures GivenUp(Next(hub, step), c) && c < Next(hub, step).nextClient
  {
    hide ReplayAll, BroadcastAll, ReadAfter, Misses, BoundToResync;
    if Enabled(hub, step) && step.FlushResumes? {
      BroadcastOffersAll(hub.clients, hub.flush.events, step.broadcastSlow);
    }
  }

  lemma {:induction false} RunGivenUp(start: Hub, steps: seq<Step>, c: nat)
    requires HubInv(start) && c < start.nextClient && GivenUp(start, c) && NeverAsks(steps, c)
    ensures GivenUp(Run(start, steps), c) && c < Run(start, steps).nextClient && HubInv(Run(start, steps))
    decreases |steps|
  {
    hide HubInv, Next, GivenUp;
    if steps != [] {
      var n := |steps| - 1;
      RunGivenUp(start, steps[..n], c);
      StepGivenUp(Run(start, steps[..n]), steps[n], c);
      StepKeeps(Run(start, steps[..n]), steps[n]);
    }
  }

  lemma GivenUpIsSafe(hub: Hub, c: nat)
    requires HubInv(hub) && c < hub.nextClient && GivenUp(hub, c)
    ensures SafeFrom(hub, c)
  {
    hide HubInv;
    forall steps: seq<Step> | NeverAsks(steps, c) ensures Delivered(Run(hub, steps), c) {
      RunGivenUp(hub, steps, c);
    }
  }

  // ---------------------------------------------------------------------------
  // With such a replay an event can be lost
  // ---------------------------------------------------------------------------

  lemma {:induction false} RunAppends(start: Hub, first: seq<Step>, rest: seq<Step>)
    ensures Run(start, first + rest) == Run(Run(start, first), rest)
    decreases |rest|
  {
    hide Next;
    if rest == [] {
      assert first + rest == first;
    } else {
      var n := |rest| - 1;
      RunAppends(start, first, rest[..n]);
      assert (first + rest)[..|first + rest| - 1] == first + rest[..n];
    }
  }

  lemma RunOne(start: Hub, step: Step)
    ensures Run(start, [step]) == Next(start, step)
  {
    hide Next;
    assert [step][..0] == [];
    assert Run(start, []) == start;
  }

  /** What of a client only sending can change has changed, and it is still open. */
  predicate OnlySent(before: Client, after: Client) {
    after == before.(lastEventId := after.lastEventId, sent := after.sent)
  }

  lemma EndFetched(hub: Hub, c: nat, q: nat) returns (steps: seq<Step>)
    requires HubInv(hub) && c in hub.clients && hub.clients[c].open
    requires q in hub.replays && hub.replays[q].Fetched? && hub.replays[q].client == c && !Overflows(hub.log, hub.replays[q])
    ensures NeverAsks(steps, c) && HubInv(Run(hub, steps))
    ensures var after := Run(hub, steps);
            && c in after.clients && OnlySent(hub.clients[c], after.clients[c])
            && after.log == hub.log && after.replays == hub.replays - {q}
  {
    hide HubInv, ReplayAll, Run;
    steps := [ReplayResumes(q, NeverSlow())];
    RunOne(hub, steps[0]);
    StepKeeps(hub, steps[0]);
    ReplayAllKeeps(hub.clients[c], hub.replays[q].events, NeverSlow());
    NeverSlowStaysOpen(hub.clients[c], hub.replays[q].events);
  }

  /** A replay that does not overflow can be brought to its end without closing the client. */
  lemma EndReplay(hub: Hub, c: nat, q: nat) returns (steps: seq<Step>)
    requires HubInv(hub) && c in hub.clients && hub.clients[c].open
    requires q in hub.replays && hub.replays[q].client == c && !Overflows(hub.log, hub.replays[q])
    ensures NeverAsks(steps, c) && HubInv(Run(hub, steps))
    ensures var after := Run(hub, steps);
            && c in after.clients && OnlySent(hub.clients[c], after.clients[c])
            && after.log == hub.log && after.replays == hub.replays - {q}
  {
    hide HubInv, Run, Overflows, ReadAfter;
    if hub.replays[q].Fetched? {
      steps := EndFetched(hub, c, q);
    } else {
      var read := Next(hub, ReplayReads(q));
      StepKeeps(hub, ReplayReads(q));
      ReadsOverflow(hub.log, c, hub.replays[q].after);
      var rest := EndFetched(read, c, q);
      steps := [ReplayReads(q)] + rest;
      RunAppends(hub, [ReplayReads(q)], rest);
      RunOne(hub, ReplayReads(q));
    }
  }

  lemma EndOthers(hub: Hub, c: nat, r: nat) returns (steps: seq<Step>)
    requires HubInv(hub) && c in hub.clients && hub.clients[c].open && !BoundToResync(hub, c)
    requires r in hub.replays && hub.replays[r].client == c
    ensures NeverAsks(steps, c) && HubInv(Run(hub, steps))
    ensures var after := Run(hub, steps);
            && c in after.clients && OnlySent(hub.clients[c], after.clients[c])
            && after.log == hub.log && r in after.replays && after.replays[r] == hub.replays[r]
            && forall q :: q in after.replays && after.replays[q].client == c ==> q == r
    decreases |hub.replays|
  {
    hide HubInv, Run, Overflows;
    if forall q :: q in hub.replays && hub.replays[q].client == c ==> q == r {
      steps := [];
      RunNothing(hub);
    } else {
      var q :| q in hub.replays && hub.replays[q].client == c && q != r;
      var first := EndReplay(hub, c, q);
      var after := Run(hub, first);
      FewerReplays(hub.replays, q);
      var rest := EndOthers(after, c, r);
      steps := first + rest;
      RunAppends(hub, first, rest);
    }
  }

  lemma RunNothing(hub: Hub)
    ensures Run(hub, []) == hub
  {
  }

  lemma FewerReplays(replays: map<nat, Replay>, q: nat)
    requires q in replays
    ensures |replays - {q}| < |replays|
  {
    assert (replays - {q}).Keys == replays.Keys - {q};
  }

  /** The first event that the replay will skip, and the one with which it moves the client past that. */
  function Skipped(hub: Hub, c: nat): nat
    requires c in hub.clients
  {
    (if hub.clients[c].requested > LatestId(hub.log) then hub.clients[c].requested else LatestId(hub.log)) + 1
  }

  /** A client whose only replay ended by sending one event has been moved to it. */
  predicate MovedPast(hub: Hub, after: Hub, c: nat, skipped: nat, reached: nat)
    requires c in hub.clients
  {
    && after.log == hub.log + [skipped] + [reached] && c in after.clients
    && after.clients[c] == hub.clients[c].(
         lastEventId := reached, sent := hub.clients[c].sent + [reached], exposed := after.clients[c].exposed)
    && forall q :: q in after.replays ==> after.replays[q].client != c
  }

  lemma TwoCommits(hub: Hub, c: nat, skipped: nat, reached: nat)
    requires HubInv(hub) && c in hub.clients && LatestId(hub.log) < skipped < reached
    ensures var grown := Next(Next(hub, Commit(skipped)), Commit(reached));
            && HubInv(grown) && grown.log == hub.log + [skipped] + [reached] && grown.replays == hub.replays
            && c in grown.clients && grown.clients[c] == hub.clients[c].(exposed := grown.clients[c].exposed)
  {
    hide HubInv, Misses, LatestId;
    LatestOfAppended(hub.log, skipped);
    StepKeeps(hub, Commit(skipped));
    StepKeeps(Next(hub, Commit(skipped)), Commit(reached));
  }

  lemma ReadsLast(log: seq<nat>, skipped: nat, reached: nat, after: nat, limit: int)
    requires Increasing(log + [skipped] + [reached]) && skipped <= after < reached && limit >= 1
    ensures ReadAfter(log + [skipped] + [reached], after, limit) == [reached]
  {
    PositionIs(log + [skipped] + [reached], after, |log| + 1);
  }

  lemma SendsOne(client: Client, id: nat)
    requires client.open
    ensures ReplayAll(client, [id], NeverSlow()) == client.(sent := client.sent + [id], lastEventId := id)
  {
    assert [id][..0] == [];
  }

  lemma OldReplayMoves(hub: Hub, c: nat, r: nat, skipped: nat, reached: nat)
    requires HubInv(hub) && c in hub.clients && hub.clients[c].open
    requires r in hub.replays && hub.replays[r].Reading? && hub.replays[r].client == c
    requires forall q :: q in hub.replays && hub.replays[q].client == c ==> q == r
    requires LatestId(hub.log) < skipped <= hub.replays[r].after < reached
    ensures var grown := Next(Next(hub, Commit(skipped)), Commit(reached));
            var moved := Next(Next(grown, ReplayReads(r)), ReplayResumes(r, NeverSlow()));
            HubInv(moved) && MovedPast(hub, moved, c, skipped, reached)
  {
    hide ReplayAll, ReadAfter, Append, LatestId;
    var grown := Next(Next(hub, Commit(skipped)), Commit(reached));
    var read := Next(grown, ReplayReads(r));
    TwoCommits(hub, c, skipped, reached);
    ReadsLast(hub.log, skipped, reached, hub.replays[r].after, MAX_REPLAY + 1);
    hide HubInv;
    StepKeeps(grown, ReplayReads(r));
    StepKeeps(read, ReplayResumes(r, NeverSlow()));
    SendsOne(read.clients[c], reached);
  }

  // ---------------------------------------------------------------------------
  // The broadcast catches up
  // ---------------------------------------------------------------------------

  lemma {:induction false} OffersNothingOld(client: Client, c: nat, rows: seq<nat>, slow: (nat, nat) -> bool)
    requires forall i :: 0 <= i < |rows| ==> rows[i] <= client.lastEventId
    ensures OfferAll(client, c, rows, slow) == client
  {
    if rows != [] {
      OffersNothingOld(client, c, rows[..|rows| - 1], slow);
    }
  }

  /** Rounds of the broadcast pass a client that stands at the end of the log. */
  lemma RoundPasses(hub: Hub, c: nat)
    requires HubInv(hub) && c in hub.clients && hub.flush.Answered? && LatestId(hub.log) <= hub.clients[c].lastEventId
    ensures var after := ResumeFlush(hub, NobodySlow());
            && c in after.clients && after.clients[c] == hub.clients[c]
            && after.log == hub.log && after.replays == hub.replays && !after.flush.Answered?
            && hub.latestBroadcastId <= after.latestBroadcastId
            && (hub.flush.events != [] ==> hub.latestBroadcastId < after.latestBroadcastId)
  {
    hide BroadcastAll, OfferAll, LatestId, Slice, Increasing, Kept;
    var events := hub.flush.events;
    BroadcastOffersAll(hub.clients, events, NobodySlow());
    forall i | 0 <= i < |events| ensures events[i] <= hub.clients[c].lastEventId {
      SliceHolds(hub.log, hub.latestBroadcastId, events, events[i]);
    }
    OffersNothingOld(hub.clients[c], c, events, NobodySlow());
    SliceHolds(hub.log, hub.latestBroadcastId, events, LatestId(hub.log));
  }

  lemma ReadsSomething(hub: Hub)
    requires HubInv(hub) && hub.latestBroadcastId < LatestId(hub.log)
    ensures ReadAfter(hub.log, hub.latestBroadcastId, MAX_REPLAY) != []
  {
    hide Kept;
    ReadIsNext(hub.log, hub.latestBroadcastId, MAX_REPLAY);
  }

  /** How many stretches of the broadcast are left until it has moved on. */
  function Stretches(flush: Flush): nat {
    match flush
    case Answered(events) => if events == [] then 3 else 0
    case Idle => 2
    case Querying => 1
  }

  /** The next stretch of the broadcast brings it closer to the end of the log, and passes the client. */
  lemma Stretch(hub: Hub, c: nat) returns (step: Step)
    requires HubInv(hub) && c in hub.clients && hub.latestBroadcastId < LatestId(hub.log) <= hub.clients[c].lastEventId
    ensures !step.Subscribe? && HubInv(Next(hub, step))
    ensures var after := Next(hub, step);
            && after.log == hub.log && after.replays == hub.replays
            && c in after.clients && after.clients[c] == hub.clients[c]
            && hub.latestBroadcastId <= after.latestBroadcastId
            && (hub.latestBroadcastId == after.latestBroadcastId ==> Stretches(after.flush) < Stretches(hub.flush))
  {
    hide HubInv, LatestId, BroadcastAll, ReadAfter, ResumeFlush;
    if hub.flush.Idle? {
      step := FlushStarts;
    } else if hub.flush.Querying? {
      step := FlushReads;
      ReadsSomething(hub);
    } else {
      step := FlushResumes(NobodySlow());
      RoundPasses(hub, c);
    }
    StepKeeps(hub, step);
  }

  lemma CatchUp(hub: Hub, c: nat) returns (steps: seq<Step>)
    requires HubInv(hub) && c in hub.clients && LatestId(hub.log) <= hub.clients[c].lastEventId
    ensures NeverAsks(steps, c)
    ensures var after := Run(hub, steps);
            && after.log == hub.log && after.replays == hub.replays && after.latestBroadcastId == LatestId(hub.log)
            && c in after.clients && after.clients[c] == hub.clients[c]
    decreases LatestId(hub.log) - hub.latestBroadcastId, Stretches(hub.flush)
  {
    hide HubInv, Run, LatestId, Next, Stretches;
    BroadcastBehind(hub);
    if hub.latestBroadcastId == LatestId(hub.log) {
      steps := [];
      RunNothing(hub);
    } else {
      var step := Stretch(hub, c);
      RunOne(hub, step);
      BroadcastBehind(Next(hub, step));
      var rest := CatchUp(Next(hub, step), c);
      steps := [step] + rest;
      RunAppends(hub, [step], rest);
    }
  }

  lemma BroadcastBehind(hub: Hub)
    requires HubInv(hub)
    ensures hub.latestBroadcastId <= LatestId(hub.log)
  {
  }

  // ---------------------------------------------------------------------------
  // The exact condition
  // ---------------------------------------------------------------------------

  /** With one replay left, that has not read and starts beyond the log, there is a continuation that loses an event. */
  lemma LastReplayLoses(hub: Hub, c: nat, r: nat) returns (steps: seq<Step>)
    requires HubInv(hub) && c in hub.clients && hub.clients[c].open
    requires !hub.clients[c].resynced && !hub.clients[c].dropped
    requires r in hub.replays && hub.replays[r].Reading? && hub.replays[r].client == c
    requires forall q :: q in hub.replays && hub.replays[q].client == c ==> q == r
    requires hub.clients[c].requested < hub.replays[r].after && LatestId(hub.log) < hub.replays[r].after
    ensures NeverAsks(steps, c) && !Delivered(Run(hub, steps), c)
  {
    hide HubInv, Run, Next, LatestId, Delivered;
    var skipped, reached := Skipped(hub, c), hub.replays[r].after + 1;
    OldReplayMoves(hub, c, r, skipped, reached);
    var moved := Next(Next(Next(Next(hub, Commit(skipped)), Commit(reached)), ReplayReads(r)), ReplayResumes(r, NeverSlow()));
    var first := FourSteps(hub, Commit(skipped), Commit(reached), ReplayReads(r), ReplayResumes(r, NeverSlow()));
    LatestOfAppended(hub.log + [skipped], reached);
    var rest := CatchUp(moved, c);
    steps := first + rest;
    RunAppends(hub, first, rest);
    SkippedIsUnsent(hub, c, skipped, reached);
    SkippedIsLost(hub, moved, Run(moved, rest), c, skipped, reached);
  }

  lemma FourSteps(hub: Hub, s0: Step, s1: Step, s2: Step, s3: Step) returns (steps: seq<Step>)
    ensures steps == [s0, s1, s2, s3]
    ensures Run(hub, steps) == Next(Next(Next(Next(hub, s0), s1), s2), s3)
  {
    hide Next;
    steps := [s0, s1, s2, s3];
    RunOne(hub, s0);
    assert [s0, s1][..1] == [s0];
    assert Run(hub, [s0, s1]) == Next(Run(hub, [s0]), s1);
    assert [s0, s1, s2][..2] == [s0, s1];
    assert Run(hub, [s0, s1, s2]) == Next(Run(hub, [s0, s1]), s2);
    assert steps[..3] == [s0, s1, s2];
  }

  lemma SkippedIsUnsent(hub: Hub, c: nat, skipped: nat, reached: nat)
    requires HubInv(hub) && c in hub.clients && LatestId(hub.log) < skipped < reached
    ensures skipped !in hub.clients[c].sent + [reached]
  {
    hide Owed;
    KeptOf(hub, c);
    forall e | e in hub.log ensures e < skipped {
      LastIsMost(hub.log, e);
    }
  }

  lemma SkippedIsLost(hub: Hub, moved: Hub, after: Hub, c: nat, skipped: nat, reached: nat)
    requires c in hub.clients && MovedPast(hub, moved, c, skipped, reached) && skipped < reached
    requires hub.clients[c].open && !hub.clients[c].resynced && !hub.clients[c].dropped
    requires hub.clients[c].requested < skipped && skipped !in hub.clients[c].sent + [reached]
    requires after.log == moved.log && after.replays == moved.replays && after.latestBroadcastId == reached
    requires c in after.clients && after.clients[c] == moved.clients[c]
    ensures !Delivered(after, c)
  {
    assert skipped in after.log;
  }

  lemma EndangeredLoses(hub: Hub, c: nat) returns (steps: seq<Step>)
    requires HubInv(hub) && c in hub.clients && hub.clients[c].open
    requires !hub.clients[c].resynced && !hub.clients[c].dropped
    requires Endangered(hub, c) && !BoundToResync(hub, c)
    ensures NeverAsks(steps, c) && !Delivered(Run(hub, steps), c)
  {
    hide HubInv, Run, LatestId, Delivered, BoundToResync;
    var r :| r in hub.replays && hub.replays[r].Reading? && hub.replays[r].client == c
             && hub.clients[c].requested < hub.replays[r].after && LatestId(hub.log) < hub.replays[r].after;
    var first := EndOthers(hub, c, r);
    var rest := LastReplayLoses(Run(hub, first), c, r);
    steps := first + rest;
    RunAppends(hub, first, rest);
  }

  /** A served client loses nothing whatever happens until it asks again, if and only if no replay of it that has not
      read yet starts beyond both its request and the log, unless another replay will tell it to start over anyway. */
  lemma SafeExactly(hub: Hub, c: nat)
    requires HubInv(hub) && c in hub.clients && Served(hub.clients[c])
    ensures SafeFrom(hub, c) <==> !Endangered(hub, c) || BoundToResync(hub, c)
  {
    hide HubInv, Endangered, BoundToResync, Delivered;
    if !Endangered(hub, c) {
      CalmIsSafe(hub, c);
    } else if BoundToResync(hub, c) {
      TakenNumbers(hub, c);
      GivenUpIsSafe(hub, c);
    } else {
      var steps := EndangeredLoses(hub, c);
    }
  }

  /** The same for an ask, in terms of the state the client asks in. */
  lemma AskSafeExactly(hub: Hub, c: nat, after: nat)
    requires HubInv(hub) && c in hub.clients
    ensures var asked := Next(hub, Subscribe(c, after));
            SafeFrom(asked, c)
            <==> !AsksBehind(hub, c, after)
                 || !hub.clients[c].open || hub.latestBroadcastId > after + hub.maxReplayLag || BoundToResync(asked, c)
  {
    hide HubInv, SafeFrom, BoundToResync;
    var asked := Next(hub, Subscribe(c, after));
    StepKeeps(hub, Subscribe(c, after));
    if ReplayTooOld(hub, after) || !hub.clients[c].open {
      TakenNumbers(asked, c);
      GivenUpIsSafe(asked, c);
    } else {
      SafeExactly(asked, c);
      TakenReplays(hub);
      assert forall r :: r in hub.replays ==> asked.replays[r] == hub.replays[r];
    }
  }

  lemma TakenReplays(hub: Hub)
    requires HubInv(hub)
    ensures hub.nextReplay !in hub.replays
  {
  }

  /** A client that has just joined loses nothing, from wherever it asked, until it asks again. */
  lemma JoinIsSafe(hub: Hub, after: nat)
    requires HubInv(hub) && |hub.clients| < hub.maxClients
    ensures SafeFrom(Next(hub, Join(after)), hub.nextClient)
  {
    hide HubInv, SafeFrom, BoundToResync;
    var joined := Next(hub, Join(after));
    StepKeeps(hub, Join(after));
    TakenNumbers(hub, hub.nextClient);
    TakenNumbers(joined, hub.nextClient);
    if ReplayTooOld(hub, after) {
      GivenUpIsSafe(joined, hub.nextClient);
    } else {
      SafeExactly(joined, hub.nextClient);
    }
  }

  // ---------------------------------------------------------------------------
  // An input that loses
  // ---------------------------------------------------------------------------

  /** The hub after a client has asked from 5 and then from 0 of an empty outbox, and the second replay is done. */
  function AskedAhead(): Hub {
    Hub([], map[0 := Client(0, true, [], 0, false, false, false)], 1, 0, map[0 := Reading(0, 5)], 2, Idle, 1, 0)
  }

  function AskedTwice(): Hub {
    Hub([], map[0 := Client(0, true, [], 0, false, false, false)], 1, 0, map[0 := Reading(0, 5), 1 := Reading(0, 0)], 2, Idle, 1, 0)
  }

  lemma AskedTwiceIsReached()
    ensures Next(Next(Started([], 1, 0), Join(5)), Subscribe(0, 0)) == AskedTwice()
  {
    hide ReplayAll, BroadcastAll, ReadAfter;
    var joined := Next(Started([], 1, 0), Join(5));
    assert joined == Hub([], map[0 := Client(5, true, [], 5, false, false, false)], 1, 0, map[0 := Reading(0, 5)], 1, Idle, 1, 0);
    assert Next(joined, Subscribe(0, 0)).clients == AskedTwice().clients;
    assert Next(joined, Subscribe(0, 0)).replays == AskedTwice().replays;
  }

  lemma AskedAheadIsReached()
    ensures Next(Next(AskedTwice(), ReplayReads(1)), ReplayResumes(1, NeverSlow())) == AskedAhead()
  {
    assert ReadAfter([], 0, MAX_REPLAY + 1) == [];
    assert ReplayAll(AskedTwice().clients[0], [], NeverSlow()) == AskedTwice().clients[0];
    hide ReplayAll, BroadcastAll, ReadAfter;
    var read := Next(AskedTwice(), ReplayReads(1));
    assert read.replays == map[0 := Reading(0, 5), 1 := Fetched(0, 0, [])];
    assert Next(read, ReplayResumes(1, NeverSlow())).replays == AskedAhead().replays;
    assert Next(read, ReplayResumes(1, NeverSlow())).clients == AskedAhead().clients;
  }

  /** A client that once asked beyond the log can lose an event: the old replay moves it past what the broadcast skips. */
  lemma AskingAheadLoses()
    ensures var grown := Next(Next(AskedAhead(), Commit(1)), Commit(6));
            var moved := Next(Next(grown, ReplayReads(0)), ReplayResumes(0, NeverSlow()));
            var hub := Next(Next(Next(moved, FlushStarts), FlushReads), FlushResumes(NobodySlow()));
            0 in hub.clients && hub.clients[0].open && !hub.clients[0].resynced && NoReplay(hub, 0)
            && 1 in hub.log && hub.clients[0].requested < 1 <= hub.latestBroadcastId && 1 !in hub.clients[0].sent
  {
    hide OfferAll, ReplayAll, BroadcastAll, ReadAfter;
    var grown := Next(Next(AskedAhead(), Commit(1)), Commit(6));
    assert Misses(AskedAhead(), 0, 1) by {
      assert Overshot(AskedAhead().replays, 0, 1) by { assert AskedAhead().replays[0] == Reading(0, 5); }
    }
    assert Next(AskedAhead(), Commit(1)).clients == map[0 := Client(0, true, [], 0, false, false, true)];
    assert grown.log == [1, 6] && grown.replays == AskedAhead().replays;
    assert grown.clients == map[0 := Client(0, true, [], 0, false, false, true)];
    ReadsSecond([1, 6], 5, MAX_REPLAY + 1);
    var fetched := Next(grown, ReplayReads(0));
    assert fetched.replays == map[0 := Fetched(0, 5, [6])];
    ReplaysOne(fetched.clients[0], 6);
    assert fetched.clients[0].sent + [6] == [6];
    var moved := Next(fetched, ReplayResumes(0, NeverSlow()));
    assert moved.clients == map[0 := Client(6, true, [6], 0, false, false, true)];
    assert moved.replays == map[];
    BroadcastSkips(moved, 0, 1, 6);
  }

  lemma BroadcastSkips(hub: Hub, c: nat, a: nat, b: nat)
    requires hub.log == [a, b] && 0 < a < b && hub.latestBroadcastId == 0 && hub.flush.Idle?
    requires c in hub.clients && hub.clients[c].lastEventId >= b
    ensures var after := Next(Next(Next(hub, FlushStarts), FlushReads), FlushResumes(NobodySlow()));
            && after.latestBroadcastId == b && after.log == hub.log && after.replays == hub.replays
            && c in after.clients && after.clients[c] == hub.clients[c]
  {
    hide OfferAll, BroadcastAll, ReadAfter;
    ReadsTwo(hub.log, 0, MAX_REPLAY);
    BroadcastOffersAll(hub.clients, [a, b], NobodySlow());
    OffersNothing(hub.clients[c], c, a, b);
  }

  lemma ReadsSecond(log: seq<nat>, after: nat, limit: int)
    requires |log| == 2 && log[0] <= after < log[1] && limit >= 1
    ensures ReadAfter(log, after, limit) == [log[1]]
  {
    assert log[..1][..0] == [];
    assert Position(log[..1], after) == 1;
  }

  lemma ReplaysOne(client: Client, a: nat)
    requires client.open
    ensures ReplayAll(client, [a], NeverSlow()) == client.(sent := client.sent + [a], lastEventId := a)
  {
    assert [a][..0] == [];
  }

  lemma OffersNothing(client: Client, c: nat, a: nat, b: nat)
    requires a < b <= client.lastEventId
    ensures OfferAll(client, c, [a, b], NobodySlow()) == client
  {
    assert [a, b][..1] == [a] && [a][..0] == [];
    assert OfferAll(client, c, [a], NobodySlow()) == client;
  }
}

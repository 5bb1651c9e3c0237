/** When the hub sends a client its events in order and each once, and what makes it send them again. */
module RealtimeOrder {
  import opened OutboxReads
  import opened RealtimeHub

  // ---------------------------------------------------------------------------
  // One stretch of sending
  // ---------------------------------------------------------------------------

  lemma AppendOrder(sent: seq<nat>, id: nat)
    ensures Increasing(sent + [id]) <==> Increasing(sent) && LatestId(sent) < id
  {
    var longer := sent + [id];
    assert forall i :: 0 <= i < |sent| ==> longer[i] == sent[i];
    assert longer[|sent|] == id;
  }

  /** A replay keeps the order exactly when its first row is refused or lies above everything that was sent. */
  lemma {:induction false} ReplayOrder(client: Client, rows: seq<nat>, slow: nat -> bool)
    requires client.open && Increasing(rows) && rows != []
    ensures Increasing(ReplayAll(client, rows, slow).sent)
            <==> Increasing(client.sent) && (slow(rows[0]) || LatestId(client.sent) < rows[0])
  {
    var n := |rows| - 1;
    var before := ReplayAll(client, rows[..n], slow);
    if n > 0 {
      ReplayOrder(client, rows[..n], slow);
      ReplayAllSends(client, rows[..n], slow);
    }
    AppendOrder(before.sent, rows[n]);
  }

  /** What a broadcast does for one client is what a replay of the rows above its position would do. */
  lemma {:induction false} OffersAsReplay(client: Client, c: nat, rows: seq<nat>, slow: (nat, nat) -> bool)
    requires Increasing(rows)
    ensures OfferAll(client, c, rows, slow) == ReplayAll(client, RowsAbove(rows, client.lastEventId), ToClient(slow, c))
  {
    if rows != [] {
      var n := |rows| - 1;
      var p := Position(rows[..n], client.lastEventId);
      OffersAsReplay(client, c, rows[..n], slow);
      OfferAllKeeps(client, c, rows[..n], slow);
      if rows[n] <= client.lastEventId {
        AllBelow(rows, client.lastEventId);
        assert RowsAbove(rows[..n], client.lastEventId) == [];
      } else {
        var above := RowsAbove(rows, client.lastEventId);
        assert above[..|above| - 1] == RowsAbove(rows[..n], client.lastEventId);
      }
    }
  }

  function ToClient(slow: (nat, nat) -> bool, c: nat): nat -> bool {
    (e: nat) => slow(c, e)
  }

  function RowsAbove(rows: seq<nat>, position: nat): seq<nat> {
    rows[Position(rows, position)..]
  }

  lemma RowsAboveIncrease(rows: seq<nat>, position: nat)
    requires Increasing(rows)
    ensures Increasing(RowsAbove(rows, position))
    ensures RowsAbove(rows, position) != [] ==> RowsAbove(rows, position)[0] > position
    ensures forall e :: e in rows && e > position ==> RowsAbove(rows, position) != [] && RowsAbove(rows, position)[0] <= e
  {
    PositionSplits(rows, position);
  }

  // ---------------------------------------------------------------------------
  // One step
  // ---------------------------------------------------------------------------

  /** The first row is taken, and lies at or below something that was sent already. */
  predicate SendsOld(sent: seq<nat>, rows: seq<nat>, slow: nat -> bool) {
    rows != [] && !slow(rows[0]) && rows[0] <= LatestId(sent)
  }

  /** Whether the step is about to send the client an event at or below one that it was sent. */
  predicate Repeats(hub: Hub, step: Step, c: nat) {
    && Enabled(hub, step) && c in hub.clients && hub.clients[c].open
    && match step
       case ReplayResumes(r, slow) =>
         && hub.replays[r].client == c && |hub.replays[r].events| <= MAX_REPLAY
         && SendsOld(hub.clients[c].sent, hub.replays[r].events, slow)
       case FlushResumes(slow) =>
         SendsOld(hub.clients[c].sent, RowsAbove(hub.flush.events, hub.clients[c].lastEventId), ToClient(slow, c))
       case _ => false
  }

  lemma ReplayStepOrder(hub: Hub, r: nat, slow: nat -> bool)
    requires HubInv(hub) && r in hub.replays && hub.replays[r].Fetched? && hub.replays[r].client in hub.clients
    ensures var c := hub.replays[r].client;
            Increasing(ResumeReplay(hub, r, slow).clients[c].sent)
            <==> Increasing(hub.clients[c].sent) && !Repeats(hub, ReplayResumes(r, slow), c)
  {
    hide Increasing, ReplayAll, LatestId, HubInv;
    var Fetched(c, position, events) := hub.replays[r];
    FetchedSlice(hub, r);
    SliceIncreases(hub.log, position, events);
    hide Slice;
    if !hub.clients[c].open {
      ReplayClosed(hub.clients[c], events, slow);
    } else if events == [] {
      NoRows(hub.clients[c], slow);
    } else {
      ReplayOrder(hub.clients[c], events, slow);
    }
  }

  lemma NoRows(client: Client, slow: nat -> bool)
    ensures ReplayAll(client, [], slow) == client
  {
  }

  lemma {:induction false} ReplayClosed(client: Client, rows: seq<nat>, slow: nat -> bool)
    requires !client.open
    ensures ReplayAll(client, rows, slow) == client
  {
    if rows != [] {
      ReplayClosed(client, rows[..|rows| - 1], slow);
    }
  }

  lemma FlushStepOrder(hub: Hub, slow: (nat, nat) -> bool, c: nat)
    requires HubInv(hub) && hub.flush.Answered? && c in hub.clients && c in ResumeFlush(hub, slow).clients
    ensures Increasing(ResumeFlush(hub, slow).clients[c].sent)
            <==> Increasing(hub.clients[c].sent) && !Repeats(hub, FlushResumes(slow), c)
  {
    hide Increasing, ReplayAll, BroadcastAll, OfferAll, LatestId, RowsAbove;
    var rows := RowsAbove(hub.flush.events, hub.clients[c].lastEventId);
    SliceIncreases(hub.log, hub.latestBroadcastId, hub.flush.events);
    hide HubInv;
    RowsAboveIncrease(hub.flush.events, hub.clients[c].lastEventId);
    BroadcastOffersAll(hub.clients, hub.flush.events, slow);
    OffersAsReplay(hub.clients[c], c, hub.flush.events, slow);
    if !hub.clients[c].open {
      ReplayClosed(hub.clients[c], rows, ToClient(slow, c));
    } else if rows == [] {
      NoRows(hub.clients[c], ToClient(slow, c));
    } else {
      ReplayOrder(hub.clients[c], rows, ToClient(slow, c));
    }
  }

  /** A step leaves what a client was sent in order exactly when it was and the step does not repeat. */
  lemma StepOrder(hub: Hub, step: Step, c: nat)
    requires HubInv(hub) && c in hub.clients && c in Next(hub, step).clients
    ensures Increasing(Next(hub, step).clients[c].sent)
            <==> Increasing(hub.clients[c].sent) && !Repeats(hub, step, c)
  {
    hide HubInv, Increasing, ResumeReplay, ResumeFlush, LatestId, Misses;
    if Enabled(hub, step) && step.ReplayResumes? {
      var Fetched(client, position, events) := hub.replays[step.replay];
      if client == c {
        ReplayStepOrder(hub, step.replay, step.slow);
      } else {
        OtherReplay(hub, step.replay, step.slow, c);
      }
    } else if Enabled(hub, step) && step.FlushResumes? {
      FlushStepOrder(hub, step.broadcastSlow, c);
    } else {
      SendsNothing(hub, step, c);
    }
  }

  lemma SendsNothing(hub: Hub, step: Step, c: nat)
    requires HubInv(hub) && c in hub.clients && c in Next(hub, step).clients
    requires Enabled(hub, step) ==> !step.ReplayResumes? && !step.FlushResumes?
    ensures Next(hub, step).clients[c].sent == hub.clients[c].sent
    ensures !(step.Subscribe? && step.client == c)
            ==> && Next(hub, step).clients[c].lastEventId == hub.clients[c].lastEventId
                && Next(hub, step).clients[c].requested == hub.clients[c].requested
                && SameReplays(hub, Next(hub, step), c)
    ensures step.Subscribe? && step.client == c ==> Next(hub, step).clients[c].lastEventId == step.after
  {
    TakenNumbers(hub, c);
    hide HubInv, Misses, ReadAfter;
  }

  predicate SameReplays(before: Hub, after: Hub, c: nat) {
    forall r :: r in after.replays && after.replays[r].client == c
                ==> r in before.replays && before.replays[r].client == c && after.replays[r].after == before.replays[r].after
  }

  lemma OtherReplay(hub: Hub, r: nat, slow: nat -> bool, c: nat)
    requires r in hub.replays && hub.replays[r].Fetched? && hub.replays[r].client != c && c in hub.clients
    ensures c in ResumeReplay(hub, r, slow).clients && ResumeReplay(hub, r, slow).clients[c] == hub.clients[c]
  {
    hide ReplayAll;
  }

  // ---------------------------------------------------------------------------
  // Whole runs
  // ---------------------------------------------------------------------------

  predicate RepeatsAt(start: Hub, steps: seq<Step>, k: nat, c: nat)
    requires k < |steps|
  {
    Repeats(Run(start, steps[..k]), steps[k], c)
  }

  /** A client that a step brings in is the next one, and was sent nothing. */
  lemma Joins(hub: Hub, step: Step, c: nat)
    requires c !in hub.clients && c in Next(hub, step).clients
    ensures c == hub.nextClient && Next(hub, step).clients[c].sent == []
  {
    hide Misses, ReplayAll, BroadcastAll;
    if Enabled(hub, step) && step.FlushResumes? {
      BroadcastOffersAll(hub.clients, hub.flush.events, step.broadcastSlow);
    }
  }

  lemma NumbersGrow(hub: Hub, step: Step)
    ensures hub.nextClient <= Next(hub, step).nextClient
  {
    hide Misses, ReplayAll, BroadcastAll;
  }

  /** A client number that is still free was never taken. */
  lemma {:induction false} NeverBefore(start: Hub, steps: seq<Step>, k: nat, c: nat)
    requires HubInv(start) && k <= |steps| && c >= Run(start, steps).nextClient
    ensures c !in Run(start, steps[..k]).clients
    decreases |steps|
  {
    hide HubInv, Next;
    if k == |steps| {
      assert steps[..k] == steps;
      RunKeeps(start, steps);
      TakenNumbers(Run(start, steps), c);
    } else {
      var n := |steps| - 1;
      NumbersGrow(Run(start, steps[..n]), steps[n]);
      NeverBefore(start, steps[..n], k, c);
      assert steps[..n][..k] == steps[..k];
    }
  }

  /** What a client was sent is in order, each event once, exactly when no step of the run repeated. */
  lemma {:induction false} RunOrder(start: Hub, steps: seq<Step>, c: nat)
    requires HubInv(start) && start.clients == map[] && c in Run(start, steps).clients
    ensures Increasing(Run(start, steps).clients[c].sent)
            <==> forall k :: 0 <= k < |steps| ==> !RepeatsAt(start, steps, k, c)
    decreases |steps|
  {
    hide HubInv, Next, Repeats, Increasing;
    var n := |steps| - 1;
    var hub := Run(start, steps[..n]);
    RunKeeps(start, steps[..n]);
    assert forall k :: 0 <= k < n ==> steps[..n][..k] == steps[..k];
    assert forall k :: 0 <= k < n ==> RepeatsAt(start, steps[..n], k, c) == RepeatsAt(start, steps, k, c);
    if c in hub.clients {
      RunOrder(start, steps[..n], c);
      StepOrder(hub, steps[n], c);
      assert RepeatsAt(start, steps, n, c) == Repeats(hub, steps[n], c);
    } else {
      NewcomerOrder(start, steps, c);
    }
  }

  lemma NewcomerOrder(start: Hub, steps: seq<Step>, c: nat)
    requires HubInv(start) && steps != [] && c in Run(start, steps).clients
    requires c !in Run(start, steps[..|steps| - 1]).clients
    ensures Increasing(Run(start, steps).clients[c].sent)
    ensures forall k :: 0 <= k < |steps| ==> !RepeatsAt(start, steps, k, c)
  {
    hide HubInv, Next;
    var n := |steps| - 1;
    Joins(Run(start, steps[..n]), steps[n], c);
    forall k | 0 <= k < |steps| ensures !RepeatsAt(start, steps, k, c) {
      NeverBefore(start, steps[..n], k, c);
      assert steps[..n][..k] == steps[..k];
    }
  }

  // ---------------------------------------------------------------------------
  // Clients that never ask from below what they were sent
  // ---------------------------------------------------------------------------

  /** The client asks from below the last event that it was sent. */
  predicate AsksBack(hub: Hub, step: Step, c: nat) {
    && step.Subscribe? && step.client == c && c in hub.clients
    && step.after < LatestId(hub.clients[c].sent)
  }

  predicate AsksBackAt(start: Hub, steps: seq<Step>, k: nat, c: nat)
    requires k < |steps|
  {
    AsksBack(Run(start, steps[..k]), steps[k], c)
  }

  /** A replay of the client is about to send its first row. */
  predicate StartsSending(hub: Hub, step: Step, c: nat) {
    && Enabled(hub, step) && step.ReplayResumes? && hub.replays[step.replay].client == c
    && c in hub.clients && hub.clients[c].open
    && 0 < |hub.replays[step.replay].events| <= MAX_REPLAY && !step.slow(hub.replays[step.replay].events[0])
  }

  /** By the time a replay sends, the client was sent an event above the replay's position. */
  predicate Overrun(hub: Hub, step: Step, c: nat) {
    StartsSending(hub, step, c) && hub.replays[step.replay].after < LatestId(hub.clients[c].sent)
  }

  predicate OverrunAt(start: Hub, steps: seq<Step>, k: nat, c: nat)
    requires k < |steps|
  {
    Overrun(Run(start, steps[..k]), steps[k], c)
  }

  /** A replay repeats exactly when something above its position was sent before it. */
  lemma ReplayRepeats(hub: Hub, step: Step, c: nat)
    requires HubInv(hub) && step.ReplayResumes?
    ensures Repeats(hub, step, c) <==> Overrun(hub, step, c)
  {
    hide HubInv;
    if Enabled(hub, step) && c in hub.clients && hub.replays[step.replay].client == c && hub.replays[step.replay].events != [] {
      FirstRowAndSent(hub, step.replay);
    }
  }

  lemma FirstRowAndSent(hub: Hub, r: nat)
    requires HubInv(hub) && r in hub.replays && hub.replays[r].Fetched? && hub.replays[r].events != []
    requires hub.replays[r].client in hub.clients
    ensures var last := LatestId(hub.clients[hub.replays[r].client].sent);
            hub.replays[r].events[0] <= last <==> hub.replays[r].after < last
  {
    hide Owed;
    var Fetched(c, position, events) := hub.replays[r];
    KeptOf(hub, c);
    FetchedSlice(hub, r);
    PositionSplits(hub.log, position);
    var p := Position(hub.log, position);
    assert hub.log[p] == events[0];
    var sent := hub.clients[c].sent;
    if sent != [] && position < LatestId(sent) {
      assert LatestId(sent) in sent;
      var i :| 0 <= i < |hub.log| && hub.log[i] == LatestId(sent);
      assert p <= i;
    }
  }

  /** A broadcast repeats exactly when the client takes its first row and some row lies between its position and what
      it was sent last. */
  lemma BroadcastRepeats(hub: Hub, slow: (nat, nat) -> bool, c: nat)
    requires HubInv(hub) && hub.flush.Answered? && c in hub.clients && hub.clients[c].open
    ensures var rows := RowsAbove(hub.flush.events, hub.clients[c].lastEventId);
            Repeats(hub, FlushResumes(slow), c)
            <==> (rows != [] && !slow(c, rows[0]))
                 && exists e :: e in hub.flush.events && hub.clients[c].lastEventId < e <= LatestId(hub.clients[c].sent)
  {
    hide Kept, Position;
    SliceIncreases(hub.log, hub.latestBroadcastId, hub.flush.events);
    RowsAboveIncrease(hub.flush.events, hub.clients[c].lastEventId);
    var rows := RowsAbove(hub.flush.events, hub.clients[c].lastEventId);
    if rows != [] {
      assert rows[0] in hub.flush.events;
    }
  }

  /** Where a client stands after rows are sent to it. */
  lemma {:induction false} ReplayStands(client: Client, rows: seq<nat>, slow: nat -> bool)
    ensures var after := ReplayAll(client, rows, slow);
            || (after.sent == client.sent && after.lastEventId == client.lastEventId)
            || (after.sent != [] && after.lastEventId == LatestId(after.sent) && after.lastEventId in rows)
  {
    if rows != [] {
      ReplayStands(client, rows[..|rows| - 1], slow);
    }
  }

  lemma FlushStands(hub: Hub, slow: (nat, nat) -> bool, c: nat)
    requires HubInv(hub) && hub.flush.Answered? && c in hub.clients && c in ResumeFlush(hub, slow).clients
    ensures var (before, after) := (hub.clients[c], ResumeFlush(hub, slow).clients[c]);
            && after.requested == before.requested
            && (|| (after.sent == before.sent && after.lastEventId == before.lastEventId)
                || (after.sent != [] && after.lastEventId == LatestId(after.sent) && after.lastEventId > before.lastEventId))
  {
    hide Increasing, ReplayAll, BroadcastAll, OfferAll, LatestId, RowsAbove, Position;
    var rows := RowsAbove(hub.flush.events, hub.clients[c].lastEventId);
    SliceIncreases(hub.log, hub.latestBroadcastId, hub.flush.events);
    hide HubInv;
    RowsAboveAreAbove(hub.flush.events, hub.clients[c].lastEventId);
    BroadcastOffersAll(hub.clients, hub.flush.events, slow);
    OffersAsReplay(hub.clients[c], c, hub.flush.events, slow);
    OfferAllKeeps(hub.clients[c], c, hub.flush.events, slow);
    ReplayStands(hub.clients[c], rows, ToClient(slow, c));
  }

  lemma RowsAboveAreAbove(rows: seq<nat>, position: nat)
    requires Increasing(rows)
    ensures forall e :: e in RowsAbove(rows, position) ==> e > position
  {
    PositionSplits(rows, position);
  }

  /** The client stands at or above everything that it was sent. */
  predicate Stands(hub: Hub, c: nat) {
    c in hub.clients ==> LatestId(hub.clients[c].sent) <= hub.clients[c].lastEventId
  }

  lemma StepStands(hub: Hub, step: Step, c: nat)
    requires HubInv(hub) && Stands(hub, c) && !AsksBack(hub, step, c)
    ensures Stands(Next(hub, step), c)
  {
    hide HubInv, LatestId, Misses, ReplayAll, ResumeFlush;
    if c !in Next(hub, step).clients {
    } else if c !in hub.clients {
      JoinStands(hub, step, c);
    } else if Enabled(hub, step) && step.ReplayResumes? {
      ReplayStands(hub.clients[c], hub.replays[step.replay].events, step.slow);
    } else if Enabled(hub, step) && step.FlushResumes? {
      FlushStands(hub, step.broadcastSlow, c);
    } else {
      SendsNothing(hub, step, c);
    }
  }

  lemma JoinStands(hub: Hub, step: Step, c: nat)
    requires c !in hub.clients && c in Next(hub, step).clients
    ensures Stands(Next(hub, step), c)
  {
    hide Next;
    Joins(hub, step, c);
  }

  lemma {:induction false} RunStands(start: Hub, steps: seq<Step>, c: nat)
    requires HubInv(start) && start.clients == map[]
    requires forall k :: 0 <= k < |steps| ==> !AsksBackAt(start, steps, k, c)
    ensures Stands(Run(start, steps), c)
    decreases |steps|
  {
    hide HubInv, Next, AsksBack;
    if steps != [] {
      var n := |steps| - 1;
      assert forall k :: 0 <= k < n ==> steps[..n][..k] == steps[..k];
      forall k | 0 <= k < n ensures !AsksBackAt(start, steps[..n], k, c) {
        assert !AsksBackAt(start, steps, k, c);
      }
      RunStands(start, steps[..n], c);
      RunKeeps(start, steps[..n]);
      assert !AsksBackAt(start, steps, n, c);
      StepStands(Run(start, steps[..n]), steps[n], c);
    }
  }

  lemma StandingNeverRepeats(hub: Hub, step: Step, c: nat)
    requires HubInv(hub) && Stands(hub, c)
    ensures Repeats(hub, step, c) <==> Overrun(hub, step, c)
  {
    hide RowsAbove, LatestId;
    if step.ReplayResumes? {
      ReplayRepeats(hub, step, c);
    } else if step.FlushResumes? && Enabled(hub, step) && c in hub.clients {
      SliceIncreases(hub.log, hub.latestBroadcastId, hub.flush.events);
      RowsAboveIncrease(hub.flush.events, hub.clients[c].lastEventId);
    }
  }

  /** Events reach a client that never asks from below what it was sent in order and each once, exactly when no replay
      of it starts to send after something above the replay's position was sent. */
  lemma ForwardOrder(start: Hub, steps: seq<Step>, c: nat)
    requires HubInv(start) && start.clients == map[] && c in Run(start, steps).clients
    requires forall k :: 0 <= k < |steps| ==> !AsksBackAt(start, steps, k, c)
    ensures Increasing(Run(start, steps).clients[c].sent)
            <==> forall k :: 0 <= k < |steps| ==> !OverrunAt(start, steps, k, c)
  {
    hide HubInv, Next, Repeats, Overrun, AsksBack, Increasing, Stands;
    RunOrder(start, steps, c);
    forall k | 0 <= k < |steps| ensures RepeatsAt(start, steps, k, c) == OverrunAt(start, steps, k, c) {
      forall j | 0 <= j < k ensures !AsksBackAt(start, steps[..k], j, c) {
        assert steps[..k][..j] == steps[..j];
        assert !AsksBackAt(start, steps, j, c);
      }
      RunStands(start, steps[..k], c);
      RunKeeps(start, steps[..k]);
      StandingNeverRepeats(Run(start, steps[..k]), steps[k], c);
    }
  }

  // ---------------------------------------------------------------------------
  // Clients that ask once, when they join
  // ---------------------------------------------------------------------------

  /** By the time a replay sends, the client has left the replay's position: a broadcast reached it meanwhile. */
  predicate Overtaken(hub: Hub, step: Step, c: nat) {
    StartsSending(hub, step, c) && hub.clients[c].lastEventId != hub.replays[step.replay].after
  }

  predicate OvertakenAt(start: Hub, steps: seq<Step>, k: nat, c: nat)
    requires k < |steps|
  {
    Overtaken(Run(start, steps[..k]), steps[k], c)
  }

  /** The client stands where it joined until it is sent something, and its replays start where it joined. */
  predicate AskedOnce(hub: Hub, c: nat) {
    c in hub.clients ==>
      var client := hub.clients[c];
      && (forall r :: r in hub.replays && hub.replays[r].client == c ==> hub.replays[r].after == client.requested)
      && client.lastEventId == (if client.sent == [] then client.requested else LatestId(client.sent))
      && (client.sent != [] ==> client.requested < client.lastEventId)
  }

  lemma StepAskedOnce(hub: Hub, step: Step, c: nat)
    requires HubInv(hub) && AskedOnce(hub, c) && !(step.Subscribe? && step.client == c)
    ensures AskedOnce(Next(hub, step), c)
  {
    hide HubInv, LatestId, ResumeReplay, ResumeFlush, Next;
    if c !in Next(hub, step).clients {
    } else if c !in hub.clients {
      JoinAskedOnce(hub, step, c);
    } else if Enabled(hub, step) && step.ReplayResumes? {
      ResumeIsNext(hub, step);
      ReplayAskedOnce(hub, step.replay, step.slow, c);
    } else if Enabled(hub, step) && step.FlushResumes? {
      ResumeIsNext(hub, step);
      FlushAskedOnce(hub, step.broadcastSlow, c);
    } else {
      SendsNothing(hub, step, c);
    }
  }

  lemma ResumeIsNext(hub: Hub, step: Step)
    requires Enabled(hub, step)
    ensures step.ReplayResumes? ==> Next(hub, step) == ResumeReplay(hub, step.replay, step.slow)
    ensures step.FlushResumes? ==> Next(hub, step) == ResumeFlush(hub, step.broadcastSlow)
  {
    hide ResumeReplay, ResumeFlush;
  }

  lemma JoinAskedOnce(hub: Hub, step: Step, c: nat)
    requires HubInv(hub) && c !in hub.clients && c in Next(hub, step).clients
    ensures AskedOnce(Next(hub, step), c)
  {
    hide BroadcastAll, ReplayAll, Misses, Kept, Slice, Increasing, ReadAfter;
    Joins(hub, step, c);
    if Enabled(hub, step) && step.FlushResumes? {
      BroadcastOffersAll(hub.clients, hub.flush.events, step.broadcastSlow);
    }
  }

  lemma FlushAskedOnce(hub: Hub, slow: (nat, nat) -> bool, c: nat)
    requires HubInv(hub) && AskedOnce(hub, c) && hub.flush.Answered? && c in hub.clients && c in ResumeFlush(hub, slow).clients
    ensures AskedOnce(ResumeFlush(hub, slow), c)
  {
    hide BroadcastAll, LatestId;
    FlushStands(hub, slow, c);
  }

  lemma ReplayAskedOnce(hub: Hub, r: nat, slow: nat -> bool, c: nat)
    requires HubInv(hub) && AskedOnce(hub, c) && c in hub.clients && r in hub.replays && hub.replays[r].Fetched?
    ensures AskedOnce(ResumeReplay(hub, r, slow), c)
  {
    hide LatestId, ReplayAll, Kept, Slice, Increasing;
    var Fetched(client, position, events) := hub.replays[r];
    ReplayStands(hub.clients[c], events, slow);
    ReplayAllKeeps(hub.clients[c], events, slow);
    if client == c {
      SliceHolds(hub.log, position, events, ReplayAll(hub.clients[c], events, slow).lastEventId);
    }
  }

  lemma {:induction false} RunAskedOnce(start: Hub, steps: seq<Step>, c: nat)
    requires HubInv(start) && start.clients == map[] && NeverAsks(steps, c)
    ensures AskedOnce(Run(start, steps), c)
    decreases |steps|
  {
    hide HubInv, Next;
    if steps != [] {
      var n := |steps| - 1;
      RunAskedOnce(start, steps[..n], c);
      RunKeeps(start, steps[..n]);
      StepAskedOnce(Run(start, steps[..n]), steps[n], c);
    }
  }

  /** Events reach a client that only asks when it joins in order and each once, exactly when its replay, if it has rows
      to send, finds the client still where it joined. */
  lemma OrderOfOneAsk(start: Hub, steps: seq<Step>, c: nat)
    requires HubInv(start) && start.clients == map[] && c in Run(start, steps).clients && NeverAsks(steps, c)
    ensures Increasing(Run(start, steps).clients[c].sent)
            <==> forall k :: 0 <= k < |steps| ==> !OvertakenAt(start, steps, k, c)
  {
    hide HubInv, Next, Overrun, Increasing, StartsSending, Run;
    ForwardOrder(start, steps, c);
    forall k | 0 <= k < |steps| ensures OverrunAt(start, steps, k, c) == OvertakenAt(start, steps, k, c) {
      RunAskedOnce(start, steps[..k], c);
      OverrunIsOvertaken(Run(start, steps[..k]), steps[k], c);
    }
  }

  lemma OverrunIsOvertaken(hub: Hub, step: Step, c: nat)
    requires AskedOnce(hub, c)
    ensures Overrun(hub, step, c) <==> Overtaken(hub, step, c)
  {
  }

  // ---------------------------------------------------------------------------
  // A client that asks again
  // ---------------------------------------------------------------------------

  /** If the replay it asks for may send what it reads, a client in order stays so exactly when it asks from the last
      event that it was sent or later. */
  lemma AskingBackRepeats(hub: Hub, c: nat, after: nat)
    requires HubInv(hub) && c in hub.clients && hub.clients[c].open && Increasing(hub.clients[c].sent)
    requires hub.latestBroadcastId <= after + hub.maxReplayLag && |hub.log| - Position(hub.log, after) <= 500
    ensures var asked := Next(hub, Subscribe(c, after));
            var replayed := Next(Next(asked, ReplayReads(hub.nextReplay)), ReplayResumes(hub.nextReplay, NeverSlow()));
            c in replayed.clients
            && (Increasing(replayed.clients[c].sent) <==> LatestId(hub.clients[c].sent) <= after)
  {
    ReadsAllOrTooMany(hub.log, after);
    hide HubInv, Increasing, LatestId, ReplayAll, ReadAfter, Position;
    var read := Next(Next(hub, Subscribe(c, after)), ReplayReads(hub.nextReplay));
    var resume := ReplayResumes(hub.nextReplay, NeverSlow());
    StepKeeps(hub, Subscribe(c, after));
    StepKeeps(Next(hub, Subscribe(c, after)), ReplayReads(hub.nextReplay));
    StepOrder(read, resume, c);
    ReplayRepeats(read, resume, c);
    if ReadAfter(hub.log, after, MAX_REPLAY + 1) == [] {
      NothingAbove(hub, c, after);
    }
  }

  lemma NothingAbove(hub: Hub, c: nat, after: nat)
    requires HubInv(hub) && c in hub.clients && ReadAfter(hub.log, after, MAX_REPLAY + 1) == []
    ensures LatestId(hub.clients[c].sent) <= after
  {
    hide Owed;
    KeptOf(hub, c);
    ReadIsNext(hub.log, after, MAX_REPLAY + 1);
    var sent := hub.clients[c].sent;
    if sent != [] {
      assert LatestId(sent) in sent;
    }
  }

  // ---------------------------------------------------------------------------
  // An input that repeats
  // ---------------------------------------------------------------------------

  /** A replay that was under way while the broadcast passed sends again, and out of order, what the broadcast sent. */
  lemma SentTwice(hub: Hub, c: nat, r: nat)
    requires HubInv(hub) && hub.log == [1, 2] && hub.latestBroadcastId == 0 && hub.flush.Idle?
    requires hub.clients == map[c := Client(0, true, [], 0, false, false, false)] && hub.replays == map[r := Reading(c, 0)]
    ensures var flushed := Next(Next(Next(hub, FlushStarts), FlushReads), FlushResumes(NobodySlow()));
            var replayed := Next(Next(flushed, ReplayReads(r)), ReplayResumes(r, NeverSlow()));
            && c in replayed.clients && Served(replayed.clients[c]) && NoReplay(replayed, c)
            && replayed.clients[c].sent == [1, 2, 1, 2]
  {
    hide HubInv, OfferAll, ReplayAll, BroadcastAll, ReadAfter;
    ReadsTwo([1, 2], 0, MAX_REPLAY);
    ReadsTwo([1, 2], 0, MAX_REPLAY + 1);
    SendsTwo(hub.clients[c], c, 1, 2);
    BroadcastOffersAll(hub.clients, [1, 2], NobodySlow());
    var flushed := Next(Next(Next(hub, FlushStarts), FlushReads), FlushResumes(NobodySlow()));
    assert flushed.clients[c] == Client(2, true, [1, 2], 0, false, false, false);
    ReplaysTwo(flushed.clients[c], 1, 2);
  }

  lemma SentTwiceIsReached()
    ensures Next(Next(Next(Started([], 1, 0), Join(0)), Commit(1)), Commit(2))
            == Hub([1, 2], map[0 := Client(0, true, [], 0, false, false, false)], 1, 0, map[0 := Reading(0, 0)], 1, Idle, 1, 0)
  {
    var joined := Next(Started([], 1, 0), Join(0));
    assert joined == Hub([], map[0 := Client(0, true, [], 0, false, false, false)], 1, 0, map[0 := Reading(0, 0)], 1, Idle, 1, 0);
    assert Next(joined, Commit(1)).log == [1];
    assert Next(Next(joined, Commit(1)), Commit(2)).log == [1, 2];
  }

  lemma SendsTwo(client: Client, c: nat, a: nat, b: nat)
    requires client.open && client.lastEventId < a < b
    ensures OfferAll(client, c, [a, b], NobodySlow()) == client.(sent := client.sent + [a] + [b], lastEventId := b)
  {
    assert [a, b][..1] == [a] && [a][..0] == [];
    assert OfferAll(client, c, [a], NobodySlow()) == client.(sent := client.sent + [a], lastEventId := a);
  }

  lemma ReplaysTwo(client: Client, a: nat, b: nat)
    requires client.open
    ensures ReplayAll(client, [a, b], NeverSlow()) == client.(sent := client.sent + [a] + [b], lastEventId := b)
  {
    assert [a, b][..1] == [a] && [a][..0] == [];
    assert ReplayAll(client, [a], NeverSlow()) == client.(sent := client.sent + [a], lastEventId := a);
  }
}

/** The broadcast hub: replays, a broadcast loop and clients that interleave wherever the code awaits the database. */
module RealtimeHub {
  import opened OutboxReads

  const MAX_REPLAY := 500

  /** What the hub keeps of a client, and the history of what it was sent and of what happened since it last asked:
      from where it asked, whether it was told to start over, whether a replay of it failed, and whether an event was
      committed that only a replay in flight could have sent and that lies at or below where that replay starts. */
  datatype Client = Client(
    lastEventId: nat, open: bool, sent: seq<nat>, requested: nat, resynced: bool, dropped: bool, exposed: bool)

  /** A replay that waits for its read to run, or that has rows to send. */
  datatype Replay = Reading(client: nat, after: nat) | Fetched(client: nat, after: nat, events: seq<nat>)

  datatype Flush = Idle | Querying | Answered(events: seq<nat>)

  datatype Hub = Hub(
    log: seq<nat>, clients: map<nat, Client>, nextClient: nat, latestBroadcastId: nat,
    replays: map<nat, Replay>, nextReplay: nat, flush: Flush, maxClients: nat, maxReplayLag: nat)

  // ---------------------------------------------------------------------------
  // Sending
  // ---------------------------------------------------------------------------

  /** Sends to an open socket; a socket that is too far behind is closed instead. */
  function Send(client: Client, id: nat, slow: bool): Client {
    if !client.open then client
    else if slow then client.(open := false)
    else client.(sent := client.sent + [id])
  }

  function Deliver(client: Client, id: nat, slow: bool): Client {
    var after := Send(client, id, slow);
    if after.open then after.(lastEventId := id) else after
  }

  /** What the broadcast does for one client. */
  function Offer(client: Client, id: nat, slow: bool): Client {
    if id <= client.lastEventId then client else Deliver(client, id, slow)
  }

  /** What a replay does with its rows: it stops at the first one that is not sent. */
  function ReplayAll(client: Client, events: seq<nat>, slow: nat -> bool): Client {
    if events == [] then client
    else
      var before := ReplayAll(client, events[..|events| - 1], slow);
      if before.open then Deliver(before, events[|events| - 1], slow(events[|events| - 1])) else before
  }

  function BroadcastOne(clients: map<nat, Client>, id: nat, slow: (nat, nat) -> bool): map<nat, Client> {
    map c | c in clients :: Offer(clients[c], id, slow(c, id))
  }

  function BroadcastAll(clients: map<nat, Client>, events: seq<nat>, slow: (nat, nat) -> bool): map<nat, Client> {
    if events == [] then clients
    else BroadcastOne(BroadcastAll(clients, events[..|events| - 1], slow), events[|events| - 1], slow)
  }

  // ---------------------------------------------------------------------------
  // Steps between awaits
  // ---------------------------------------------------------------------------

  function Started(log: seq<nat>, maxClients: nat, maxReplayLag: nat): Hub {
    Hub(log, map[], 0, LatestId(log), map[], 0, Idle, maxClients, maxReplayLag)
  }

  predicate ReplayTooOld(hub: Hub, after: nat) {
    hub.latestBroadcastId > after && hub.latestBroadcastId - after > hub.maxReplayLag
  }

  /** A replay up to its first await: it refuses, or its read is under way. */
  function StartReplay(hub: Hub, c: nat): Hub
    requires c in hub.clients
  {
    var client := hub.clients[c];
    if ReplayTooOld(hub, client.lastEventId) then
      hub.(clients := hub.clients[c := client.(resynced := true)])
    else
      hub.(replays := hub.replays[hub.nextReplay := Reading(c, client.lastEventId)], nextReplay := hub.nextReplay + 1)
  }

  datatype Step =
    | Commit(id: nat)
    | Join(after: nat)
    | Subscribe(client: nat, after: nat)
    | Close(client: nat)
    | Leave(client: nat)
    | ReplayReads(replay: nat)
    | ReplayResumes(replay: nat, slow: nat -> bool)
    | ReplayFails(replay: nat)
    | FlushStarts
    | FlushReads
    | FlushResumes(broadcastSlow: (nat, nat) -> bool)
    | FlushFails

  /** Whether the step can happen. */
  predicate Enabled(hub: Hub, step: Step) {
    match step
    case Commit(id) => id > LatestId(hub.log)
    case Subscribe(client, _) => client in hub.clients
    case Close(client) => client in hub.clients
    case ReplayReads(r) => r in hub.replays && hub.replays[r].Reading?
    case ReplayResumes(r, _) => r in hub.replays && hub.replays[r].Fetched?
    case ReplayFails(r) => r in hub.replays
    case FlushReads => hub.flush.Querying?
    case FlushResumes(_) => hub.flush.Answered?
    case _ => true
  }

  /** A replay of the client that has not read yet starts at the event or later, so it will skip it. */
  predicate Overshot(replays: map<nat, Replay>, c: nat, e: nat) {
    exists r :: r in replays && replays[r].Reading? && replays[r].client == c && e <= replays[r].after
  }

  /** An event that the client asked for is committed behind a replay that has not read yet, and none will send it. */
  predicate Misses(hub: Hub, c: nat, id: nat)
    requires c in hub.clients
  {
    hub.clients[c].requested < id && Overshot(hub.replays, c, id) && !Promised(hub.replays, c, id)
  }

  function Append(hub: Hub, id: nat): Hub {
    hub.(log := hub.log + [id],
         clients := map c | c in hub.clients ::
           hub.clients[c].(exposed := hub.clients[c].exposed || Misses(hub, c, id)))
  }

  function Add(hub: Hub, after: nat): Hub {
    if |hub.clients| >= hub.maxClients then hub
    else
      var client := Client(after, true, [], after, false, false, false);
      StartReplay(hub.(clients := hub.clients[hub.nextClient := client], nextClient := hub.nextClient + 1), hub.nextClient)
  }

  function Resubscribe(hub: Hub, c: nat, after: nat): Hub
    requires c in hub.clients
  {
    StartReplay(hub.(clients := hub.clients[c := Asking(hub.clients[c], after)]), c)
  }

  function Asking(client: Client, after: nat): Client {
    client.(lastEventId := after, requested := after, resynced := false, dropped := false, exposed := false)
  }

  /** A replay whose read fails ends without sending anything. */
  function FailReplay(hub: Hub, r: nat): (after: Hub)
    requires r in hub.replays
    ensures after.replays.Keys == hub.replays.Keys - {r} && after.clients.Keys == hub.clients.Keys
    ensures forall c :: c in hub.clients ==> after.clients[c].sent == hub.clients[c].sent
                                             && (after.clients[c].dropped <==> hub.clients[c].dropped || c == hub.replays[r].client)
  {
    var c := hub.replays[r].client;
    hub.(replays := hub.replays - {r},
         clients := if c in hub.clients then hub.clients[c := hub.clients[c].(dropped := true)] else hub.clients)
  }

  /** The rest of a replay, once its rows are there: it has no await left. */
  function ResumeReplay(hub: Hub, r: nat, slow: nat -> bool): Hub
    requires r in hub.replays && hub.replays[r].Fetched?
  {
    var Fetched(c, _, events) := hub.replays[r];
    var rest := hub.(replays := hub.replays - {r});
    if c !in hub.clients then rest
    else if |events| > MAX_REPLAY then rest.(clients := hub.clients[c := hub.clients[c].(resynced := true)])
    else rest.(clients := hub.clients[c := ReplayAll(hub.clients[c], events, slow)])
  }

  /** The broadcast of one read, and what follows: another read after a full one, else the end. */
  function ResumeFlush(hub: Hub, slow: (nat, nat) -> bool): Hub
    requires hub.flush.Answered?
  {
    var events := hub.flush.events;
    hub.(clients := BroadcastAll(hub.clients, events, slow),
         latestBroadcastId := if events == [] then hub.latestBroadcastId else events[|events| - 1],
         flush := if |events| == MAX_REPLAY then Querying else Idle)
  }

  /** A step that cannot happen leaves the hub as it is. */
  function Next(hub: Hub, step: Step): Hub {
    if !Enabled(hub, step) then hub
    else match step
    case Commit(id) => Append(hub, id)
    case Join(after) => Add(hub, after)
    case Subscribe(c, after) => Resubscribe(hub, c, after)
    case Close(c) => hub.(clients := hub.clients[c := hub.clients[c].(open := false)])
    case Leave(c) => hub.(clients := hub.clients - {c})
    case ReplayReads(r) =>
      var Reading(c, after) := hub.replays[r];
      hub.(replays := hub.replays[r := Fetched(c, after, ReadAfter(hub.log, after, MAX_REPLAY + 1))])
    case ReplayResumes(r, slow) => ResumeReplay(hub, r, slow)
    case ReplayFails(r) => FailReplay(hub, r)
    case FlushStarts => if hub.flush.Idle? then hub.(flush := Querying) else hub
    case FlushReads => hub.(flush := Answered(ReadAfter(hub.log, hub.latestBroadcastId, MAX_REPLAY)))
    case FlushResumes(slow) => ResumeFlush(hub, slow)
    case FlushFails => hub.(flush := Idle)
  }

  // ---------------------------------------------------------------------------
  // The invariant
  // ---------------------------------------------------------------------------

  /** Some replay of the client will send the event, or tell the client to start over. */
  predicate Promised(replays: map<nat, Replay>, c: nat, e: nat) {
    exists r :: r in replays && replays[r].client == c && Promises(replays[r], e)
  }

  predicate Promises(replay: Replay, e: nat) {
    match replay
    case Reading(_, after) => after < e
    case Fetched(_, _, events) => e in events || |events| > MAX_REPLAY
  }

  /** The replay would move the client past the event without sending it. */
  predicate Skips(replay: Replay, e: nat) {
    match replay
    case Reading(_, after) => e <= after
    case Fetched(_, after, events) => events != [] && e <= after
  }

  /** The broadcast will not offer the event to the client any more, or may not. */
  ghost predicate Passed(hub: Hub, c: nat, e: nat)
    requires c in hub.clients
  {
    e <= hub.latestBroadcastId || e <= hub.clients[c].lastEventId
    || exists r :: r in hub.replays && hub.replays[r].client == c && Skips(hub.replays[r], e)
  }

  /** A client that the hub still owes its events to. */
  predicate Served(client: Client) {
    client.open && !client.resynced && !client.dropped && !client.exposed
  }

  ghost predicate Owed(hub: Hub, c: nat)
    requires c in hub.clients
  {
    forall e :: e in hub.log && hub.clients[c].requested < e && Passed(hub, c, e)
                ==> e in hub.clients[c].sent || Promised(hub.replays, c, e)
  }

  /** A client was sent nothing but events, and stands where it asked to or at an event. */
  ghost predicate Sound(hub: Hub, c: nat)
    requires c in hub.clients
  {
    && (hub.clients[c].lastEventId <= hub.clients[c].requested || hub.clients[c].lastEventId <= LatestId(hub.log))
    && forall e :: e in hub.clients[c].sent ==> e in hub.log
  }

  ghost predicate Kept(hub: Hub, c: nat)
    requires c in hub.clients
  {
    Sound(hub, c) && (Served(hub.clients[c]) ==> Owed(hub, c))
  }

  ghost predicate HubInv(hub: Hub) {
    && Increasing(hub.log) && hub.latestBroadcastId <= LatestId(hub.log)
    && (hub.flush.Answered? ==> Slice(hub.log, hub.latestBroadcastId, hub.flush.events))
    && (forall c :: c in hub.clients ==> c < hub.nextClient)
    && (forall r :: r in hub.replays ==> r < hub.nextReplay && hub.replays[r].client < hub.nextClient)
    && (forall r :: r in hub.replays && hub.replays[r].Fetched?
                    ==> Slice(hub.log, hub.replays[r].after, hub.replays[r].events))
    && (forall c :: c in hub.clients ==> Kept(hub, c))
  }

  // ---------------------------------------------------------------------------
  // Reads
  // ---------------------------------------------------------------------------

  /** A replay's read holds every later event, or more rows than a replay may send. */
  lemma ReadPromises(log: seq<nat>, after: nat, e: nat)
    requires Increasing(log) && e in log && after < e
    ensures var events := ReadAfter(log, after, MAX_REPLAY + 1); e in events || |events| > MAX_REPLAY
  {
    ReadIsNext(log, after, MAX_REPLAY + 1);
  }

  // ---------------------------------------------------------------------------
  // Each step keeps the invariant
  // ---------------------------------------------------------------------------

  /** A new event is ahead of everything but the replays that start beyond the log. */
  lemma CommitOwes(hub: Hub, id: nat, c: nat)
    requires HubInv(hub) && c in hub.clients && id > LatestId(hub.log)
    ensures Kept(Append(hub, id), c)
  {
    hide Slice, Increasing, Promised, LatestId;
    var after := Append(hub, id);
    LatestOfAppended(hub.log, id);
    assert Kept(hub, c);
    if Served(after.clients[c]) {
      forall e | e in after.log && after.clients[c].requested < e && Passed(after, c, e)
        ensures e in after.clients[c].sent || Promised(after.replays, c, e)
      {
        if e in hub.log {
          assert Passed(hub, c, e);
        } else {
          NotYetPassed(hub, c, id);
        }
      }
    }
  }

  lemma LatestOfAppended(log: seq<nat>, id: nat)
    ensures LatestId(log + [id]) == id
  {
  }

  /** Only a replay that starts beyond the log skips an event that is not committed yet. */
  lemma NotYetPassed(hub: Hub, c: nat, id: nat)
    requires HubInv(hub) && c in hub.clients && id > LatestId(hub.log) && hub.clients[c].requested < id
    ensures Passed(hub, c, id) ==> Overshot(hub.replays, c, id)
  {
    hide Slice, Increasing, Promised, LatestId, Owed;
    assert Kept(hub, c);
    forall r | r in hub.replays && hub.replays[r].client == c && Skips(hub.replays[r], id)
      ensures hub.replays[r].Reading?
    {
      if hub.replays[r].Fetched? {
        var Fetched(_, position, events) := hub.replays[r];
        SliceHolds(hub.log, position, events, events[|events| - 1]);
      }
    }
  }

  lemma CommitKeeps(hub: Hub, id: nat)
    requires HubInv(hub) && id > LatestId(hub.log)
    ensures HubInv(Append(hub, id))
  {
    hide Slice, Kept, Misses;
    var after := Append(hub, id);
    AppendKeepsPosition(hub.log, id, 0);
    hide Increasing;
    if hub.flush.Answered? {
      SliceAppended(hub.log, hub.latestBroadcastId, hub.flush.events, id);
    }
    forall r | r in hub.replays && hub.replays[r].Fetched?
      ensures Slice(after.log, hub.replays[r].after, hub.replays[r].events)
    {
      SliceAppended(hub.log, hub.replays[r].after, hub.replays[r].events, id);
    }
    forall c | c in after.clients ensures Kept(after, c) {
      CommitOwes(hub, id, c);
    }
  }

  /** A started replay promises everything after its position; a refused one gives the client up. */
  lemma StartReplayKeeps(hub: Hub, before: Hub, c: nat)
    requires HubInv(before) && c in hub.clients && c < hub.nextClient && before.nextClient <= hub.nextClient
    requires hub == before.(clients := hub.clients, nextClient := hub.nextClient)
    requires forall other :: other in hub.clients && other != c
                             ==> other in before.clients && hub.clients[other] == before.clients[other]
    requires hub.clients[c].requested == hub.clients[c].lastEventId
    requires forall e :: e in hub.clients[c].sent ==> e in hub.log
    ensures HubInv(StartReplay(hub, c))
  {
    hide Slice, Increasing, Passed;
    var after := StartReplay(hub, c);
    forall other | other in after.clients ensures Kept(after, other) {
      if other == c {
        forall e | Served(after.clients[c]) && after.clients[c].requested < e ensures Promised(after.replays, c, e) {
          var r := hub.nextReplay;
          assert r in after.replays && after.replays[r] == Reading(c, hub.clients[c].lastEventId);
          assert after.replays[r].after < e;
        }
      } else {
        assert Kept(before, other);
        OthersKeep(before, after, other);
      }
    }
  }

  /** A client that a step does not touch is still owed what it was owed. */
  lemma OthersKeep(before: Hub, after: Hub, c: nat)
    requires c in before.clients && c in after.clients && Kept(before, c)
    requires before.clients[c] == after.clients[c].(open := before.clients[c].open)
    requires after.clients[c].open ==> before.clients[c].open
    requires after.log == before.log && after.latestBroadcastId == before.latestBroadcastId
    requires forall r :: r in after.replays && after.replays[r].client == c
                         ==> r in before.replays && after.replays[r] == before.replays[r]
    requires forall r :: r in before.replays && before.replays[r].client == c
                         ==> r in after.replays && after.replays[r] == before.replays[r]
    ensures Kept(after, c)
  {
    forall e | Served(after.clients[c]) && e in after.log && after.clients[c].requested < e && Passed(after, c, e)
      ensures e in after.clients[c].sent || Promised(after.replays, c, e)
    {
      assert Passed(before, c, e);
      if Promised(before.replays, c, e) {
        var r :| r in before.replays && before.replays[r].client == c && Promises(before.replays[r], e);
        assert r in after.replays && after.replays[r] == before.replays[r];
      }
    }
  }

  lemma AddKeeps(hub: Hub, after: nat)
    requires HubInv(hub)
    ensures HubInv(Add(hub, after))
  {
    hide Slice, Increasing, Kept, Promised;
    if |hub.clients| < hub.maxClients {
      var client := Client(after, true, [], after, false, false, false);
      var joined := hub.(clients := hub.clients[hub.nextClient := client], nextClient := hub.nextClient + 1);
      StartReplayKeeps(joined, hub, hub.nextClient);
    }
  }

  lemma ResubscribeKeeps(hub: Hub, c: nat, after: nat)
    requires HubInv(hub) && c in hub.clients
    ensures HubInv(Resubscribe(hub, c, after))
  {
    hide Slice, Increasing, Owed, Promised, Passed;
    assert Kept(hub, c);
    StartReplayKeeps(hub.(clients := hub.clients[c := Asking(hub.clients[c], after)]), hub, c);
  }

  lemma CloseKeeps(hub: Hub, c: nat)
    requires HubInv(hub) && c in hub.clients
    ensures HubInv(Next(hub, Close(c)))
  {
    hide Slice, Increasing, Kept;
    var after := Next(hub, Close(c));
    forall other | other in after.clients ensures Kept(after, other) {
      OthersKeep(hub, after, other);
    }
  }

  lemma LeaveKeeps(hub: Hub, c: nat)
    requires HubInv(hub)
    ensures HubInv(hub.(clients := hub.clients - {c}))
  {
    hide Slice, Increasing, Kept;
    var after := hub.(clients := hub.clients - {c});
    forall other | other in after.clients ensures Kept(after, other) {
      OthersKeep(hub, after, other);
    }
  }

  /** A client whose replay failed is not owed anything until it asks again. */
  lemma ReplayFailsKeeps(hub: Hub, r: nat)
    requires HubInv(hub) && r in hub.replays
    ensures HubInv(FailReplay(hub, r))
  {
    hide Slice, Increasing, Owed;
    var after := FailReplay(hub, r);
    forall other | other in after.clients ensures Kept(after, other) {
      assert Kept(hub, other);
      if other != hub.replays[r].client {
        OthersKeep(hub, after, other);
      }
    }
  }

  lemma ReplayReadsKeeps(hub: Hub, r: nat)
    requires HubInv(hub) && r in hub.replays && hub.replays[r].Reading?
    ensures HubInv(Next(hub, ReplayReads(r)))
  {
    var Reading(c, position) := hub.replays[r];
    var after := Next(hub, ReplayReads(r));
    ReadIsNext(hub.log, position, MAX_REPLAY + 1);
    hide Increasing, Kept;
    forall other | other in after.clients ensures Kept(after, other) {
      if other != c {
        OthersKeep(hub, after, other);
      } else {
        ReadStillOwes(hub, r);
      }
    }
  }

  lemma ReadStillOwes(hub: Hub, r: nat)
    requires HubInv(hub) && r in hub.replays && hub.replays[r].Reading? && hub.replays[r].client in hub.clients
    ensures Kept(Next(hub, ReplayReads(r)), hub.replays[r].client)
  {
    hide Slice, Increasing, HubInv, ReadAfter, Promised, Promises;
    var c := hub.replays[r].client;
    var after := Next(hub, ReplayReads(r));
    KeptOf(hub, c);
    forall e | Served(after.clients[c]) && e in after.log && after.clients[c].requested < e && Passed(after, c, e)
      ensures e in after.clients[c].sent || Promised(after.replays, c, e)
    {
      SamePassed(hub, after, c, e);
      if Promised(hub.replays, c, e) {
        ReadKeepsPromise(hub, r, e);
      }
    }
  }

  lemma KeptOf(hub: Hub, c: nat)
    requires HubInv(hub) && c in hub.clients
    ensures Kept(hub, c)
  {
  }

  lemma SamePassed(hub: Hub, after: Hub, c: nat, e: nat)
    requires c in hub.clients && c in after.clients && hub.clients[c] == after.clients[c]
    requires hub.latestBroadcastId == after.latestBroadcastId && Passed(after, c, e)
    requires forall r :: r in after.replays && after.replays[r].client == c
                         ==> r in hub.replays && hub.replays[r].client == c
                             && (Skips(after.replays[r], e) ==> Skips(hub.replays[r], e))
    ensures Passed(hub, c, e)
  {
  }

  lemma ReadKeepsPromise(hub: Hub, r: nat, e: nat)
    requires HubInv(hub) && r in hub.replays && hub.replays[r].Reading? && e in hub.log
    requires Promised(hub.replays, hub.replays[r].client, e)
    ensures Promised(Next(hub, ReplayReads(r)).replays, hub.replays[r].client, e)
  {
    hide Slice, Increasing, Kept, ReadAfter;
    var Reading(c, position) := hub.replays[r];
    var after := Next(hub, ReplayReads(r)).replays;
    var q :| q in hub.replays && hub.replays[q].client == c && Promises(hub.replays[q], e);
    if q == r {
      ReadPromises(hub.log, position, e);
      assert after[r] == Fetched(c, position, ReadAfter(hub.log, position, MAX_REPLAY + 1));
    } else {
      assert after[q] == hub.replays[q];
    }
  }

  /** A client still open after a replay was sent all its rows. */
  lemma {:induction false} ReplayAllSends(client: Client, events: seq<nat>, slow: nat -> bool)
    ensures var after := ReplayAll(client, events, slow);
            after.open ==> after == client.(
              sent := client.sent + events,
              lastEventId := if events == [] then client.lastEventId else events[|events| - 1])
  {
    if events != [] {
      ReplayAllSends(client, events[..|events| - 1], slow);
      assert events == events[..|events| - 1] + [events[|events| - 1]];
    }
  }

  /** Whether it is still open or not, a client was sent rows of the replay only, and stands at one or where it stood. */
  lemma {:induction false} ReplayAllKeeps(client: Client, events: seq<nat>, slow: nat -> bool)
    ensures var after := ReplayAll(client, events, slow);
            && after == client.(lastEventId := after.lastEventId, open := after.open, sent := after.sent)
            && (after.open ==> client.open)
            && client.sent <= after.sent && (forall e :: e in after.sent[|client.sent|..] ==> e in events)
            && (after.lastEventId == client.lastEventId || after.lastEventId in events)
  {
    if events != [] {
      ReplayAllKeeps(client, events[..|events| - 1], slow);
      assert events == events[..|events| - 1] + [events[|events| - 1]];
    }
  }

  lemma ReplayResumesKeeps(hub: Hub, r: nat, slow: nat -> bool)
    requires HubInv(hub) && r in hub.replays && hub.replays[r].Fetched?
    ensures HubInv(ResumeReplay(hub, r, slow))
  {
    hide Slice, Increasing, ReplayAll, Kept;
    var after := ResumeReplay(hub, r, slow);
    forall other | other in after.clients ensures Kept(after, other) {
      if other != hub.replays[r].client {
        OthersKeep(hub, after, other);
      } else {
        ReplayStaysSound(hub, r, slow);
        ReplayPays(hub, r, slow);
        KeptFrom(after, other);
      }
    }
  }

  lemma KeptFrom(hub: Hub, c: nat)
    requires c in hub.clients && Sound(hub, c) && (Served(hub.clients[c]) ==> Owed(hub, c))
    ensures Kept(hub, c)
  {
  }

  lemma ReplayStaysSound(hub: Hub, r: nat, slow: nat -> bool)
    requires HubInv(hub) && r in hub.replays && hub.replays[r].Fetched? && hub.replays[r].client in hub.clients
    ensures Sound(ResumeReplay(hub, r, slow), hub.replays[r].client)
  {
    hide Slice, Increasing, ReplayAll, Owed;
    var Fetched(c, position, events) := hub.replays[r];
    var after := ResumeReplay(hub, r, slow);
    assert Kept(hub, c);
    ReplayAllKeeps(hub.clients[c], events, slow);
    SliceHolds(hub.log, position, events, after.clients[c].lastEventId);
    forall e | e in after.clients[c].sent ensures e in after.log {
      SliceHolds(hub.log, position, events, e);
      FromTail(after.clients[c].sent, hub.clients[c].sent, e);
    }
  }

  lemma FromTail(longer: seq<nat>, shorter: seq<nat>, e: nat)
    requires shorter <= longer
    ensures e in longer ==> e in shorter || e in longer[|shorter|..]
  {
    assert longer == shorter + longer[|shorter|..];
  }

  /** After a replay the client has what the replay promised, and nothing it passed is left out. */
  lemma ReplayPays(hub: Hub, r: nat, slow: nat -> bool)
    requires HubInv(hub) && r in hub.replays && hub.replays[r].Fetched? && hub.replays[r].client in hub.clients
    ensures var after := ResumeReplay(hub, r, slow);
            Served(after.clients[hub.replays[r].client]) ==> Owed(after, hub.replays[r].client)
  {
    hide Slice, Increasing, ReplayAll, HubInv;
    var Fetched(c, position, events) := hub.replays[r];
    var after := ResumeReplay(hub, r, slow);
    var client := hub.clients[c];
    KeptOf(hub, c);
    ReplayAllSends(client, events, slow);
    ReplayAllKeeps(client, events, slow);
    forall e | Served(after.clients[c]) && e in after.log && after.clients[c].requested < e && Passed(after, c, e)
      ensures e in after.clients[c].sent || Promised(after.replays, c, e)
    {
      assert after.clients[c].sent == client.sent + events;
      FetchedSlice(hub, r);
      SliceHolds(hub.log, position, events, e);
      if Passed(hub, c, e) {
        if Promised(hub.replays, c, e) {
          var q :| q in hub.replays && hub.replays[q].client == c && Promises(hub.replays[q], e);
          if q != r {
            assert q in after.replays && after.replays[q] == hub.replays[q];
          }
        }
      }
    }
  }

  lemma FetchedSlice(hub: Hub, r: nat)
    requires HubInv(hub) && r in hub.replays && hub.replays[r].Fetched?
    ensures Increasing(hub.log) && Slice(hub.log, hub.replays[r].after, hub.replays[r].events)
  {
  }

  /** What a whole broadcast does for one client. */
  function OfferAll(client: Client, c: nat, events: seq<nat>, slow: (nat, nat) -> bool): Client {
    if events == [] then client
    else
      var last := events[|events| - 1];
      Offer(OfferAll(client, c, events[..|events| - 1], slow), last, slow(c, last))
  }

  lemma {:induction false} BroadcastOffersAll(clients: map<nat, Client>, events: seq<nat>, slow: (nat, nat) -> bool)
    ensures BroadcastAll(clients, events, slow).Keys == clients.Keys
    ensures forall c :: c in clients ==> BroadcastAll(clients, events, slow)[c] == OfferAll(clients[c], c, events, slow)
  {
    if events != [] {
      BroadcastOffersAll(clients, events[..|events| - 1], slow);
    }
  }

  /** Whether it is still open or not, a client was sent rows of the broadcast only, and stands at one or where it stood. */
  lemma {:induction false} OfferAllKeeps(client: Client, c: nat, events: seq<nat>, slow: (nat, nat) -> bool)
    ensures var after := OfferAll(client, c, events, slow);
            && after == client.(lastEventId := after.lastEventId, open := after.open, sent := after.sent)
            && (after.open ==> client.open)
            && client.sent <= after.sent && (forall e :: e in after.sent[|client.sent|..] ==> e in events)
            && (after.lastEventId == client.lastEventId || after.lastEventId in events)
  {
    if events != [] {
      OfferAllKeeps(client, c, events[..|events| - 1], slow);
      assert events == events[..|events| - 1] + [events[|events| - 1]];
    }
  }

  /** A client still open after a broadcast has every row above where it stood, and stands no lower. */
  lemma {:induction false} OfferAllSends(client: Client, c: nat, events: seq<nat>, slow: (nat, nat) -> bool)
    requires Increasing(events)
    ensures var after := OfferAll(client, c, events, slow);
            after.open ==> && (forall e :: e in events && e > client.lastEventId ==> e in after.sent)
                           && after.lastEventId >= client.lastEventId
  {
    if events != [] {
      var n := |events| - 1;
      OfferAllSends(client, c, events[..n], slow);
      OfferAllKeeps(client, c, events[..n], slow);
      assert events == events[..n] + [events[n]];
      var before := OfferAll(client, c, events[..n], slow);
      if before.open && events[n] <= before.lastEventId {
        LastOfPrefix(client, before, events);
      }
    }
  }

  lemma LastOfPrefix(client: Client, before: Client, events: seq<nat>)
    requires events != [] && Increasing(events)
    requires before.lastEventId == client.lastEventId || before.lastEventId in events[..|events| - 1]
    ensures events[|events| - 1] <= before.lastEventId ==> events[|events| - 1] <= client.lastEventId
  {
  }

  lemma FlushResumesKeeps(hub: Hub, slow: (nat, nat) -> bool)
    requires HubInv(hub) && hub.flush.Answered?
    ensures HubInv(ResumeFlush(hub, slow))
  {
    hide Increasing, BroadcastAll, Kept;
    var events := hub.flush.events;
    var after := ResumeFlush(hub, slow);
    BroadcastOffersAll(hub.clients, events, slow);
    SliceIncreases(hub.log, hub.latestBroadcastId, events);
    if events != [] {
      SliceHolds(hub.log, hub.latestBroadcastId, events, events[|events| - 1]);
    }
    hide Slice;
    forall c | c in after.clients ensures Kept(after, c) {
      BroadcastStaysSound(hub, slow, c);
      BroadcastPays(hub, slow, c);
      KeptFrom(after, c);
    }
  }

  lemma BroadcastStaysSound(hub: Hub, slow: (nat, nat) -> bool, c: nat)
    requires HubInv(hub) && hub.flush.Answered? && c in hub.clients && c in ResumeFlush(hub, slow).clients
    ensures Sound(ResumeFlush(hub, slow), c)
  {
    hide Slice, Increasing, BroadcastAll, OfferAll, Owed;
    var events := hub.flush.events;
    var after := ResumeFlush(hub, slow);
    BroadcastOffersAll(hub.clients, events, slow);
    OfferAllKeeps(hub.clients[c], c, events, slow);
    assert Kept(hub, c);
    SliceHolds(hub.log, hub.latestBroadcastId, events, after.clients[c].lastEventId);
    forall e | e in after.clients[c].sent ensures e in after.log {
      SliceHolds(hub.log, hub.latestBroadcastId, events, e);
      FromTail(after.clients[c].sent, hub.clients[c].sent, e);
    }
  }

  /** A broadcast moves past nothing that an open client was not sent or promised. */
  lemma BroadcastPays(hub: Hub, slow: (nat, nat) -> bool, c: nat)
    requires HubInv(hub) && hub.flush.Answered? && c in hub.clients && c in ResumeFlush(hub, slow).clients
    ensures Served(ResumeFlush(hub, slow).clients[c]) ==> Owed(ResumeFlush(hub, slow), c)
  {
    hide Slice, Increasing, BroadcastAll, OfferAll, Promised;
    var events := hub.flush.events;
    var after := ResumeFlush(hub, slow);
    BroadcastOffersAll(hub.clients, events, slow);
    SliceIncreases(hub.log, hub.latestBroadcastId, events);
    OfferAllSends(hub.clients[c], c, events, slow);
    OfferAllKeeps(hub.clients[c], c, events, slow);
    assert Kept(hub, c);
    hide HubInv;
    forall e | Served(after.clients[c]) && e in after.log && after.clients[c].requested < e && Passed(after, c, e)
      ensures e in after.clients[c].sent || Promised(after.replays, c, e)
    {
      SliceHolds(hub.log, hub.latestBroadcastId, events, e);
      if events != [] {
        SliceHolds(hub.log, hub.latestBroadcastId, events, after.clients[c].lastEventId);
        LastIsMost(events, after.clients[c].lastEventId);
      }
    }
  }

  lemma LastIsMost(events: seq<nat>, e: nat)
    requires Increasing(events) && events != []
    ensures e in events ==> e <= events[|events| - 1]
  {
  }

  lemma StepKeeps(hub: Hub, step: Step)
    requires HubInv(hub)
    ensures HubInv(Next(hub, step))
  {
    hide HubInv, Append, Add, Resubscribe, ResumeReplay, FailReplay, ResumeFlush;
    if !Enabled(hub, step) {
      return;
    }
    match step {
      case Commit(id) => CommitKeeps(hub, id);
      case Join(after) => AddKeeps(hub, after);
      case Subscribe(c, after) => ResubscribeKeeps(hub, c, after);
      case Close(c) => CloseKeeps(hub, c);
      case Leave(c) => LeaveKeeps(hub, c);
      case ReplayReads(r) => ReplayReadsKeeps(hub, r);
      case ReplayResumes(r, slow) => ReplayResumesKeeps(hub, r, slow);
      case ReplayFails(r) => ReplayFailsKeeps(hub, r);
      case FlushStarts => FlushKeeps(hub, Next(hub, step));
      case FlushReads =>
        FlushReadsSlice(hub);
        FlushKeeps(hub, Next(hub, step));
      case FlushResumes(slow) => FlushResumesKeeps(hub, slow);
      case FlushFails => FlushKeeps(hub, Next(hub, step));
    }
  }

  lemma FlushReadsSlice(hub: Hub)
    requires HubInv(hub)
    ensures Slice(hub.log, hub.latestBroadcastId, ReadAfter(hub.log, hub.latestBroadcastId, MAX_REPLAY))
  {
    ReadIsNext(hub.log, hub.latestBroadcastId, MAX_REPLAY);
  }

  lemma FlushKeeps(hub: Hub, after: Hub)
    requires HubInv(hub) && after == hub.(flush := after.flush)
    requires after.flush.Answered? && !hub.flush.Answered? ==> Slice(hub.log, hub.latestBroadcastId, after.flush.events)
    requires after.flush.Answered? && hub.flush.Answered? ==> after.flush == hub.flush
    ensures HubInv(after)
  {
    hide Slice, Increasing, Kept;
    forall c | c in after.clients ensures Kept(after, c) {
      OthersKeep(hub, after, c);
    }
  }

  // ---------------------------------------------------------------------------
  // Delivery over whole runs
  // ---------------------------------------------------------------------------

  function Run(start: Hub, steps: seq<Step>): Hub {
    if steps == [] then start else Next(Run(start, steps[..|steps| - 1]), steps[|steps| - 1])
  }

  lemma {:induction false} RunKeeps(start: Hub, steps: seq<Step>)
    requires HubInv(start)
    ensures HubInv(Run(start, steps))
  {
    hide HubInv, Next;
    if steps != [] {
      RunKeeps(start, steps[..|steps| - 1]);
      StepKeeps(Run(start, steps[..|steps| - 1]), steps[|steps| - 1]);
    }
  }

  lemma StartedKeeps(log: seq<nat>, maxClients: nat, maxReplayLag: nat)
    requires Increasing(log)
    ensures HubInv(Started(log, maxClients, maxReplayLag))
  {
  }

  /** An ask is refused exactly when the broadcast is more than the lag ahead of it; otherwise a replay from the position
      asked for is under way. */
  predicate Answers(before: Hub, after: Hub, c: nat, position: nat) {
    && c in after.clients && after.clients[c].lastEventId == position == after.clients[c].requested
    && (after.clients[c].resynced <==> before.latestBroadcastId > position + before.maxReplayLag)
    && after.replays == (if after.clients[c].resynced then before.replays
                         else before.replays[before.nextReplay := Reading(c, position)])
  }

  lemma AskIsAnswered(hub: Hub, c: nat, after: nat)
    ensures |hub.clients| < hub.maxClients ==> Answers(hub, Next(hub, Join(after)), hub.nextClient, after)
    ensures c in hub.clients ==> Answers(hub, Next(hub, Subscribe(c, after)), c, after)
  {
  }

  /** A replay that reads and resumes tells its client to start over exactly when more than 500 events lie above its
      position; otherwise it sends a socket that keeps up all of them. */
  lemma ReplayIsAnswered(hub: Hub, r: nat)
    requires HubInv(hub) && r in hub.replays && hub.replays[r].Reading? && hub.replays[r].client in hub.clients
    requires hub.clients[hub.replays[r].client].open
    ensures var c := hub.replays[r].client;
            var above := hub.log[Position(hub.log, hub.replays[r].after)..];
            var after := Next(Next(hub, ReplayReads(r)), ReplayResumes(r, NeverSlow()));
            && c in after.clients && after.replays == hub.replays - {r}
            && (after.clients[c].resynced <==> hub.clients[c].resynced || |above| > 500)
            && after.clients[c].sent == hub.clients[c].sent + (if |above| > 500 then [] else above)
  {
    hide HubInv, ReplayAll, ReadAfter;
    var c := hub.replays[r].client;
    var read := Next(hub, ReplayReads(r));
    ReadsAllOrTooMany(hub.log, hub.replays[r].after);
    var events := read.replays[r].events;
    NeverSlowStaysOpen(hub.clients[c], events);
    ReplayAllSends(hub.clients[c], events, NeverSlow());
    assert read.replays - {r} == hub.replays - {r};
  }

  lemma ReadsAllOrTooMany(log: seq<nat>, after: nat)
    ensures var above := log[Position(log, after)..];
            var events := ReadAfter(log, after, MAX_REPLAY + 1);
            if |above| > 500 then |events| > MAX_REPLAY else |events| <= MAX_REPLAY && events == above
  {
  }

  lemma {:induction false} NeverSlowStaysOpen(client: Client, rows: seq<nat>)
    requires client.open
    ensures ReplayAll(client, rows, NeverSlow()).open
  {
    if rows != [] {
      NeverSlowStaysOpen(client, rows[..|rows| - 1]);
    }
  }

  /** Clients and the replays they started have numbers that were given out. */
  lemma TakenNumbers(hub: Hub, c: nat)
    requires HubInv(hub)
    ensures c in hub.clients ==> c < hub.nextClient
    ensures forall r :: r in hub.replays ==> hub.replays[r].client < hub.nextClient
  {
  }

  predicate NeverAsks(steps: seq<Step>, c: nat) {
    forall k :: 0 <= k < |steps| ==> !(steps[k].Subscribe? && steps[k].client == c)
  }

  ghost predicate NoReplay(hub: Hub, c: nat) {
    forall r :: r in hub.replays ==> hub.replays[r].client != c
  }

  /** Since it last asked, a client that is open and awaits no replay, was not told to start over, had no failing replay
      and was not exposed by a commit has been sent every event above its request that the hub has broadcast. */
  lemma Delivery(log: seq<nat>, maxClients: nat, maxReplayLag: nat, steps: seq<Step>, c: nat)
    requires Increasing(log)
    requires var hub := Run(Started(log, maxClients, maxReplayLag), steps);
             c in hub.clients && Served(hub.clients[c]) && NoReplay(hub, c)
    ensures var hub := Run(Started(log, maxClients, maxReplayLag), steps);
            forall e :: e in hub.log && hub.clients[c].requested < e <= hub.latestBroadcastId ==> e in hub.clients[c].sent
  {
    hide Run;
    StartedKeeps(log, maxClients, maxReplayLag);
    RunKeeps(Started(log, maxClients, maxReplayLag), steps);
    assert Owed(Run(Started(log, maxClients, maxReplayLag), steps), c);
  }

  /** A hub starts at the end of the outbox: only what is committed later is broadcast. */
  lemma StartsAtTheEnd(log: seq<nat>, maxClients: nat, maxReplayLag: nat)
    requires Increasing(log)
    ensures var hub := Started(log, maxClients, maxReplayLag);
            && (forall e :: e in log ==> e <= hub.latestBroadcastId)
            && (log != [] ==> hub.latestBroadcastId in log) && (log == [] ==> hub.latestBroadcastId == 0)
            && hub.clients == map[] && hub.replays == map[] && hub.flush == Idle
  {
    forall e | e in log ensures e <= LatestId(log) {
      LastIsMost(log, e);
    }
  }

  /** Listed with a closed socket and so much sent, or gone for good. */
  predicate Silent(hub: Hub, c: nat, sent: seq<nat>) {
    && c < hub.nextClient && (forall k :: k in hub.clients ==> k < hub.nextClient)
    && (c in hub.clients ==> !hub.clients[c].open && hub.clients[c].sent == sent)
  }

  lemma SilentStays(hub: Hub, step: Step, c: nat, sent: seq<nat>)
    requires Silent(hub, c, sent)
    ensures Silent(Next(hub, step), c, sent)
    ensures c !in hub.clients ==> c !in Next(hub, step).clients
  {
    hide Misses, ReadAfter, ReplayTooOld, ReplayAll, BroadcastAll;
    match step
    case ReplayResumes(r, slow) =>
      if Enabled(hub, step) && c in hub.clients {
        ReplayAllKeeps(hub.clients[c], hub.replays[r].events, slow);
        ReplayAllToClosed(hub.clients[c], hub.replays[r].events, slow);
      }
    case FlushResumes(slow) =>
      if Enabled(hub, step) {
        BroadcastToClosed(hub.clients, hub.flush.events, slow, c);
      }
    case _ =>
  }

  lemma {:induction false} ReplayAllToClosed(client: Client, events: seq<nat>, slow: nat -> bool)
    requires !client.open
    ensures ReplayAll(client, events, slow) == client
  {
    if events != [] {
      ReplayAllToClosed(client, events[..|events| - 1], slow);
    }
  }

  lemma {:induction false} BroadcastToClosed(clients: map<nat, Client>, events: seq<nat>, slow: (nat, nat) -> bool, c: nat)
    ensures BroadcastAll(clients, events, slow).Keys == clients.Keys
    ensures c in clients && !clients[c].open ==> BroadcastAll(clients, events, slow)[c] == clients[c]
  {
    if events != [] {
      BroadcastToClosed(clients, events[..|events| - 1], slow, c);
    }
  }

  lemma {:induction false} SilentRun(hub: Hub, steps: seq<Step>, c: nat, sent: seq<nat>)
    requires Silent(hub, c, sent)
    ensures Silent(Run(hub, steps), c, sent)
    ensures c !in hub.clients ==> c !in Run(hub, steps).clients
  {
    hide Silent, Next;
    if steps != [] {
      SilentRun(hub, steps[..|steps| - 1], c, sent);
      SilentStays(Run(hub, steps[..|steps| - 1]), steps[|steps| - 1], c, sent);
    }
  }

  /** Once its socket is closed a client is sent nothing more, whatever it asks; once it has left it never comes back. */
  lemma NothingAfterClose(hub: Hub, steps: seq<Step>, c: nat)
    requires HubInv(hub) && c in hub.clients
    ensures var closed := Run(Next(hub, Close(c)), steps);
            c in closed.clients ==> !closed.clients[c].open && closed.clients[c].sent == hub.clients[c].sent
    ensures c !in Run(Next(hub, Leave(c)), steps).clients
  {
    forall k | k in hub.clients ensures k < hub.nextClient {
      TakenNumbers(hub, k);
    }
    hide HubInv;
    SilentRun(Next(hub, Close(c)), steps, c, hub.clients[c].sent);
    SilentRun(Next(hub, Leave(c)), steps, c, hub.clients[c].sent);
  }

  /** While a broadcast runs another one starts nothing; one whose read failed has sent nothing and may start again; a
      replay whose read failed is over. */
  lemma OneFlushAtATime(hub: Hub)
    ensures forall r :: r in hub.replays ==> Next(hub, ReplayFails(r)).replays == hub.replays - {r}
    ensures hub.flush != Idle ==> Next(hub, FlushStarts) == hub
    ensures Next(hub, FlushFails).flush == Idle && Next(Next(hub, FlushFails), FlushStarts) == hub.(flush := Querying)
  {
  }

  /** A round that read 500 rows is followed by another read; a shorter one ends. */
  lemma RoundsGoOn(hub: Hub, slow: (nat, nat) -> bool)
    requires HubInv(hub) && hub.flush.Querying?
    ensures var waiting := |hub.log| - Position(hub.log, hub.latestBroadcastId);
            var after := Next(Next(hub, FlushReads), FlushResumes(slow));
            && (after.flush == Querying <==> waiting >= 500) && (after.flush == Idle <==> waiting < 500)
            && (waiting < 500 ==> forall e :: e in hub.log ==> e <= after.latestBroadcastId)
  {
    hide HubInv, BroadcastAll, Increasing;
    var read := Next(hub, FlushReads);
    StepKeeps(hub, FlushReads);
    ReadsUpToFiveHundred(hub.log, hub.latestBroadcastId);
    if |hub.log| - Position(hub.log, hub.latestBroadcastId) < 500 {
      ShortFlushCatchesUp(read, slow);
    }
  }

  lemma ReadsUpToFiveHundred(log: seq<nat>, after: nat)
    ensures var (waiting, read) := (|log| - Position(log, after), |ReadAfter(log, after, MAX_REPLAY)|);
            if waiting >= 500 then read == MAX_REPLAY else read == waiting < MAX_REPLAY
  {
  }

  /** A broadcast round whose read came back short leaves nothing of what was committed by then unbroadcast. */
  lemma ShortFlushCatchesUp(hub: Hub, slow: (nat, nat) -> bool)
    requires HubInv(hub) && hub.flush == Answered(ReadAfter(hub.log, hub.latestBroadcastId, MAX_REPLAY))
    requires |hub.flush.events| < MAX_REPLAY
    ensures var after := ResumeFlush(hub, slow);
            after.flush == Idle && forall e :: e in hub.log ==> e <= after.latestBroadcastId
  {
    hide BroadcastAll;
    var after := ResumeFlush(hub, slow);
    ReadIsNext(hub.log, hub.latestBroadcastId, MAX_REPLAY);
    FlushReadsSlice(hub);
    forall e | e in hub.log ensures e <= after.latestBroadcastId {
      if e > hub.latestBroadcastId {
        assert e in hub.flush.events;
        SliceIncreases(hub.log, hub.latestBroadcastId, hub.flush.events);
        LastIsMost(hub.flush.events, e);
      } else if hub.flush.events != [] {
        SliceHolds(hub.log, hub.latestBroadcastId, hub.flush.events, e);
      }
    }
  }

  // Sockets that keep up, for the histories in which nobody is cut off.

  function NeverSlow(): nat -> bool {
    _ => false
  }

  function NobodySlow(): (nat, nat) -> bool {
    (_, _) => false
  }

  // ---------------------------------------------------------------------------
  // The hub as an object
  // ---------------------------------------------------------------------------

  /** The hub between two awaits. Each method is one such stretch; the loops run over the rows of one read. */
  class MarketRealtimeHub {
    const maxClients: nat
    const maxReplayLag: nat
    /** The outbox, which others append to. */
    var log: seq<nat>
    var clients: map<nat, Client>
    var nextClient: nat
    var latestBroadcastId: nat
    var replays: map<nat, Replay>
    var nextReplay: nat
    var flush: Flush

    function State(): Hub
      reads this
    {
      Hub(log, clients, nextClient, latestBroadcastId, replays, nextReplay, flush, maxClients, maxReplayLag)
    }

    constructor (log: seq<nat>, maxClients: nat, maxReplayLag: nat)
      ensures State() == Started(log, maxClients, maxReplayLag)
    {
      this.maxClients, this.maxReplayLag := maxClients, maxReplayLag;
      this.log, clients, nextClient := log, map[], 0;
      latestBroadcastId, replays, nextReplay, flush := LatestId(log), map[], 0, Idle;
    }

    /** Takes a client if there is room, and starts its replay. */
    method AddClient(after: nat) returns (accepted: bool)
      modifies this
      ensures State() == Add(old(State()), after) && (accepted <==> |old(clients)| < maxClients)
      ensures accepted ==> Answers(old(State()), State(), old(nextClient), after)
      ensures !accepted ==> State() == old(State())
    {
      accepted := |clients| < maxClients;
      if !accepted {
        return;
      }
      clients := clients[nextClient := Client(after, true, [], after, false, false, false)];
      nextClient := nextClient + 1;
      BeginReplay(nextClient - 1);
    }

    /** A replay up to its read: it is refused when the client is too far behind. */
    method BeginReplay(c: nat)
      requires c in clients
      modifies this
      ensures State() == StartReplay(old(State()), c)
    {
      var after := clients[c].lastEventId;
      if latestBroadcastId > after && latestBroadcastId - after > maxReplayLag {
        clients := clients[c := clients[c].(resynced := true)];
      } else {
        replays := replays[nextReplay := Reading(c, after)];
        nextReplay := nextReplay + 1;
      }
    }

    /** Moves a client to the position it asks for, and starts another replay. */
    method HandleSubscribe(c: nat, after: nat)
      requires c in clients
      modifies this
      ensures State() == Resubscribe(old(State()), c, after)
      ensures Answers(old(State()), State(), c, after)
    {
      clients := clients[c := Asking(clients[c], after)];
      BeginReplay(c);
    }

    /** Sends the rows of a replay until one is not taken. */
    method Replayed(r: nat, slow: nat -> bool)
      requires r in replays && replays[r].Fetched?
      modifies this
      ensures State() == ResumeReplay(old(State()), r, slow)
    {
      var Fetched(c, _, events) := replays[r];
      replays := replays - {r};
      if c !in clients {
        return;
      }
      if |events| > MAX_REPLAY {
        clients := clients[c := clients[c].(resynced := true)];
        return;
      }
      var client := clients[c];
      for i := 0 to |events|
        invariant client == ReplayAll(clients[c], events[..i], slow)
        invariant State() == old(State()).(replays := old(replays) - {r})
      {
        assert events[..i + 1][..i] == events[..i];
        if !client.open {
          StaysClosed(clients[c], events, slow, i);
          break;
        }
        client := Deliver(client, events[i], slow(events[i]));
      }
      assert events[..|events|] == events;
      clients := clients[c := client];
    }

    /** Offers each row of a read to each client, and moves the broadcast position along. */
    method Flushed(slow: (nat, nat) -> bool)
      requires flush.Answered?
      modifies this
      ensures State() == ResumeFlush(old(State()), slow)
    {
      var events := flush.events;
      for i := 0 to |events|
        invariant State() == old(State()).(
          clients := BroadcastAll(old(clients), events[..i], slow),
          latestBroadcastId := if i == 0 then old(latestBroadcastId) else events[i - 1])
      {
        assert events[..i + 1][..i] == events[..i];
        BroadcastEvent(events[i], slow);
      }
      assert events[..|events|] == events;
      flush := if |events| == MAX_REPLAY then Querying else Idle;
    }

    method BroadcastEvent(id: nat, slow: (nat, nat) -> bool)
      modifies this
      ensures State() == old(State()).(clients := BroadcastOne(old(clients), id, slow), latestBroadcastId := id)
    {
      var left := clients.Keys;
      var offered := clients;
      while left != {}
        invariant left <= clients.Keys && offered.Keys == clients.Keys && State() == old(State())
        invariant forall c :: c in offered ==> offered[c] == if c in left then clients[c] else Offer(clients[c], id, slow(c, id))
        decreases |left|
      {
        var c :| c in left;
        offered := offered[c := Offer(offered[c], id, slow(c, id))];
        left := left - {c};
      }
      assert offered == BroadcastOne(clients, id, slow);
      clients := offered;
      latestBroadcastId := id;
    }
  }

  lemma {:induction false} StaysClosed(client: Client, events: seq<nat>, slow: nat -> bool, i: nat)
    requires i <= |events| && !ReplayAll(client, events[..i], slow).open
    ensures ReplayAll(client, events, slow) == ReplayAll(client, events[..i], slow)
    decreases |events|
  {
    if i == |events| {
      assert events[..i] == events;
    } else {
      assert events[..|events| - 1][..i] == events[..i];
      StaysClosed(client, events[..|events| - 1], slow, i);
    }
  }
}

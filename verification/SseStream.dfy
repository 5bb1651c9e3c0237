/** The server-sent event streams: one cursor, one read at a time, backpressure, and the slots they take. */
module SseStream {
  import opened OutboxReads

  datatype Frame = EventFrame(id: nat) | ResyncFrame | ErrorFrame | CommentFrame

  /** The `busy` flag, and what the flush it guards is waiting for. */
  datatype Fetch = Free | Querying | Answered(events: seq<nat>)

  /** How the stream's controller takes a frame. */
  datatype Sink = Accepts | Full | Broken

  datatype Stream = Stream(initial: nat, cursor: nat, fetch: Fetch, closed: bool, released: bool, frames: seq<Frame>)

  /** A full queue refuses a frame unless it is forced; a broken one closes the stream. */
  function Send(s: Stream, frame: Frame, force: bool, sink: Sink): (r: (Stream, bool))
    ensures r.1 <==> !s.closed && sink != Broken && (force || sink != Full)
    ensures r.1 ==> r.0 == s.(frames := s.frames + [frame])
    ensures !r.1 ==> r.0.closed == (s.closed || sink == Broken)
    ensures !r.1 ==> r.0 == s.(closed := r.0.closed, released := r.0.released)
    ensures s.released ==> r.0.released
  {
    if s.closed || (!force && sink == Full) then (s, false)
    else if sink == Broken then (s.(closed := true, released := true), false)
    else (s.(frames := s.frames + [frame]), true)
  }

  function Close(s: Stream): Stream {
    if s.closed then s else s.(closed := true, released := true)
  }

  function Cancel(s: Stream): Stream {
    s.(closed := true, released := true)
  }

  function StartFlush(s: Stream): Stream {
    if s.fetch != Free || s.closed then s else s.(fetch := Querying)
  }

  /** Sends rows until one is refused; the cursor follows what was sent. */
  function DeliverAll(s: Stream, events: seq<nat>, sinks: nat -> Sink): (Stream, bool) {
    if events == [] then (s, true)
    else
      var last := events[|events| - 1];
      var (before, going) := DeliverAll(s, events[..|events| - 1], sinks);
      if !going then (before, false)
      else
        var (after, sent) := Send(before, EventFrame(last), false, sinks(last));
        if sent then (after.(cursor := last), true) else (after, false)
  }

  /** The rest of a flush once its rows are there. */
  function ResumeFlush(s: Stream, maxReplay: nat, sinks: nat -> Sink, resyncSink: Sink): Stream
    requires s.fetch.Answered?
  {
    var events := s.fetch.events;
    var after :=
      if s.closed then s
      else if |events| > maxReplay then Close(Send(s, ResyncFrame, true, resyncSink).0)
      else DeliverAll(s, events, sinks).0;
    after.(fetch := Free)
  }

  function FailFlush(s: Stream, sink: Sink): Stream {
    Send(s, ErrorFrame, true, sink).0.(fetch := Free)
  }

  function Heartbeat(s: Stream, sink: Sink): Stream {
    var (after, sent) := Send(s, CommentFrame, false, sink);
    if sent then StartFlush(after) else after
  }

  // ---------------------------------------------------------------------------
  // What a stream has sent
  // ---------------------------------------------------------------------------

  function EventIds(frames: seq<Frame>): seq<nat> {
    if frames == [] then []
    else
      var last := frames[|frames| - 1];
      EventIds(frames[..|frames| - 1]) + if last.EventFrame? then [last.id] else []
  }

  lemma EventIdsAppend(frames: seq<Frame>, frame: Frame)
    ensures EventIds(frames + [frame]) == if frame.EventFrame? then EventIds(frames) + [frame.id] else EventIds(frames)
  {
    assert (frames + [frame])[..|frames|] == frames;
  }

  /** More rows wait behind the cursor than a stream may replay. */
  predicate Behind(log: seq<nat>, cursor: nat, maxReplay: nat) {
    |log| - Position(log, cursor) > maxReplay
  }

  /** Sent events are a run of the outbox, gap-free and without repetition, that starts right after the initial
      position; the cursor is its end; a resync is the last frame, and had more rows behind it than may be replayed. */
  ghost predicate StreamInv(log: seq<nat>, maxReplay: nat, s: Stream) {
    && Slice(log, s.initial, EventIds(s.frames))
    && s.cursor == (if EventIds(s.frames) == [] then s.initial else EventIds(s.frames)[|EventIds(s.frames)| - 1])
    && (s.closed ==> s.released)
    && (s.fetch.Answered? ==> Slice(log, s.cursor, s.fetch.events) && |s.fetch.events| <= ClampLimit(maxReplay + 1))
    && (forall i :: 0 <= i < |s.frames| && s.frames[i] == ResyncFrame ==>
          i == |s.frames| - 1 && s.closed && Behind(log, s.cursor, maxReplay) && maxReplay < MAX_READ)
  }

  /** Two runs that meet are one run. */
  lemma SlicesJoin(log: seq<nat>, after: nat, first: seq<nat>, second: seq<nat>)
    requires Increasing(log) && Slice(log, after, first)
    requires Slice(log, if first == [] then after else first[|first| - 1], second)
    ensures Slice(log, after, first + second)
  {
    var p := Position(log, after);
    if first != [] {
      PositionIs(log, first[|first| - 1], p + |first|);
    }
    assert log[p..p + |first| + |second|] == log[p..p + |first|] + log[p + |first|..p + |first| + |second|];
  }

  lemma SlicePrefix(log: seq<nat>, after: nat, events: seq<nat>, n: nat)
    requires Slice(log, after, events) && n <= |events|
    ensures Slice(log, after, events[..n])
  {
  }

  /** A delivery sends a prefix of the rows, all of them if it gets to the end, and the cursor follows. */
  lemma {:induction false} DeliverySendsPrefix(s: Stream, events: seq<nat>, sinks: nat -> Sink) returns (n: nat)
    ensures n <= |events| && (DeliverAll(s, events, sinks).1 ==> n == |events|)
    ensures var after := DeliverAll(s, events, sinks).0;
            && EventIds(after.frames) == EventIds(s.frames) + events[..n]
            && after.cursor == (if n == 0 then s.cursor else events[n - 1])
            && after.initial == s.initial
  {
    hide EventIds, Send;
    if events == [] {
      n := 0;
    } else {
      var last := |events| - 1;
      n := DeliverySendsPrefix(s, events[..last], sinks);
      var (before, going) := DeliverAll(s, events[..last], sinks);
      assert events[..last][..n] == events[..n];
      if going && Send(before, EventFrame(events[last]), false, sinks(events[last])).1 {
        EventIdsAppend(before.frames, EventFrame(events[last]));
        n := |events|;
        assert EventIds(s.frames) + events[..last] + [events[last]] == EventIds(s.frames) + events[..n];
      }
    }
  }

  /** A delivery adds event frames only; it gives the slot up when it closes the stream, and only then. */
  lemma {:induction false} DeliveryAddsEvents(s: Stream, events: seq<nat>, sinks: nat -> Sink)
    ensures var (after, going) := DeliverAll(s, events, sinks);
            && s.frames <= after.frames
            && (forall i :: |s.frames| <= i < |after.frames| ==> after.frames[i].EventFrame?)
            && (s.released ==> after.released) && (s.closed ==> after.closed)
            && (after.closed && !s.closed ==> after.released)
  {
    if events != [] {
      DeliveryAddsEvents(s, events[..|events| - 1], sinks);
    }
  }

  lemma SendKeeps(log: seq<nat>, maxReplay: nat, s: Stream, frame: Frame, force: bool, sink: Sink)
    requires StreamInv(log, maxReplay, s) && frame != ResyncFrame && !frame.EventFrame?
    ensures StreamInv(log, maxReplay, Send(s, frame, force, sink).0)
  {
    hide Slice;
    EventIdsAppend(s.frames, frame);
  }

  lemma ResyncKeeps(log: seq<nat>, maxReplay: nat, s: Stream, resyncSink: Sink)
    requires StreamInv(log, maxReplay, s) && s.fetch.Answered? && !s.closed && |s.fetch.events| > maxReplay
    ensures StreamInv(log, maxReplay, Close(Send(s, ResyncFrame, true, resyncSink).0).(fetch := Free))
  {
    hide EventIds, Slice, Behind, Position;
    MoreRowsAreBehind(log, s.cursor, s.fetch.events, maxReplay);
    EventIdsAppend(s.frames, ResyncFrame);
  }

  lemma MoreRowsAreBehind(log: seq<nat>, cursor: nat, events: seq<nat>, maxReplay: nat)
    requires Slice(log, cursor, events) && |events| > maxReplay
    ensures Behind(log, cursor, maxReplay)
  {
    hide Position;
  }

  lemma DeliveryKeeps(log: seq<nat>, maxReplay: nat, s: Stream, sinks: nat -> Sink)
    requires Increasing(log) && StreamInv(log, maxReplay, s) && s.fetch.Answered? && !s.closed
    ensures StreamInv(log, maxReplay, DeliverAll(s, s.fetch.events, sinks).0.(fetch := Free))
  {
    hide Slice, DeliverAll, EventIds, Behind, Increasing;
    var n := DeliverySendsPrefix(s, s.fetch.events, sinks);
    DeliveryAddsEvents(s, s.fetch.events, sinks);
    SlicePrefix(log, s.cursor, s.fetch.events, n);
    SlicesJoin(log, s.initial, EventIds(s.frames), s.fetch.events[..n]);
  }

  lemma ResumeKeeps(log: seq<nat>, maxReplay: nat, s: Stream, sinks: nat -> Sink, resyncSink: Sink)
    requires Increasing(log) && StreamInv(log, maxReplay, s) && s.fetch.Answered?
    ensures StreamInv(log, maxReplay, ResumeFlush(s, maxReplay, sinks, resyncSink))
  {
    hide EventIds, Slice, DeliverAll, Send;
    if !s.closed && |s.fetch.events| > maxReplay {
      ResyncKeeps(log, maxReplay, s, resyncSink);
    } else if !s.closed {
      DeliveryKeeps(log, maxReplay, s, sinks);
    }
  }

  /** An open stream whose queue takes every frame gets to the end of what was read. */
  lemma {:induction false} AcceptedDeliveryEnds(s: Stream, events: seq<nat>, sinks: nat -> Sink)
    requires !s.closed && forall e :: e in events ==> sinks(e) == Accepts
    ensures DeliverAll(s, events, sinks).1 && !DeliverAll(s, events, sinks).0.closed
  {
    if events != [] {
      var n := |events| - 1;
      assert events == events[..n] + [events[n]];
      AcceptedDeliveryEnds(s, events[..n], sinks);
    }
  }

  /** A flush with nothing newer than its read brings an open stream with an empty queue up to the end of the outbox. */
  lemma FlushCatchesUp(log: seq<nat>, maxReplay: nat, s: Stream, sinks: nat -> Sink, resyncSink: Sink)
    requires Increasing(log) && !s.closed && s.cursor <= LatestId(log) && forall e :: sinks(e) == Accepts
    requires s.fetch == Answered(ReadAfter(log, s.cursor, maxReplay + 1)) && !Behind(log, s.cursor, maxReplay)
    requires |log| - Position(log, s.cursor) <= 1000
    ensures var after := ResumeFlush(s, maxReplay, sinks, resyncSink);
            && !after.closed && after.fetch == Free && after.cursor == LatestId(log)
            && EventIds(after.frames) == EventIds(s.frames) + log[Position(log, s.cursor)..]
  {
    hide EventIds, DeliverAll, ReadAfter, Increasing;
    var events := s.fetch.events;
    ReadsAllWaiting(log, s.cursor, maxReplay);
    AcceptedDeliveryEnds(s, events, sinks);
    var n := DeliverySendsPrefix(s, events, sinks);
    assert events[..n] == events;
    WaitingEnds(log, s.cursor);
  }

  lemma ReadsAllWaiting(log: seq<nat>, cursor: nat, maxReplay: nat)
    requires !Behind(log, cursor, maxReplay) && |log| - Position(log, cursor) <= 1000
    ensures ReadAfter(log, cursor, maxReplay + 1) == log[Position(log, cursor)..]
  {
    hide Position;
  }

  lemma WaitingEnds(log: seq<nat>, cursor: nat)
    requires Increasing(log) && cursor <= LatestId(log)
    ensures var waiting := log[Position(log, cursor)..];
            LatestId(log) == if waiting == [] then cursor else waiting[|waiting| - 1]
  {
    if Position(log, cursor) == |log| {
      AtTheEnd(log, cursor);
    }
  }

  lemma AtTheEnd(log: seq<nat>, cursor: nat)
    requires Increasing(log) && Position(log, cursor) == |log| && cursor <= LatestId(log)
    ensures cursor == LatestId(log)
  {
    PositionSplits(log, cursor);
  }

  /** A resync is sent exactly when the stream is open, its queue takes the frame, and more rows were read than it may
      replay. */
  lemma ResyncExactly(s: Stream, maxReplay: nat, sinks: nat -> Sink, resyncSink: Sink)
    requires s.fetch.Answered? && ResyncFrame !in s.frames
    ensures ResyncFrame in ResumeFlush(s, maxReplay, sinks, resyncSink).frames
            <==> !s.closed && |s.fetch.events| > maxReplay && resyncSink != Broken
  {
    if !s.closed && |s.fetch.events| <= maxReplay {
      hide DeliverAll;
      DeliveryAddsEvents(s, s.fetch.events, sinks);
    }
  }

  /** So many rows are read exactly when more are pending and the limit is below the read's own bound of a thousand. */
  lemma OverflowExactly(log: seq<nat>, cursor: nat, maxReplay: nat)
    requires Increasing(log)
    ensures |ReadAfter(log, cursor, maxReplay + 1)| > maxReplay <==> Behind(log, cursor, maxReplay) && maxReplay < MAX_READ
  {
    ReadIsNext(log, cursor, maxReplay + 1);
  }

  lemma AppendKeeps(log: seq<nat>, maxReplay: nat, s: Stream, id: nat)
    requires Increasing(log) && StreamInv(log, maxReplay, s) && id > LatestId(log)
    ensures StreamInv(log + [id], maxReplay, s)
  {
    SliceAppended(log, s.initial, EventIds(s.frames), id);
    if s.fetch.Answered? {
      SliceAppended(log, s.cursor, s.fetch.events, id);
    }
    assert (log + [id])[..|log|] == log;
    hide Slice, EventIds;
    if i :| 0 <= i < |s.frames| && s.frames[i] == ResyncFrame {
      StaysBehind(log, id, s.cursor, maxReplay);
    }
  }

  lemma StaysBehind(log: seq<nat>, id: nat, cursor: nat, maxReplay: nat)
    requires Increasing(log) && id > LatestId(log) && Behind(log, cursor, maxReplay)
    ensures Behind(log + [id], cursor, maxReplay)
  {
    PositionSplits(log, cursor);
    assert log[Position(log, cursor)] > cursor;
    AppendKeepsPosition(log, id, cursor);
  }

  // ---------------------------------------------------------------------------
  // All the streams of a server
  // ---------------------------------------------------------------------------

  datatype Server = Server(
    log: seq<nat>, streams: map<nat, Stream>, next: nat, active: nat, maxClients: nat, maxReplay: nat)

  datatype Step =
    | Commit(id: nat)
    | Open(after: nat, sink: Sink)
    | Wake(stream: nat)
    | Beat(stream: nat, sink: Sink)
    | Reads(stream: nat)
    | ReadFails(stream: nat, sink: Sink)
    | Resumes(stream: nat, sinks: nat -> Sink, resyncSink: Sink)
    | Cancelled(stream: nat)

  /** Replaces a stream; giving up its slot frees one, once. */
  function Replace(v: Server, k: nat, s: Stream): Server
    requires k in v.streams
  {
    var freed := !v.streams[k].released && s.released;
    v.(streams := v.streams[k := s], active := if freed && v.active > 0 then v.active - 1 else v.active)
  }

  /** A server with one more stream, which takes a slot. */
  function Seated(v: Server, newcomer: Stream): Server {
    v.(streams := v.streams[v.next := newcomer], next := v.next + 1, active := v.active + 1)
  }

  /** A new stream sends its greeting and starts its first flush. */
  function Admit(v: Server, after: nat, sink: Sink): Server {
    if v.active >= v.maxClients then v
    else
      var newcomer := Stream(after, after, Free, false, false, []);
      Replace(Seated(v, newcomer), v.next, StartFlush(Send(newcomer, CommentFrame, true, sink).0))
  }

  function StepStream(v: Server, s: Stream, step: Step): Stream {
    match step
    case Wake(_) => StartFlush(s)
    case Beat(_, sink) => Heartbeat(s, sink)
    case Reads(_) =>
      if s.fetch.Querying? then s.(fetch := Answered(ReadAfter(v.log, s.cursor, v.maxReplay + 1))) else s
    case ReadFails(_, sink) => if s.fetch.Querying? then FailFlush(s, sink) else s
    case Resumes(_, sinks, resyncSink) => if s.fetch.Answered? then ResumeFlush(s, v.maxReplay, sinks, resyncSink) else s
    case Cancelled(_) => Cancel(s)
    case _ => s
  }

  function Next(v: Server, step: Step): Server {
    match step
    case Commit(id) => if id > LatestId(v.log) then v.(log := v.log + [id]) else v
    case Open(after, sink) => Admit(v, after, sink)
    case _ => if step.stream in v.streams then Replace(v, step.stream, StepStream(v, v.streams[step.stream], step)) else v
  }

  function Holding(streams: map<nat, Stream>): set<nat> {
    set k | k in streams && !streams[k].released
  }

  ghost predicate ServerInv(v: Server) {
    && Increasing(v.log)
    && (forall k :: k in v.streams ==> k < v.next && StreamInv(v.log, v.maxReplay, v.streams[k]))
    && v.active == |Holding(v.streams)| <= v.maxClients
  }

  lemma StepStreamKeeps(v: Server, s: Stream, step: Step)
    requires Increasing(v.log) && StreamInv(v.log, v.maxReplay, s)
    ensures StreamInv(v.log, v.maxReplay, StepStream(v, s, step)) && (s.released ==> StepStream(v, s, step).released)
  {
    hide EventIds, Slice, ResumeFlush, DeliverAll;
    match step {
      case Beat(_, sink) => SendKeeps(v.log, v.maxReplay, s, CommentFrame, false, sink);
      case Reads(_) => ReadSlice(v.log, s.cursor, v.maxReplay);
      case ReadFails(_, sink) => SendKeeps(v.log, v.maxReplay, s, ErrorFrame, true, sink);
      case Resumes(_, sinks, resyncSink) =>
        if s.fetch.Answered? {
          ResumeKeeps(v.log, v.maxReplay, s, sinks, resyncSink);
          ResumeReleases(s, v.maxReplay, sinks, resyncSink);
        }
      case _ =>
    }
  }

  lemma ReadSlice(log: seq<nat>, cursor: nat, maxReplay: nat)
    ensures var events := ReadAfter(log, cursor, maxReplay + 1);
            Slice(log, cursor, events) && |events| <= ClampLimit(maxReplay + 1)
  {
    hide Position;
    var p := Position(log, cursor);
    var events := ReadAfter(log, cursor, maxReplay + 1);
    assert events == log[p..p + |events|];
  }

  lemma ResumeReleases(s: Stream, maxReplay: nat, sinks: nat -> Sink, resyncSink: Sink)
    requires s.fetch.Answered?
    ensures s.released ==> ResumeFlush(s, maxReplay, sinks, resyncSink).released
  {
    DeliveryAddsEvents(s, s.fetch.events, sinks);
  }

  lemma ReplaceKeeps(v: Server, k: nat, s: Stream)
    requires ServerInv(v) && k in v.streams && StreamInv(v.log, v.maxReplay, s)
    requires v.streams[k].released ==> s.released
    ensures ServerInv(Replace(v, k, s))
  {
    hide StreamInv;
    var after := v.streams[k := s];
    if v.streams[k].released {
      assert Holding(after) == Holding(v.streams);
    } else if s.released {
      assert Holding(after) == Holding(v.streams) - {k};
    } else {
      assert Holding(after) == Holding(v.streams);
    }
  }

  lemma NewcomerKeeps(log: seq<nat>, maxReplay: nat, s: Stream)
    requires s == Stream(s.initial, s.initial, Free, false, false, [])
    ensures StreamInv(log, maxReplay, s)
  {
  }

  lemma SeatedKeeps(v: Server, newcomer: Stream)
    requires ServerInv(v) && v.active < v.maxClients && !newcomer.released && StreamInv(v.log, v.maxReplay, newcomer)
    ensures ServerInv(Seated(v, newcomer))
  {
    hide StreamInv;
    assert Holding(Seated(v, newcomer).streams) == Holding(v.streams) + {v.next};
  }

  lemma AdmitKeeps(v: Server, after: nat, sink: Sink)
    requires ServerInv(v)
    ensures ServerInv(Admit(v, after, sink))
  {
    hide ServerInv, StreamInv, Send, StartFlush, Replace;
    if v.active < v.maxClients {
      var newcomer := Stream(after, after, Free, false, false, []);
      NewcomerKeeps(v.log, v.maxReplay, newcomer);
      SeatedKeeps(v, newcomer);
      GreetingKeeps(v, newcomer, sink);
      ReplaceKeeps(Seated(v, newcomer), v.next, StartFlush(Send(newcomer, CommentFrame, true, sink).0));
    }
  }

  lemma GreetingKeeps(v: Server, s: Stream, sink: Sink)
    requires ServerInv(v) && StreamInv(v.log, v.maxReplay, s)
    ensures StreamInv(v.log, v.maxReplay, StartFlush(Send(s, CommentFrame, true, sink).0))
    ensures s.released ==> StartFlush(Send(s, CommentFrame, true, sink).0).released
  {
    hide EventIds, Slice;
    SendKeeps(v.log, v.maxReplay, s, CommentFrame, true, sink);
  }

  lemma StepKeeps(v: Server, step: Step)
    requires ServerInv(v)
    ensures ServerInv(Next(v, step))
  {
    hide StreamInv, Admit, Replace, StepStream;
    match step {
      case Commit(id) =>
        if id > LatestId(v.log) {
          AppendKeepsPosition(v.log, id, 0);
          forall k | k in v.streams ensures StreamInv(v.log + [id], v.maxReplay, v.streams[k]) {
            AppendKeeps(v.log, v.maxReplay, v.streams[k], id);
          }
        }
      case Open(after, sink) => AdmitKeeps(v, after, sink);
      case _ =>
        if step.stream in v.streams {
          StepStreamKeeps(v, v.streams[step.stream], step);
          ReplaceKeeps(v, step.stream, StepStream(v, v.streams[step.stream], step));
        }
    }
  }

  /** The read that a stream takes holds more rows than it may replay exactly when more wait behind its cursor and the
      read's own bound of a thousand allows for one more. */
  lemma ReadOverflowsExactly(v: Server, k: nat)
    requires Increasing(v.log) && k in v.streams && v.streams[k].fetch.Querying?
    ensures var s := Next(v, Reads(k)).streams[k];
            && s.fetch.Answered? && s == v.streams[k].(fetch := s.fetch)
            && (|s.fetch.events| > v.maxReplay
                <==> |v.log| - Position(v.log, v.streams[k].cursor) > v.maxReplay && v.maxReplay < 1000)
  {
    OverflowExactly(v.log, v.streams[k].cursor, v.maxReplay);
  }

  /** A poll of an idle open stream whose queue takes everything: a resync ends it exactly when too many rows wait, and
      otherwise, up to a thousand rows, it reaches the end of the outbox. */
  lemma PollDecides(v: Server, k: nat, sinks: nat -> Sink, resyncSink: Sink)
    requires ServerInv(v) && k in v.streams && !v.streams[k].closed && v.streams[k].fetch.Free?
    requires v.streams[k].cursor <= LatestId(v.log) && resyncSink != Broken && forall e :: sinks(e) == Accepts
    ensures var s := v.streams[k];
            var after := Next(Next(Next(v, Wake(k)), Reads(k)), Resumes(k, sinks, resyncSink)).streams[k];
            var waiting := v.log[Position(v.log, s.cursor)..];
            && (ResyncFrame in after.frames <==> |waiting| > v.maxReplay && v.maxReplay < 1000)
            && (after.closed <==> ResyncFrame in after.frames) && after.fetch == Free
            && (|waiting| <= v.maxReplay && |waiting| <= 1000
                ==> after.cursor == LatestId(v.log) && EventIds(after.frames) == EventIds(s.frames) + waiting)
  {
    hide EventIds, DeliverAll, Behind, Slice;
    var s := v.streams[k];
    NoResyncYet(v.log, v.maxReplay, s);
    hide StreamInv;
    var woken := Next(v, Wake(k));
    ReadOverflowsExactly(woken, k);
    var read := Next(woken, Reads(k)).streams[k];
    ResyncExactly(read, v.maxReplay, sinks, resyncSink);
    AcceptedDeliveryEnds(read, read.fetch.events, sinks);
    if |v.log| - Position(v.log, s.cursor) <= v.maxReplay && |v.log| - Position(v.log, s.cursor) <= 1000 {
      NotBehind(v.log, s.cursor, v.maxReplay);
      FlushCatchesUp(v.log, v.maxReplay, read, sinks, resyncSink);
    }
  }

  lemma NotBehind(log: seq<nat>, cursor: nat, maxReplay: nat)
    requires |log| - Position(log, cursor) <= maxReplay
    ensures !Behind(log, cursor, maxReplay)
  {
  }

  lemma NoResyncYet(log: seq<nat>, maxReplay: nat, s: Stream)
    requires StreamInv(log, maxReplay, s) && !s.closed
    ensures ResyncFrame !in s.frames
  {
    hide EventIds, Slice, Behind;
  }

  /** A request is admitted exactly when a slot is free; its stream greets, even a full queue, and starts its first read. */
  lemma OpenAdmits(v: Server, after: nat, sink: Sink)
    requires ServerInv(v)
    ensures var admitted := Next(v, Open(after, sink));
            if v.active >= v.maxClients then admitted == v
            else
              && v.next in admitted.streams && admitted.next > v.next
              && var s := admitted.streams[v.next];
                 && s.initial == s.cursor == after
                 && (sink != Broken ==> s.frames == [CommentFrame] && s.fetch == Querying && !s.closed
                                        && admitted.active == v.active + 1)
                 && (sink == Broken ==> s.frames == [] && s.closed && admitted.active == v.active)
  {
  }

  /** What the other callbacks do to an open stream: a heartbeat that is taken wakes it, one that meets a full queue does
      nothing; a failed read is reported, even to a full queue, and leaves the stream open where it was; a cancelled
      stream gives up its slot. */
  lemma CallbacksSay(v: Server, k: nat, sink: Sink)
    requires k in v.streams && !v.streams[k].closed
    ensures var s := v.streams[k];
            && (sink == Accepts ==>
                  Next(v, Beat(k, sink)).streams[k]
                  == s.(frames := s.frames + [CommentFrame], fetch := if s.fetch == Free then Querying else s.fetch))
            && (sink == Full ==> Next(v, Beat(k, sink)).streams[k] == s)
            && (s.fetch.Querying? && sink != Broken ==>
                  Next(v, ReadFails(k, sink)).streams[k] == s.(frames := s.frames + [ErrorFrame], fetch := Free))
            && Next(v, Cancelled(k)).streams[k].closed && Next(v, Cancelled(k)).streams[k].released
            && Next(v, Cancelled(k)).streams[k].frames == s.frames
  {
  }

  /** An answer that no read waits for, and a poll while one does, change nothing; a commit only extends the outbox. */
  lemma OneReadAtATime(v: Server, k: nat, sink: Sink, id: nat)
    ensures k in v.streams && !v.streams[k].fetch.Querying? ==> Next(v, Reads(k)) == v && Next(v, ReadFails(k, sink)) == v
    ensures k in v.streams && !v.streams[k].fetch.Free? ==> Next(v, Wake(k)) == v
    ensures id > LatestId(v.log) ==> Next(v, Commit(id)) == v.(log := v.log + [id])
  {
    if k in v.streams {
      assert v.streams[k := v.streams[k]] == v.streams;
    }
  }

  function Run(start: Server, steps: seq<Step>): Server {
    if steps == [] then start else Next(Run(start, steps[..|steps| - 1]), steps[|steps| - 1])
  }

  /** One run after another is a run, and a single step is one. */
  lemma {:induction false} RunsCompose(start: Server, first: seq<Step>, next: seq<Step>, step: Step)
    ensures Run(start, first + next) == Run(Run(start, first), next)
    ensures Run(start, [step]) == Next(start, step)
  {
    hide Next;
    assert [step][..0] == [];
    if next == [] {
      assert first + next == first;
    } else {
      var n := |next| - 1;
      assert (first + next)[..|first| + n] == first + next[..n];
      RunsCompose(start, first, next[..n], step);
    }
  }

  function Started(log: seq<nat>, maxClients: nat, maxReplay: nat): Server {
    Server(log, map[], 0, 0, maxClients, maxReplay)
  }

  lemma {:induction false} RunKeeps(log: seq<nat>, maxClients: nat, maxReplay: nat, steps: seq<Step>)
    requires Increasing(log)
    ensures ServerInv(Run(Started(log, maxClients, maxReplay), steps))
    ensures Run(Started(log, maxClients, maxReplay), steps).maxReplay == maxReplay
    ensures Run(Started(log, maxClients, maxReplay), steps).maxClients == maxClients
  {
    hide ServerInv, StepStream;
    if steps == [] {
      NoStreams(log, maxClients, maxReplay);
    } else {
      RunKeeps(log, maxClients, maxReplay, steps[..|steps| - 1]);
      StepKeeps(Run(Started(log, maxClients, maxReplay), steps[..|steps| - 1]), steps[|steps| - 1]);
    }
  }

  lemma NoStreams(log: seq<nat>, maxClients: nat, maxReplay: nat)
    requires Increasing(log)
    ensures ServerInv(Started(log, maxClients, maxReplay))
  {
  }

  /** In every run, under any polling, heartbeat and backpressure: the events a stream has sent are the ids of the
      outbox right after its initial position, up to its cursor, each once and in order; a resync is its last frame,
      sent only with more rows behind it than it may replay, and never at all when that limit is a thousand or more. */
  lemma StreamsAreExact(log: seq<nat>, maxClients: nat, maxReplay: nat, steps: seq<Step>, k: nat, e: nat)
    requires Increasing(log) && k in Run(Started(log, maxClients, maxReplay), steps).streams
    ensures var v := Run(Started(log, maxClients, maxReplay), steps);
            var s := v.streams[k];
            && Increasing(EventIds(s.frames))
            && (e in EventIds(s.frames) <==> e in v.log && s.initial < e <= s.cursor)
            && (forall i :: 0 <= i < |s.frames| && s.frames[i] == ResyncFrame ==>
                  i == |s.frames| - 1 && s.closed && Behind(v.log, s.cursor, maxReplay) && maxReplay < MAX_READ)
  {
    hide Run, EventIds;
    RunKeeps(log, maxClients, maxReplay, steps);
    var v := Run(Started(log, maxClients, maxReplay), steps);
    var s := v.streams[k];
    SliceIncreases(v.log, s.initial, EventIds(s.frames));
    SliceHolds(v.log, s.initial, EventIds(s.frames), e);
    LastIsGreatest(EventIds(s.frames), e);
  }

  lemma LastIsGreatest(ids: seq<nat>, e: nat)
    requires Increasing(ids)
    ensures e in ids ==> e <= ids[|ids| - 1]
  {
  }

  /** The count of active streams is the number of slots held, never above the limit, and no slot is freed twice. */
  lemma SlotsAreCounted(log: seq<nat>, maxClients: nat, maxReplay: nat, steps: seq<Step>)
    requires Increasing(log)
    ensures var v := Run(Started(log, maxClients, maxReplay), steps);
            && v.active == |Holding(v.streams)| <= maxClients
            && (v.active < maxClients ==> |Holding(Next(v, Open(0, Accepts)).streams)| == v.active + 1)
  {
    hide Run;
    RunKeeps(log, maxClients, maxReplay, steps);
    var v := Run(Started(log, maxClients, maxReplay), steps);
    AdmitKeeps(v, 0, Accepts);
  }

  // ---------------------------------------------------------------------------
  // A stream as an object
  // ---------------------------------------------------------------------------

  /** The variables that one response's callbacks share; each method is a stretch without an await. */
  class EventStream {
    const initial: nat
    var cursor: nat
    var fetch: Fetch
    var closed: bool
    var released: bool
    var frames: seq<Frame>

    function State(): Stream
      reads this
    {
      Stream(initial, cursor, fetch, closed, released, frames)
    }

    constructor (after: nat)
      ensures State() == Stream(after, after, Free, false, false, [])
    {
      initial, cursor, fetch, closed, released, frames := after, after, Free, false, false, [];
    }

    method SendFrame(frame: Frame, force: bool, sink: Sink) returns (sent: bool)
      modifies this
      ensures (State(), sent) == Send(old(State()), frame, force, sink)
    {
      if closed {
        return false;
      }
      if !force && sink == Full {
        return false;
      }
      if sink == Broken {
        closed := true;
        released := true;
        return false;
      }
      frames := frames + [frame];
      return true;
    }

    method Beat(sink: Sink)
      modifies this
      ensures State() == Heartbeat(old(State()), sink)
    {
      var sent := SendFrame(CommentFrame, false, sink);
      if sent && fetch == Free && !closed {
        fetch := Querying;
      }
    }

    /** Sends the rows that a flush has read, or tells the client to start over when they are too many. */
    method Flushed(maxReplay: nat, sinks: nat -> Sink, resyncSink: Sink)
      requires fetch.Answered?
      modifies this
      ensures State() == ResumeFlush(old(State()), maxReplay, sinks, resyncSink)
    {
      var events := fetch.events;
      if closed {
        fetch := Free;
        return;
      }
      if |events| > maxReplay {
        var _ := SendFrame(ResyncFrame, true, resyncSink);
        closed, released, fetch := true, true, Free;
        return;
      }
      for i := 0 to |events|
        invariant (State(), true) == DeliverAll(old(State()), events[..i], sinks)
      {
        assert events[..i + 1][..i] == events[..i];
        var sent := SendFrame(EventFrame(events[i]), false, sinks(events[i]));
        if !sent {
          RefusalEnds(old(State()), events, sinks, i + 1);
          fetch := Free;
          return;
        }
        cursor := events[i];
      }
      assert events[..|events|] == events;
      fetch := Free;
    }
  }

  lemma {:induction false} RefusalEnds(s: Stream, events: seq<nat>, sinks: nat -> Sink, n: nat)
    requires n <= |events| && !DeliverAll(s, events[..n], sinks).1
    ensures DeliverAll(s, events, sinks) == DeliverAll(s, events[..n], sinks)
    decreases |events|
  {
    hide Send;
    if n == |events| {
      assert events[..n] == events;
    } else {
      assert events[..|events| - 1][..n] == events[..n];
      RefusalEnds(s, events[..|events| - 1], sinks, n);
    }
  }
}

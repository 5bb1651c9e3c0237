/** The outbox as readers see it: ids in increasing order, read after a position and up to a limit. */
module OutboxReads {

  const MAX_READ := 1000

  predicate Increasing(log: seq<nat>) {
    (forall i :: 0 <= i < |log| ==> log[i] > 0) && forall i, j :: 0 <= i < j < |log| ==> log[i] < log[j]
  }

  function LatestId(log: seq<nat>): nat {
    if log == [] then 0 else log[|log| - 1]
  }

  /** How many ids are at or below `after`. */
  function Position(log: seq<nat>, after: nat): (p: nat)
    ensures p <= |log|
  {
    if log == [] then 0
    else Position(log[..|log| - 1], after) + if log[|log| - 1] <= after then 1 else 0
  }

  /** The requested limit is kept between one row and a thousand. */
  function ClampLimit(limit: int): (bounded: nat)
    ensures 1 <= bounded <= 1000 && (limit <= bounded || bounded == 1000) && (bounded <= limit || bounded == 1)
  {
    if limit > MAX_READ then MAX_READ else if limit < 1 then 1 else limit
  }

  function ReadAfter(log: seq<nat>, after: nat, limit: int): seq<nat> {
    var p := Position(log, after);
    var pending := log[p..];
    if |pending| > ClampLimit(limit) then pending[..ClampLimit(limit)] else pending
  }

  /** In an increasing log the ids at or below `after` are exactly the ones before its position. */
  lemma {:induction false} PositionSplits(log: seq<nat>, after: nat)
    requires Increasing(log)
    ensures forall i :: 0 <= i < |log| ==> (log[i] <= after <==> i < Position(log, after))
  {
    if log != [] {
      var n := |log| - 1;
      PositionSplits(log[..n], after);
      if log[n] <= after {
        AllBelow(log, after);
      }
    }
  }

  lemma {:induction false} AllBelow(log: seq<nat>, after: nat)
    requires Increasing(log) && log != [] && log[|log| - 1] <= after
    ensures Position(log, after) == |log|
  {
    if |log| > 1 {
      AllBelow(log[..|log| - 1], after);
    }
  }

  /** A position is fixed by its two sides. */
  lemma PositionIs(log: seq<nat>, after: nat, p: nat)
    requires Increasing(log) && p <= |log|
    requires p > 0 ==> log[p - 1] <= after
    requires p < |log| ==> log[p] > after
    ensures Position(log, after) == p
  {
    PositionSplits(log, after);
    assert p > 0 ==> p - 1 < Position(log, after);
    assert p < |log| ==> p >= Position(log, after);
  }

  /** Appending later ids moves no position that lies within the log. */
  lemma AppendKeepsPosition(log: seq<nat>, id: nat, after: nat)
    requires Increasing(log) && id > LatestId(log)
    ensures Increasing(log + [id])
    ensures after < id ==> Position(log + [id], after) == Position(log, after)
  {
    assert (log + [id])[..|log|] == log;
  }

  /** The answer holds the next ids after `after`, and is cut short only at the limit. */
  lemma ReadIsNext(log: seq<nat>, after: nat, limit: int)
    requires Increasing(log)
    ensures var (p, events) := (Position(log, after), ReadAfter(log, after, limit));
            && p + |events| <= |log| && events == log[p..p + |events|]
            && |events| <= ClampLimit(limit) && (|events| < ClampLimit(limit) ==> p + |events| == |log|)
            && (forall e :: e in log && e > after && p + |events| == |log| ==> e in events)
  {
    PositionSplits(log, after);
    var p, events := Position(log, after), ReadAfter(log, after, limit);
    forall e | e in log && e > after && p + |events| == |log| ensures e in events {
      var i :| 0 <= i < |log| && log[i] == e;
      assert events[i - p] == e;
    }
  }

  /** The rows of a read are ids of the log with none left out between the position asked for and the last row. */
  ghost predicate Slice(log: seq<nat>, after: nat, events: seq<nat>) {
    var p := Position(log, after);
    p + |events| <= |log| && events == log[p..p + |events|]
  }

  lemma SliceHolds(log: seq<nat>, after: nat, events: seq<nat>, e: nat)
    requires Increasing(log) && Slice(log, after, events)
    ensures e in events ==> e in log && e > after && e <= LatestId(log)
    ensures events != [] && e in log && after < e <= events[|events| - 1] ==> e in events
    ensures events != [] ==> events[|events| - 1] in events && events[|events| - 1] > after
  {
    PositionSplits(log, after);
    var p := Position(log, after);
    if e in events {
      var i :| 0 <= i < |events| && events[i] == e;
      assert log[p + i] == e;
    }
    if events != [] && e in log && after < e <= events[|events| - 1] {
      var i :| 0 <= i < |log| && log[i] == e;
      assert p <= i < p + |events|;
      assert events[i - p] == e;
    }
    if events != [] {
      assert events[|events| - 1] == log[p + |events| - 1];
    }
  }

  lemma SliceAppended(log: seq<nat>, after: nat, events: seq<nat>, id: nat)
    requires Increasing(log) && Slice(log, after, events) && id > LatestId(log)
    ensures Slice(log + [id], after, events)
  {
    AppendKeepsPosition(log, id, after);
    PositionSplits(log, after);
    if after < id {
      assert (log + [id])[Position(log, after)..Position(log, after) + |events|] == events;
    } else {
      assert forall i :: 0 <= i < |log| ==> log[i] <= after;
      assert Position(log, after) == |log|;
      PositionIs(log + [id], after, |log| + 1);
    }
  }

  lemma SliceIncreases(log: seq<nat>, after: nat, events: seq<nat>)
    requires Increasing(log) && Slice(log, after, events)
    ensures Increasing(events)
  {
  }

  lemma ReadsTwo(log: seq<nat>, after: nat, limit: int)
    requires |log| == 2 && log[1] > log[0] > after && limit >= 2
    ensures ReadAfter(log, after, limit) == log
  {
    assert log[..1][..0] == [];
    assert Position(log[..1], after) == 0;
  }
}

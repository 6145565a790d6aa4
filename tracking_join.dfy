/**
 Stage 1: attach to every event the position of its actor (a player, or the
 ball) as of the latest tracking sample of the same half at or before the
 event's time, and sort the merged table by time.
 */
module TrackingJoin {
  import opened Records

  /** A missing id becomes the ball id. */
  function OrBall(id: Option<int>): int {
    match id
    case None => BALL_ID
    case Some(v) => v
  }

  /**
   Column-wide defaulting of missing player and team ids to the ball id,
   done before the join so that ball-only events match ball samples.
   */
  function FillMissingIds(events: seq<RawEvent>): (r: seq<Event>)
    ensures |r| == |events|
    ensures forall i :: 0 <= i < |events| ==>
      && r[i].eventId == events[i].eventId
      && r[i].half == events[i].half
      && r[i].time == events[i].time
      && r[i].kind == events[i].kind
      && (events[i].playerId.None? ==> r[i].playerId == BALL_ID)
      && (events[i].playerId.Some? ==> r[i].playerId == events[i].playerId.value)
      && (events[i].teamId.None? ==> r[i].teamId == BALL_ID)
      && (events[i].teamId.Some? ==> r[i].teamId == events[i].teamId.value)
  {
    seq(|events|, i requires 0 <= i < |events| =>
      var e := events[i];
      Event(e.eventId, e.half, e.time, OrBall(e.playerId), OrBall(e.teamId), e.kind))
  }

  /** Sample `s` may be matched to an event of actor `actor` in half `half` at time `time`. */
  predicate Eligible(s: Sample, half: int, actor: int, time: int) {
    s.half == half && s.actor == actor && s.t <= time
  }

  /**
   The backward as-of match: the index of the eligible sample with the
   largest time, the last one in tracking order among equal times, or None
   when no sample of that half and actor is at or before `time`.
   */
  function AsOfIndex(ts: seq<Sample>, half: int, actor: int, time: int): (r: Option<nat>)
    ensures r.None? <==> forall k :: 0 <= k < |ts| ==> !Eligible(ts[k], half, actor, time)
    ensures r.Some? ==> r.value < |ts| && Eligible(ts[r.value], half, actor, time)
    ensures r.Some? ==> forall k :: 0 <= k < |ts| && Eligible(ts[k], half, actor, time) ==>
      ts[k].t <= ts[r.value].t
    ensures r.Some? ==> forall k :: r.value < k < |ts| && Eligible(ts[k], half, actor, time) ==>
      ts[k].t < ts[r.value].t
    decreases |ts|
  {
    if ts == [] then None
    else
      var last := |ts| - 1;
      var rest := AsOfIndex(ts[..last], half, actor, time);
      if Eligible(ts[last], half, actor, time) && (rest.None? || ts[rest.value].t <= ts[last].t)
      then Some(last)
      else rest
  }

  /**
   The as-of match is the only index that is eligible, has the largest time
   and is last among eligible samples of that time.
   */
  lemma AsOfIndexUnique(ts: seq<Sample>, half: int, actor: int, time: int, k: nat)
    requires k < |ts| && Eligible(ts[k], half, actor, time)
    requires forall j :: 0 <= j < |ts| && Eligible(ts[j], half, actor, time) ==> ts[j].t <= ts[k].t
    requires forall j :: k < j < |ts| && Eligible(ts[j], half, actor, time) ==> ts[j].t < ts[k].t
    ensures AsOfIndex(ts, half, actor, time) == Some(k)
  {
  }

  /**
   The position the join gives an event: the as-of sample's coordinates,
   never those of a sample after the event (among samples of the largest
   time, the last in tracking order), and None exactly when no sample of
   that half and actor is at or before the event.
   */
  function AsOfPosition(ts: seq<Sample>, half: int, actor: int, time: int): (p: Position)
    ensures p.None? <==> forall k :: 0 <= k < |ts| ==> !Eligible(ts[k], half, actor, time)
    ensures p.Some? ==> exists k :: (
      && 0 <= k < |ts| && Eligible(ts[k], half, actor, time)
      && ts[k].pos == p.value
      && (forall j :: 0 <= j < |ts| && Eligible(ts[j], half, actor, time) ==> ts[j].t <= ts[k].t)
      && (forall j :: k < j < |ts| && Eligible(ts[j], half, actor, time) ==> ts[j].t < ts[k].t))
  {
    match AsOfIndex(ts, half, actor, time)
    case None => None
    case Some(k) => Some(ts[k].pos)
  }

  /** The merged row of one event: its own columns plus its as-of position. */
  function JoinRow(e: Event, ts: seq<Sample>): MergedRow {
    MergedRow(e.eventId, e.half, e.time, e.playerId, e.teamId, e.kind,
              AsOfPosition(ts, e.half, e.playerId, e.time))
  }

  /**
   The as-of join proper, one row per event in event order: each row copies
   its event's columns and takes the as-of position for the event's half,
   player id and time.
   */
  function MergeAsOf(events: seq<Event>, ts: seq<Sample>): (r: seq<MergedRow>)
    ensures |r| == |events|
    ensures forall i :: 0 <= i < |events| ==>
      && r[i].eventId == events[i].eventId
      && r[i].half == events[i].half
      && r[i].time == events[i].time
      && r[i].playerId == events[i].playerId
      && r[i].teamId == events[i].teamId
      && r[i].kind == events[i].kind
      && r[i].pos == AsOfPosition(ts, events[i].half, events[i].playerId, events[i].time)
  {
    seq(|events|, i requires 0 <= i < |events| => JoinRow(events[i], ts))
  }

  predicate SortedByTime(rows: seq<MergedRow>) {
    forall i, j :: 0 <= i < j < |rows| ==> rows[i].time <= rows[j].time
  }

  /** Inserts `x` into a time-sorted table, after the rows of equal time. */
  function InsertByTime(x: MergedRow, s: seq<MergedRow>): (r: seq<MergedRow>)
    requires SortedByTime(s)
    ensures SortedByTime(r)
    ensures multiset(r) == multiset(s) + multiset{x}
  {
    if s == [] then [x]
    else if x.time < s[0].time then [x] + s
    else
      var tail := InsertByTime(x, s[1..]);
      assert s == [s[0]] + s[1..];
      forall k | 0 <= k < |tail| ensures s[0].time <= tail[k].time {
        assert tail[k] in multiset(tail);
        if tail[k] != x {
          assert tail[k] in multiset(s[1..]);
          var j :| 0 <= j < |s[1..]| && s[1..][j] == tail[k];
        }
      }
      [s[0]] + tail
  }

  /** The sort of the merged table by time: sorted, and a permutation of its input. */
  function SortByTime(rows: seq<MergedRow>): (r: seq<MergedRow>)
    ensures SortedByTime(r)
    ensures multiset(r) == multiset(rows)
  {
    if rows == [] then []
    else
      assert rows == [rows[0]] + rows[1..];
      InsertByTime(rows[0], SortByTime(rows[1..]))
  }

  /**
   The whole stage: default missing ids, join, keep the eight output
   columns (the MergedRow fields) and sort by time. One output row per
   event, in ascending time order.
   */
  function LoadEventAndTrackingData(events: seq<RawEvent>, ts: seq<Sample>): (r: seq<MergedRow>)
    ensures |r| == |events|
    ensures SortedByTime(r)
    ensures multiset(r) == multiset(MergeAsOf(FillMissingIds(events), ts))
  {
    var merged := MergeAsOf(FillMissingIds(events), ts);
    var r := SortByTime(merged);
    assert |r| == |multiset(r)| == |multiset(merged)| == |merged|;
    r
  }

  /** Every row of the joined table is the merged row of one of the events. */
  lemma {:induction false} JoinedRowComesFromEvent(events: seq<RawEvent>, ts: seq<Sample>, k: nat)
    requires k < |LoadEventAndTrackingData(events, ts)|
    ensures exists i :: (0 <= i < |events| &&
      LoadEventAndTrackingData(events, ts)[k] == JoinRow(FillMissingIds(events)[i], ts))
  {
    var r := LoadEventAndTrackingData(events, ts);
    var merged := MergeAsOf(FillMissingIds(events), ts);
    assert r[k] in multiset(r);
    assert r[k] in multiset(merged);
    var i :| 0 <= i < |merged| && merged[i] == r[k];
  }

  /** Every event has its merged row in the joined table. */
  lemma {:induction false} EventIsJoined(events: seq<RawEvent>, ts: seq<Sample>, i: nat)
    requires i < |events|
    ensures JoinRow(FillMissingIds(events)[i], ts) in LoadEventAndTrackingData(events, ts)
  {
    var r := LoadEventAndTrackingData(events, ts);
    var merged := MergeAsOf(FillMissingIds(events), ts);
    assert merged[i] in multiset(merged);
    assert merged[i] in multiset(r);
  }

  /**
   Read off the output table alone: each row's position is the as-of
   position of its own half, player id and time, so it is never taken from
   a later sample and is None exactly when no earlier-or-equal sample exists.
   */
  lemma {:induction false} JoinedPositionsAreAsOf(events: seq<RawEvent>, ts: seq<Sample>, k: nat)
    requires k < |LoadEventAndTrackingData(events, ts)|
    ensures var row := LoadEventAndTrackingData(events, ts)[k];
      row.pos == AsOfPosition(ts, row.half, row.playerId, row.time)
  {
    JoinedRowComesFromEvent(events, ts, k);
  }

  /**
   An event without a player id carries the ball id as player and joins
   against the ball's samples, whatever its team id; an event without a
   team id carries the ball id as team.
   */
  lemma MissingIdsJoinTheBall(events: seq<RawEvent>, ts: seq<Sample>, i: nat)
    requires i < |events|
    ensures var row := JoinRow(FillMissingIds(events)[i], ts);
      && (events[i].playerId.None? ==>
            row.playerId == BALL_ID && row.pos == AsOfPosition(ts, events[i].half, BALL_ID, events[i].time))
      && (events[i].teamId.None? ==> row.teamId == BALL_ID)
  {
  }
}

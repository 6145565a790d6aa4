/**
 Stage 3: flag every Pass and Cross of the raw event log as successful or
 not, by looking only at the row that follows it in the log.
 */
module PassTagger {
  import opened Records

  /**
   Team equality as the event log compares it: a missing team id (an empty
   cell, read as NaN) equals nothing, not even another missing id.
   */
  predicate SameTeam(a: Option<int>, b: Option<int>) {
    a.Some? && b.Some? && a.value == b.value
  }

  /** The row after row `i` is a Reception by the same team as row `i`. */
  predicate ReceivedByOwnTeam(events: seq<RawEvent>, i: nat)
    requires i < |events|
  {
    && i + 1 < |events|
    && events[i + 1].kind == RECEPTION
    && SameTeam(events[i + 1].teamId, events[i].teamId)
  }

  /**
   The pass_success value of row `i`: for a Pass or Cross, whether the next
   row is a Reception by the same team; no value for any other row.
   */
  function PassSuccess(events: seq<RawEvent>, i: nat): Option<bool>
    requires i < |events|
  {
    if IsPassOrCross(events[i].kind) then Some(ReceivedByOwnTeam(events, i)) else None
  }

  /** The tagged table: every row unchanged, plus its pass_success value. */
  function Tagged(events: seq<RawEvent>): seq<TaggedEvent> {
    seq(|events|, i requires 0 <= i < |events| => TaggedEvent(events[i], PassSuccess(events, i)))
  }

  /**
   The tagging pass: add a pass_success column with no values, then walk
   the rows in order and write True or False into the Pass and Cross rows.
   */
  method AddSuccessfulPassCrossFlag(events: seq<RawEvent>) returns (table: array<TaggedEvent>)
    ensures table[..] == Tagged(events)
  {
    table := new TaggedEvent[|events|](i requires 0 <= i < |events| => TaggedEvent(events[i], None));
    for i := 0 to |events|
      invariant table.Length == |events|
      invariant forall k :: 0 <= k < i ==> table[k] == TaggedEvent(events[k], PassSuccess(events, k))
      invariant forall k :: i <= k < |events| ==> table[k] == TaggedEvent(events[k], None)
    {
      var row := events[i];
      if IsPassOrCross(row.kind) {
        var next: Option<RawEvent> := if i + 1 < |events| then Some(events[i + 1]) else None;
        if next.Some? && next.value.kind == RECEPTION && SameTeam(next.value.teamId, row.teamId) {
          table[i] := TaggedEvent(row, Some(true));
        } else {
          table[i] := TaggedEvent(row, Some(false));
        }
      }
    }
  }

  /**
   The tagging keeps the row count and every original column, and writes
   only pass_success: a Pass or Cross gets True exactly when a next row
   exists, is a Reception and has the same team id; it gets False otherwise;
   every other row has no value.
   */
  lemma TaggedRows(events: seq<RawEvent>, i: nat)
    requires i < |events|
    ensures |Tagged(events)| == |events|
    ensures Tagged(events)[i].event == events[i]
    ensures IsPassOrCross(events[i].kind) ==>
      (Tagged(events)[i].passSuccess == Some(true) <==>
        i + 1 < |events| && events[i + 1].kind == RECEPTION &&
        events[i + 1].teamId.Some? && events[i + 1].teamId == events[i].teamId)
    ensures IsPassOrCross(events[i].kind) <==> Tagged(events)[i].passSuccess.Some?
  {
  }

  /** A Pass or Cross in the last row has no next row and is never successful. */
  lemma LastPassFails(events: seq<RawEvent>)
    requires |events| > 0 && IsPassOrCross(events[|events| - 1].kind)
    ensures Tagged(events)[|events| - 1].passSuccess == Some(false)
  {
  }

  /**
   The adjacency examples: a pass by team 7 followed by a reception by
   team 7 succeeds; followed by one by team 9 it fails.
   */
  lemma AdjacencyExamples(pass: RawEvent, reception: RawEvent)
    requires pass.kind == PASS && pass.teamId == Some(7)
    requires reception.kind == RECEPTION
    ensures reception.teamId == Some(7) ==> Tagged([pass, reception])[0].passSuccess == Some(true)
    ensures reception.teamId == Some(9) ==> Tagged([pass, reception])[0].passSuccess == Some(false)
  {
  }
}

/**
 The records the four stages of the match analysis pass between each other:
 raw event rows, tracking samples, the merged event/position rows, and the
 event rows tagged with a pass-success flag.
 */
module Records {

  datatype Option<+T> = None | Some(value: T)

  /** The outcome of a computation that can fail with an error of type E. */
  datatype Result<+T, +E> = Ok(value: T) | Err(error: E)

  /** Event category labels that the analysis compares against. */
  const PASS: string := "Pass"
  const CROSS: string := "Cross"
  const RECEPTION: string := "Reception"
  const BALL_OUT_OF_PLAY: string := "Ball Out of Play"

  /** The actor id of the ball, used for events that concern no player. */
  const BALL_ID: int := -1

  predicate IsPassOrCross(kind: string) {
    kind == PASS || kind == CROSS
  }

  /** A pitch position in centimetres. */
  datatype Point = Point(x: int, y: int)

  /**
   The position column pair of a merged row: None when the join found no
   tracking sample (the columns are then empty/NaN).
   */
  type Position = Option<Point>

  /**
   An event row as read from the event log. Player and team ids may be
   missing (empty cells) when the event concerns the ball. The time is an
   integer; the join stage uses it as milliseconds after kickoff, after a
   rebasing that is not part of this model, while the tagging and
   statistics stages never look at it.
   */
  datatype RawEvent = RawEvent(
    eventId: int,
    half: int,
    time: int,
    playerId: Option<int>,
    teamId: Option<int>,
    kind: string)

  /** An event row after the missing ids were defaulted to the ball id. */
  datatype Event = Event(
    eventId: int,
    half: int,
    time: int,
    playerId: int,
    teamId: int,
    kind: string)

  /** One tracking sample: where actor `actor` was at time `t` of half `half`. */
  datatype Sample = Sample(t: int, half: int, actor: int, pos: Point)

  /**
   A row of the merged event/tracking table: the columns event_id,
   half_time, time, player_id, team_id, event, with x, y held as one
   optional point (both present or both empty).
   */
  datatype MergedRow = MergedRow(
    eventId: int,
    half: int,
    time: int,
    playerId: int,
    teamId: int,
    kind: string,
    pos: Position)

  /** A raw event row plus its pass_success column (None for non-pass rows). */
  datatype TaggedEvent = TaggedEvent(event: RawEvent, passSuccess: Option<bool>)
}

# Football match analysis: a Dafny model

This project models the match analysis script `fifa_challenge.py`. The script
reads an event log and a player/ball tracking log and runs four stages:

1. **Tracking join** (`TrackingJoin`, `tracking_join.dfy`). Missing player and team ids
   are defaulted to the ball id -1. Each event then gets the position of its actor
   (player or ball) from the latest tracking sample of the same half at or before the
   event's time. This is a backward as-of join, spelled out here as a search over integer
   millisecond times. The merged table keeps the eight output columns and is sorted by time.
2. **Trajectory length** (`Trajectory`, `trajectory.dfy`). This walks the merged table from
   the first row and stops right before the first `Ball Out of Play` row. Each row after the
   first adds the distance from the previous row's position. The walk is an imperative
   method proved against a specification function. The specification is related to a plain
   sum over consecutive pairs.
3. **Pass-success tagger** (`PassTagger`, `pass_tagger.dfy`). This adds an empty
   `pass_success` column and walks the raw event rows in order. Each `Pass` or `Cross` gets
   True exactly when the next row is a `Reception` with the same team id, and False
   otherwise. The walk is a method that writes into an array of rows.
4. **Passing statistics** (`PassingStats`, `passing_stats.dfy`). Over the Pass/Cross rows,
   this finds a player with the most passes, the best completion rate, and every player
   who reaches that rate. A rate is the pair (successes, attempts), and rates are compared
   by cross-multiplication.

`records.dfy` (`Records`) holds the shared rows: `RawEvent`, `Event` (ids defaulted),
`Sample`, `MergedRow` (the columns `event_id, half_time, time, player_id, team_id,
event`, with `x, y` as one optional point), and `TaggedEvent`. It also holds `Option`/`Result` and the event label
constants.

Two behaviours of the code are kept as written:
- A row with a missing (NaN) position is not skipped by the trajectory walk. The code at
  fifa_challenge.py:45 only tests for the "no previous row" case, so a missing position
  is passed to the distance like any other. The model does the same: `dist` receives
  `Option<Point>` values and decides what a missing point contributes.
- The tie-break of the most-passes player is not fixed by the code. The model picks the
  player of the earliest row among those with the largest count.

## Model

| member | source | states |
|---|---|---|
| TrackingJoin.FillMissingIds | fifa_challenge.py:15-18 | every event keeps its row and other columns; a missing player or team id becomes the ball id -1, a present one is kept |
| TrackingJoin.AsOfIndex | fifa_challenge.py:24 | the matched sample has the event's half and actor and time `t <= time`, has the largest such `t`, and is the last of equal `t` in tracking order; None exactly when no such sample exists |
| TrackingJoin.AsOfIndexUnique | fifa_challenge.py:24 | the as-of match is uniquely determined by those conditions |
| TrackingJoin.AsOfPosition | fifa_challenge.py:24 | the joined position is the coordinates of an eligible sample with maximal `t` (the last in tracking order among equal `t`), never of a later sample; null exactly when no sample of that half/actor is at or before the event |
| TrackingJoin.SortByTime | fifa_challenge.py:28 | the output is sorted ascending by time and is a permutation of the input rows |
| TrackingJoin.LoadEventAndTrackingData | fifa_challenge.py:15-28 | one output row per event; the table is sorted by time and is a permutation of the per-event joined rows |
| TrackingJoin.JoinedRowComesFromEvent | fifa_challenge.py:24-28 | every output row is the joined row of some input event |
| TrackingJoin.EventIsJoined | fifa_challenge.py:24-28 | every input event's joined row appears in the output |
| TrackingJoin.JoinedPositionsAreAsOf | fifa_challenge.py:24-28 | each output row's position is the backward as-of position for its own half, player id and time |
| TrackingJoin.MissingIdsJoinTheBall | fifa_challenge.py:15-24 | an event without a player id carries player id -1 and gets the ball's as-of position, whatever its team id; an event without a team id carries team id -1 |
| TrackingJoin.MergeAsOf | fifa_challenge.py:24 | one row per event in event order; each row copies its event's columns and takes the as-of position for the event's half, player id and time |
| Trajectory.PlayedRows | fifa_challenge.py:40-42 | the visited rows are a prefix with no `Ball Out of Play`, ending right before the first one or at the end of the table |
| Trajectory.PlayedRowsUnique | fifa_challenge.py:40-42 | any such prefix is exactly the visited part |
| Trajectory.CalcBallTrajectoryLength | fifa_challenge.py:38-48 | the loop's result equals the trajectory length of the visited prefix, the first row adding nothing |
| Trajectory.PathLengthIsConsecutiveSum | fifa_challenge.py:44-48 | the running sum equals the sum of `dist` over consecutive pairs |
| Trajectory.TrajectoryIgnoresRowsAfterOut | fifa_challenge.py:40-42 | appending or changing rows after a `Ball Out of Play` row does not change the length |
| Trajectory.TrajectoryOfWholeTable | fifa_challenge.py:40-48 | without a `Ball Out of Play` row the whole table is summed over consecutive pairs |
| Trajectory.PathLengthMonotone | fifa_challenge.py:45-48 | with a non-negative distance the length is non-negative and never decreases as more rows are walked |
| PassTagger.AddSuccessfulPassCrossFlag | fifa_challenge.py:62-73 | the written table is the tagged table: the same rows in order, each with its pass_success value |
| PassTagger.TaggedRows | fifa_challenge.py:62-73 | the row count and original columns are unchanged; a Pass/Cross is True iff a next row exists, is a Reception and has the same (present) team id, and False otherwise; other rows have no value |
| PassTagger.LastPassFails | fifa_challenge.py:67-73 | a Pass/Cross in the last row is flagged False |
| PassTagger.AdjacencyExamples | fifa_challenge.py:69-73 | a team-7 pass followed by a team-7 reception is True, and by a team-9 reception is False |
| PassingStats.PasserCounts | fifa_challenge.py:84-88 | a player with a Pass/Cross has a positive pass count and at most as many successes as passes |
| PassingStats.SuccessesAtMostPasses | fifa_challenge.py:88 | successes never exceed attempts, so a rate is at most 1 |
| PassingStats.RateLeTransitive | fifa_challenge.py:89 | the cross-multiplied rate order is transitive through a rate with positive attempts |
| PassingStats.TopPasserFrom | fifa_challenge.py:84-85 | the chosen player has a Pass/Cross, and their count is at least every passer's count; None exactly when there is no Pass/Cross with a player |
| PassingStats.BestRateFrom | fifa_challenge.py:88-89 | the maximum rate is the rate of some passer and at least every passer's rate; None exactly when there is none |
| PassingStats.CalculatePassingStatistics | fifa_challenge.py:81-91 | error exactly when no Pass/Cross with a player exists; otherwise the top passer has a maximal count; the best rate is some passer's rate and is at least every passer's rate; the best set is non-empty and is exactly the passers whose rate equals it; every reported player's rate is at least every passer's rate |
| PassingStats.CompletionExample | fifa_challenge.py:81-91 | with 1 of 2 passes for player 10 and 1 of 1 for player 20, player 10 has the most passes and player 20 alone has the best rate |

## Left out

- Reading and writing the CSV files, and the intermediate files between stages: this is
  I/O. Each stage takes its rows as a sequence and returns them.
- The console output of stages 2 and 4: the model returns the values that are printed.
  This includes the metre conversion (`/100`) and the percentage (`*100`), which are float
  formatting.
- The rebasing of event times (`(time - 625.68) * 1000` truncated to int): this is float
  arithmetic. Event and tracking times are integer milliseconds already.
- `calculate_distance` (a square root): this is a float. The trajectory takes the distance
  as a parameter `dist`. Coordinates are modelled as integer centimetres, and sums as
  `real` without rounding.
- Trajectory.CalcBallTrajectoryLength: a NaN coordinate is not modelled as poisoning the
  sum. `dist` decides what a missing point contributes.
- TrackingJoin.LoadEventAndTrackingData: the order of rows with equal times is not
  stated. The library's default sort is not stable. The model sorts stably, but its
  contract promises only "sorted and a permutation".
- TrackingJoin.AsOfIndex: it does not model the library join's demand that both tables
  be sorted by time. With sorted tracking, "the last sample of maximal time" is the sample
  the library picks.
- PassingStats.CalculatePassingStatistics: it reports the best players as a set. The
  script prints a list in ascending id order.
- PassingStats.CalculatePassingStatistics: rates are exact fractions. Floats that round
  two different fractions to the same value are not modelled.
- PassingStats.CalculatePassingStatistics: a Pass/Cross row whose flag is empty counts
  as an attempt that failed. The library's mean would skip it, but the tagger never leaves
  a Pass/Cross without a flag (`PassTagger.TaggedRows`).
- Missing ids in stages 3 and 4 are read as NaN. A missing team id never equals another
  team id (`PassTagger.SameTeam`). Rows without a player id are not grouped in stage 4.
  The library's other dtype coercions are not modelled.

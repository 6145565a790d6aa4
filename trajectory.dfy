/**
 Stage 2: the length of the ball's path through the merged, time-sorted
 table, from the first row up to (not including) the first
 "Ball Out of Play" row. The straight-line distance between two positions
 is a parameter `dist`; see README for why.
 */
module Trajectory {
  import opened Records

  /**
   The rows the walk visits: the longest prefix of the table that holds no
   "Ball Out of Play" row. It stops right before the first such row, or
   takes the whole table when there is none.
   */
  function PlayedRows(rows: seq<MergedRow>): (r: seq<MergedRow>)
    ensures r <= rows
    ensures forall k :: 0 <= k < |r| ==> r[k].kind != BALL_OUT_OF_PLAY
    ensures |r| < |rows| ==> rows[|r|].kind == BALL_OUT_OF_PLAY
  {
    if rows == [] || rows[0].kind == BALL_OUT_OF_PLAY then []
    else [rows[0]] + PlayedRows(rows[1..])
  }

  /** A prefix free of out-of-play rows that ends at one (or at the end) is the played part. */
  lemma PlayedRowsUnique(rows: seq<MergedRow>, n: nat)
    requires n <= |rows|
    requires forall k :: 0 <= k < n ==> rows[k].kind != BALL_OUT_OF_PLAY
    requires n == |rows| || rows[n].kind == BALL_OUT_OF_PLAY
    ensures PlayedRows(rows) == rows[..n]
  {
  }

  /** The position column of a table. */
  function Positions(rows: seq<MergedRow>): seq<Position> {
    seq(|rows|, k requires 0 <= k < |rows| => rows[k].pos)
  }

  /**
   The running sum the walk accumulates: each point after the first adds
   its distance from the point before it; the first point has no
   predecessor and adds nothing.
   */
  function PathLength(ps: seq<Position>, dist: (Position, Position) -> real): real
    decreases |ps|
  {
    if |ps| <= 1 then 0.0
    else PathLength(ps[..|ps| - 1], dist) + dist(ps[|ps| - 2], ps[|ps| - 1])
  }

  /** The trajectory length of a merged table (in the table's unit, centimetres). */
  function TrajectoryLength(rows: seq<MergedRow>, dist: (Position, Position) -> real): real {
    PathLength(Positions(PlayedRows(rows)), dist)
  }

  /**
   The walk over the table: stop at the first "Ball Out of Play", and add
   the distance from the previous row's position to each row's position,
   except for the first row, which has no previous row.
   */
  method CalcBallTrajectoryLength(rows: seq<MergedRow>, dist: (Position, Position) -> real)
    returns (length: real)
    ensures length == TrajectoryLength(rows, dist)
  {
    length := 0.0;
    var previous: Option<Position> := None;
    var i := 0;
    while i < |rows|
      invariant i <= |rows|
      invariant forall k :: 0 <= k < i ==> rows[k].kind != BALL_OUT_OF_PLAY
      invariant previous == if i == 0 then None else Some(rows[i - 1].pos)
      invariant length == PathLength(Positions(rows[..i]), dist)
    {
      if rows[i].kind == BALL_OUT_OF_PLAY {
        break;
      }
      var pos := rows[i].pos;
      if previous.Some? {
        length := length + dist(previous.value, pos);
      }
      previous := Some(pos);
      assert Positions(rows[..i + 1])[..i] == Positions(rows[..i]);
      i := i + 1;
    }
    PlayedRowsUnique(rows, i);
  }

  /**
   The same length as a sum over consecutive pairs, first pair first: the
   distance from p0 to p1, plus that from p1 to p2, and so on.
   */
  function ConsecutiveSum(ps: seq<Position>, dist: (Position, Position) -> real): real
    decreases |ps|
  {
    if |ps| <= 1 then 0.0
    else dist(ps[0], ps[1]) + ConsecutiveSum(ps[1..], dist)
  }

  /** The running sum of the walk equals the sum over consecutive pairs. */
  lemma {:induction false} PathLengthIsConsecutiveSum(ps: seq<Position>, dist: (Position, Position) -> real)
    ensures PathLength(ps, dist) == ConsecutiveSum(ps, dist)
    decreases |ps|
  {
    if |ps| > 2 {
      var n := |ps|;
      PathLengthIsConsecutiveSum(ps[..n - 1], dist);
      PathLengthIsConsecutiveSum(ps[1..], dist);
      PathLengthIsConsecutiveSum(ps[1..][..n - 2], dist);
      assert ps[..n - 1][1..] == ps[1..][..n - 2];
    }
  }

  /**
   Rows after the first "Ball Out of Play" do not matter: two tables that
   agree up to and including a "Ball Out of Play" row have the same length,
   whatever follows it (in particular, appending rows changes nothing).
   */
  lemma TrajectoryIgnoresRowsAfterOut(rows: seq<MergedRow>, rows': seq<MergedRow>,
                                      k: nat, dist: (Position, Position) -> real)
    requires k < |rows| && k < |rows'| && rows[..k + 1] == rows'[..k + 1]
    requires rows[k].kind == BALL_OUT_OF_PLAY
    ensures TrajectoryLength(rows, dist) == TrajectoryLength(rows', dist)
  {
    var n := |PlayedRows(rows)|;
    assert n <= k;
    assert rows[..n] == rows'[..n] by {
      assert rows[..n] == rows[..k + 1][..n];
      assert rows'[..n] == rows'[..k + 1][..n];
    }
    assert rows'[n] == rows[..k + 1][n];
    PlayedRowsUnique(rows', n);
    PlayedRowsUnique(rows, n);
  }

  /** Without a "Ball Out of Play" row the walk covers the whole table. */
  lemma TrajectoryOfWholeTable(rows: seq<MergedRow>, dist: (Position, Position) -> real)
    requires forall k :: 0 <= k < |rows| ==> rows[k].kind != BALL_OUT_OF_PLAY
    ensures TrajectoryLength(rows, dist) == ConsecutiveSum(Positions(rows), dist)
  {
    PlayedRowsUnique(rows, |rows|);
    assert rows[..|rows|] == rows;
    PathLengthIsConsecutiveSum(Positions(rows), dist);
  }

  /**
   With a non-negative distance, the length is non-negative and never
   shrinks as the walk goes on.
   */
  lemma {:induction false} PathLengthMonotone(ps: seq<Position>, n: nat, dist: (Position, Position) -> real)
    requires forall p, q :: dist(p, q) >= 0.0
    requires n <= |ps|
    ensures 0.0 <= PathLength(ps[..n], dist) <= PathLength(ps, dist)
    decreases |ps|
  {
    if n < |ps| {
      assert ps[..|ps| - 1][..n] == ps[..n];
      PathLengthMonotone(ps[..|ps| - 1], n, dist);
    } else {
      assert ps[..n] == ps;
      if |ps| > 1 {
        assert ps[..|ps| - 1][..|ps| - 1] == ps[..|ps| - 1];
        PathLengthMonotone(ps[..|ps| - 1], |ps| - 1, dist);
      }
    }
  }
}

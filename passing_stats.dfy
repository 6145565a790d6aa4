/**
 Stage 4: over the Pass and Cross rows of the tagged event log, the player
 with the most passes, and the best completion rate together with every
 player who reaches it. Rows without a player id are not grouped.
 */
module PassingStats {
  import opened Records

  /** The row is a Pass or Cross by player `p`. */
  predicate PassBy(e: TaggedEvent, p: int) {
    IsPassOrCross(e.event.kind) && e.event.playerId == Some(p)
  }

  /** The row is a successful Pass or Cross by player `p`. */
  predicate SuccessBy(e: TaggedEvent, p: int) {
    PassBy(e, p) && e.passSuccess == Some(true)
  }

  /** Row `i` is a Pass or Cross that has a player id, so it is grouped. */
  predicate IsPlayerPass(rows: seq<TaggedEvent>, i: nat)
    requires i < |rows|
  {
    IsPassOrCross(rows[i].event.kind) && rows[i].event.playerId.Some?
  }

  function PasserOf(rows: seq<TaggedEvent>, i: nat): int
    requires i < |rows| && IsPlayerPass(rows, i)
  {
    rows[i].event.playerId.value
  }

  /** The players with at least one Pass or Cross. */
  function Passers(rows: seq<TaggedEvent>): set<int> {
    set i | 0 <= i < |rows| && IsPlayerPass(rows, i) :: PasserOf(rows, i)
  }

  /** Number of Pass and Cross rows of player `p`. */
  function PassCount(rows: seq<TaggedEvent>, p: int): nat {
    if rows == [] then 0
    else (if PassBy(rows[0], p) then 1 else 0) + PassCount(rows[1..], p)
  }

  /** Number of those rows whose pass_success is True. */
  function SuccessCount(rows: seq<TaggedEvent>, p: int): nat {
    if rows == [] then 0
    else (if SuccessBy(rows[0], p) then 1 else 0) + SuccessCount(rows[1..], p)
  }

  /** A player with a pass has a positive pass count, and no more successes than passes. */
  lemma {:induction false} PasserCounts(rows: seq<TaggedEvent>, i: nat)
    requires i < |rows| && IsPlayerPass(rows, i)
    ensures PassCount(rows, PasserOf(rows, i)) > 0
    ensures SuccessCount(rows, PasserOf(rows, i)) <= PassCount(rows, PasserOf(rows, i))
  {
    SuccessesAtMostPasses(rows, PasserOf(rows, i));
    if i > 0 {
      PasserCounts(rows[1..], i - 1);
    }
  }

  lemma {:induction false} SuccessesAtMostPasses(rows: seq<TaggedEvent>, p: int)
    ensures SuccessCount(rows, p) <= PassCount(rows, p)
  {
    if rows != [] {
      SuccessesAtMostPasses(rows[1..], p);
    }
  }

  /**
   A completion rate as the pair (successes, attempts), standing for the
   fraction successes / attempts; attempts is positive for every player
   that is grouped.
   */
  datatype Rate = Rate(successes: nat, attempts: nat)

  function CompletionRate(rows: seq<TaggedEvent>, p: int): Rate {
    Rate(SuccessCount(rows, p), PassCount(rows, p))
  }

  /** a <= b as fractions, by cross-multiplication. */
  predicate RateLe(a: Rate, b: Rate) {
    a.successes * b.attempts <= b.successes * a.attempts
  }

  /** a == b as fractions, by cross-multiplication. */
  predicate SameRate(a: Rate, b: Rate) {
    a.successes * b.attempts == b.successes * a.attempts
  }

  /** The fraction order is transitive through a rate with positive attempts. */
  lemma RateLeTransitive(a: Rate, b: Rate, c: Rate)
    requires b.attempts > 0
    requires RateLe(a, b) && RateLe(b, c)
    ensures RateLe(a, c)
  {
    var x := a.successes * c.attempts * b.attempts;
    var y := b.successes * a.attempts * c.attempts;
    var z := c.successes * a.attempts * b.attempts;
    assert x <= y by {
      MulMonotone(a.successes * b.attempts, b.successes * a.attempts, c.attempts);
    }
    assert y <= z by {
      MulMonotone(b.successes * c.attempts, c.successes * b.attempts, a.attempts);
    }
    MulCancel(a.successes * c.attempts, c.successes * a.attempts, b.attempts);
  }

  // MulMonotone, MulCancel and MulStrict spell out the non-linear steps of
  // RateLeTransitive, so that its proof does not depend on the solver's
  // non-linear heuristics and stays stable across solver seeds.

  lemma MulMonotone(x: int, y: int, k: nat)
    requires x <= y
    ensures x * k <= y * k
  {
  }

  lemma MulCancel(x: int, y: int, k: nat)
    requires k > 0 && x * k <= y * k
    ensures x <= y
  {
    if y < x {
      MulStrict(y, x, k);
    }
  }

  lemma {:induction false} MulStrict(x: int, y: int, k: nat)
    requires x < y && k > 0
    ensures x * k < y * k
  {
    if k > 1 {
      MulStrict(x, y, k - 1);
      assert x * k == x * (k - 1) + x;
      assert y * k == y * (k - 1) + y;
    }
  }

  /**
   A player with the largest pass count among the rows from `k` on (the
   earliest such row's player on a tie), or None when those rows hold no
   grouped pass.
   */
  function TopPasserFrom(rows: seq<TaggedEvent>, k: nat): (r: Option<int>)
    requires k <= |rows|
    ensures r.None? <==> forall i :: k <= i < |rows| ==> !IsPlayerPass(rows, i)
    ensures r.Some? ==> exists i :: k <= i < |rows| && IsPlayerPass(rows, i) && PasserOf(rows, i) == r.value
    ensures r.Some? ==> forall i :: k <= i < |rows| && IsPlayerPass(rows, i) ==>
      PassCount(rows, PasserOf(rows, i)) <= PassCount(rows, r.value)
    decreases |rows| - k
  {
    if k == |rows| then None
    else
      var rest := TopPasserFrom(rows, k + 1);
      if !IsPlayerPass(rows, k) then rest
      else if rest.Some? && PassCount(rows, PasserOf(rows, k)) < PassCount(rows, rest.value) then rest
      else Some(PasserOf(rows, k))
  }

  /**
   The best completion rate among the players of the rows from `k` on, or
   None when those rows hold no grouped pass.
   */
  function BestRateFrom(rows: seq<TaggedEvent>, k: nat): (r: Option<Rate>)
    requires k <= |rows|
    ensures r.None? <==> forall i :: k <= i < |rows| ==> !IsPlayerPass(rows, i)
    ensures r.Some? ==> r.value.attempts > 0
    ensures r.Some? ==> exists i :: (k <= i < |rows| && IsPlayerPass(rows, i) &&
      CompletionRate(rows, PasserOf(rows, i)) == r.value)
    ensures r.Some? ==> forall i :: k <= i < |rows| && IsPlayerPass(rows, i) ==>
      RateLe(CompletionRate(rows, PasserOf(rows, i)), r.value)
    decreases |rows| - k
  {
    if k == |rows| then None
    else
      var rest := BestRateFrom(rows, k + 1);
      if !IsPlayerPass(rows, k) then rest
      else
        var here := CompletionRate(rows, PasserOf(rows, k));
        PasserCounts(rows, k);
        if rest.Some? && RateLe(here, rest.value) then rest
        else
          assert rest.Some? ==> RateLe(rest.value, here);
          assert forall i :: k < i < |rows| && IsPlayerPass(rows, i) ==>
            RateLe(CompletionRate(rows, PasserOf(rows, i)), here) by {
            forall i | k < i < |rows| && IsPlayerPass(rows, i)
              ensures RateLe(CompletionRate(rows, PasserOf(rows, i)), here)
            {
              RateLeTransitive(CompletionRate(rows, PasserOf(rows, i)), rest.value, here);
            }
          }
          Some(here)
  }

  /** The players whose completion rate equals `best`. */
  function PlayersWithRate(rows: seq<TaggedEvent>, best: Rate): set<int> {
    set i | 0 <= i < |rows| && IsPlayerPass(rows, i) && SameRate(CompletionRate(rows, PasserOf(rows, i)), best)
      :: PasserOf(rows, i)
  }

  datatype PassingStatistics = PassingStatistics(mostPassesPlayer: int, bestRate: Rate, bestPlayers: set<int>)

  /** Taking the maximum of an empty pass count column fails. */
  datatype StatsError = NoPasses

  /**
   The whole stage: no grouped pass is an error; otherwise a player with
   the most passes, the best completion rate, and every player with that
   rate.
   */
  function CalculatePassingStatistics(rows: seq<TaggedEvent>): (r: Result<PassingStatistics, StatsError>)
    ensures r.Err? <==> Passers(rows) == {}
    ensures r.Ok? ==> r.value.mostPassesPlayer in Passers(rows)
    ensures r.Ok? ==> forall p :: p in Passers(rows) ==>
      PassCount(rows, p) <= PassCount(rows, r.value.mostPassesPlayer)
    ensures r.Ok? ==> r.value.bestPlayers <= Passers(rows)
    ensures r.Ok? ==> forall p :: p in Passers(rows) ==>
      (p in r.value.bestPlayers <==> SameRate(CompletionRate(rows, p), r.value.bestRate))
    ensures r.Ok? ==> forall p :: p in Passers(rows) ==> RateLe(CompletionRate(rows, p), r.value.bestRate)
    ensures r.Ok? ==> exists p :: p in Passers(rows) && CompletionRate(rows, p) == r.value.bestRate
    ensures r.Ok? ==> r.value.bestPlayers != {}
    ensures r.Ok? ==> forall p, q :: p in r.value.bestPlayers && q in Passers(rows) ==>
      RateLe(CompletionRate(rows, q), CompletionRate(rows, p))
  {
    match TopPasserFrom(rows, 0)
    case None =>
      assert Passers(rows) == {};
      Err(NoPasses)
    case Some(top) =>
      var best := BestRateFrom(rows, 0).value;
      var i :| 0 <= i < |rows| && IsPlayerPass(rows, i) && PasserOf(rows, i) == top;
      assert top in Passers(rows);
      var bestPlayers := PlayersWithRate(rows, best);
      assert forall p, q :: p in bestPlayers && q in Passers(rows) ==>
        RateLe(CompletionRate(rows, q), CompletionRate(rows, p)) by {
        forall p, q | p in bestPlayers && q in Passers(rows)
          ensures RateLe(CompletionRate(rows, q), CompletionRate(rows, p))
        {
          RateLeTransitive(CompletionRate(rows, q), best, CompletionRate(rows, p));
        }
      }
      Ok(PassingStatistics(top, best, bestPlayers))
  }

  /**
   The completion example: player 10 with two passes of which one
   succeeded (rate 1/2) and player 20 with one successful pass (rate 1/1);
   player 10 has the most passes and player 20 alone has the best rate.
   */
  lemma CompletionExample(a1: RawEvent, a2: RawEvent, b: RawEvent)
    requires a1.kind == PASS && a1.playerId == Some(10)
    requires a2.kind == CROSS && a2.playerId == Some(10)
    requires b.kind == PASS && b.playerId == Some(20)
    ensures var rows := [TaggedEvent(a1, Some(true)), TaggedEvent(a2, Some(false)), TaggedEvent(b, Some(true))];
      && CalculatePassingStatistics(rows).Ok?
      && CalculatePassingStatistics(rows).value.mostPassesPlayer == 10
      && CalculatePassingStatistics(rows).value.bestRate == Rate(1, 1)
      && CalculatePassingStatistics(rows).value.bestPlayers == {20}
  {
    var rows := [TaggedEvent(a1, Some(true)), TaggedEvent(a2, Some(false)), TaggedEvent(b, Some(true))];
    assert IsPlayerPass(rows, 0) && IsPlayerPass(rows, 2);
    var t1, t2 := rows[1..], rows[1..][1..];
    assert t1 == [rows[1], rows[2]] && t2 == [rows[2]] && t2[1..] == [];
    assert PassCount(t2, 10) == 0 && SuccessCount(t2, 10) == 0;
    assert PassCount(t1, 10) == 1 && SuccessCount(t1, 10) == 0;
    assert PassCount(t2, 20) == 1 && SuccessCount(t2, 20) == 1;
    assert PassCount(t1, 20) == 1 && SuccessCount(t1, 20) == 1;
    assert CompletionRate(rows, 10) == Rate(1, 2);
    assert CompletionRate(rows, 20) == Rate(1, 1);
    assert Passers(rows) == {10, 20};
  }
}

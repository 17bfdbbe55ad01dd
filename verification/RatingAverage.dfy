/** The floor-rounded running average of `AgentReputationRegistry`, as a function of the ratings given. */
module RatingAverage {
  /** One update: the stored average stands in for the sum of all earlier ratings. */
  function Blend(average: nat, count: nat, rating: nat): nat {
    (average * count + rating * 2000) / (count + 1)
  }

  function Average(ratings: seq<nat>): nat {
    if ratings == [] then 0
    else
      var front, last := ratings[..|ratings| - 1], ratings[|ratings| - 1];
      Blend(Average(front), |front|, last)
  }

  /** The exact sum of the ratings in basis points, of which `Average` keeps a rounded share. */
  function TotalBps(ratings: seq<nat>): nat {
    if ratings == [] then 0
    else TotalBps(ratings[..|ratings| - 1]) + ratings[|ratings| - 1] * 2000
  }

  function Successes(ratings: seq<nat>): (count: nat)
    ensures count <= |ratings|
  {
    if ratings == [] then 0
    else Successes(ratings[..|ratings| - 1]) + if ratings[|ratings| - 1] >= 4 then 1 else 0
  }

  /** A rating of four or five is a success. */
  lemma {:induction false} SuccessesCount(ratings: seq<nat>)
    ensures Successes(ratings) == |set i | 0 <= i < |ratings| && ratings[i] >= 4|
    ensures Successes(ratings) <= |ratings|
  {
    if ratings != [] {
      var n, front := |ratings| - 1, ratings[..|ratings| - 1];
      SuccessesCount(front);
      var before := set i | 0 <= i < |front| && front[i] >= 4;
      var all := set i | 0 <= i < |ratings| && ratings[i] >= 4;
      assert all == before + (if ratings[n] >= 4 then {n} else {});
    }
  }

  // ---------------------------------------------------------------- one floor division

  lemma Times(a: int, b: int, m: nat)
    requires a <= b
    ensures a * m <= b * m
  {
  }

  lemma Expand(a: int, n: nat)
    ensures a * (n + 1) == a * n + a
    ensures (a + 1) * (n + 1) == a * n + a + n + 1
  {
  }

  lemma FloorBounds(x: nat, m: nat)
    requires m > 0
    ensures x / m * m <= x < x / m * m + m
  {
  }

  /** `x / m` reaches k exactly when x reaches k * m. */
  lemma FloorReaches(x: nat, m: nat, k: nat)
    requires m > 0
    ensures x / m >= k <==> x >= k * m
  {
    FloorBounds(x, m);
    if x / m >= k {
      Times(k, x / m, m);
    } else {
      Times(x / m + 1, k, m);
      assert (x / m + 1) * m == x / m * m + m;
    }
  }

  /**
   The average never exceeds the true mean, and after n ratings it falls short
   of it by at most (n - 1) / 2 basis points. (Both sides are multiplied by 2n.)
   */
  lemma {:induction false} DriftBound(ratings: seq<nat>)
    ensures var n, drift := |ratings|, TotalBps(ratings) - Average(ratings) * |ratings|;
            0 <= 2 * drift <= n * (n - 1)
  {
    if ratings != [] {
      var front, last := ratings[..|ratings| - 1], ratings[|ratings| - 1];
      var n, a := |front|, Average(front);
      DriftBound(front);
      FloorBounds(a * n + last * 2000, n + 1);
      assert n * (n - 1) + 2 * n == (n + 1) * n;
    }
  }

  /** The average stays between the worst and the best rating ever given. */
  lemma {:induction false} AverageBetween(ratings: seq<nat>, lo: nat, hi: nat)
    requires ratings != [] && forall i :: 0 <= i < |ratings| ==> lo <= ratings[i] <= hi
    ensures 2000 * lo <= Average(ratings) <= 2000 * hi
  {
    var front, last := ratings[..|ratings| - 1], ratings[|ratings| - 1];
    var n, a := |front|, Average(front);
    if front != [] {
      AverageBetween(front, lo, hi);
      Times(2000 * lo, a, n);
      Times(a, 2000 * hi, n);
    }
    Expand(2000 * lo, n);
    Expand(2000 * hi, n);
    FloorReaches(a * n + last * 2000, n + 1, 2000 * lo);
    FloorReaches(a * n + last * 2000, n + 1, 2000 * hi + 1);
  }

  /** Better ratings, one for one, never make a worse average. */
  lemma {:induction false} AverageMonotone(ratings: seq<nat>, better: seq<nat>)
    requires |ratings| == |better| && forall i :: 0 <= i < |ratings| ==> ratings[i] <= better[i]
    ensures Average(ratings) <= Average(better)
  {
    if ratings != [] {
      var n := |ratings| - 1;
      var a, b := Average(ratings[..n]), Average(better[..n]);
      AverageMonotone(ratings[..n], better[..n]);
      Times(a, b, n);
      FloorBounds(a * n + ratings[n] * 2000, n + 1);
      FloorReaches(b * n + better[n] * 2000, n + 1, Blend(a, n, ratings[n]));
    }
  }

  /** With the product expanded, the floor reaches a + 1 exactly when the rating makes up for a + n + 1. */
  lemma BlendRisesIff(a: nat, n: nat, rating: nat)
    ensures Blend(a, n, rating) >= a + 1 <==> 2000 * rating >= a + n + 1
  {
    FloorReaches(a * n + rating * 2000, n + 1, a + 1);
    Expand(a, n);
  }

  /** One more rating lifts the average exactly when it beats it by more than the number of ratings so far. */
  lemma RisesIff(ratings: seq<nat>, rating: nat)
    ensures Average(ratings + [rating]) > Average(ratings)
            <==> 2000 * rating > Average(ratings) + |ratings|
  {
    assert (ratings + [rating])[..|ratings|] == ratings;
    BlendRisesIff(Average(ratings), |ratings|, rating);
  }

  /** After ten thousand ratings the average can only go down: no later history recovers it. */
  lemma {:induction false} NeverRecovers(ratings: seq<nat>, later: seq<nat>)
    requires |ratings| >= 10_000 && forall i :: 0 <= i < |later| ==> later[i] <= 5
    ensures Average(ratings + later) <= Average(ratings)
    decreases |later|
  {
    if later == [] {
      assert ratings + later == ratings;
    } else {
      var front, last := later[..|later| - 1], later[|later| - 1];
      NeverRecovers(ratings, front);
      RisesIff(ratings + front, last);
      assert ratings + later == (ratings + front) + [last];
    }
  }

  /**
   So the average does not tend to the true mean: ten thousand zeros hold it at
   zero, whatever number of top ratings follows.
   */
  lemma StuckAtZero(zeros: seq<nat>, fives: seq<nat>)
    requires |zeros| == 10_000 && forall i :: 0 <= i < |zeros| ==> zeros[i] == 0
    requires forall i :: 0 <= i < |fives| ==> fives[i] == 5
    ensures Average(zeros + fives) == 0
  {
    AverageBetween(zeros, 0, 0);
    NeverRecovers(zeros, fives);
  }
}

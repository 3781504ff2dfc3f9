/**
 The collaborative predictor `predict_cf` (scripts/movie_recommender.py,
 lines 41-60). The user-similarity matrix is a parameter `usim`; the cosine
 computation that produces it is not modelled. `usim(v, u)` is the entry
 `user_sim_df.loc[v, u]`, i.e. row `v` of the column `user_sim_df[u]` that
 the predictor reads.
 */
module Collaborative {
  import opened Wrappers
  import opened Order
  import opened Stats
  import opened Ratings

  /** Default neighbourhood size `k` of `predict_cf`. */
  const DefaultK: int := 5

  /**
   Row indices below `n` of the users other than `u` whose cell in `col` is
   positive, ascending: `rated_users` after `drop(user_id)` and `> 0`.
   */
  function Qualifying(users: seq<int>, col: seq<real>, u: int, n: nat): (q: seq<nat>)
    requires |users| == |col| && n <= |col|
    ensures forall t :: 0 <= t < |q| ==> q[t] < n
    ensures forall s, t :: 0 <= s < t < |q| ==> q[s] < q[t]
    ensures forall i: nat :: i in q <==> i < n && users[i] != u && col[i] > 0.0
  {
    if n == 0 then []
    else Qualifying(users, col, u, n - 1) + (if users[n - 1] != u && col[n - 1] > 0.0 then [n - 1] else [])
  }

  /** The qualifying raters of column `j` for target user `u`, in matrix row order. */
  function Raters(M: RatingMatrix, u: int, j: nat): (q: seq<nat>)
    requires M.Valid() && j < |M.movies|
    ensures forall t :: 0 <= t < |q| ==> q[t] < |M.users|
    ensures forall s, t :: 0 <= s < t < |q| ==> q[s] < q[t]
    ensures forall i: nat :: i in q <==> i < |M.users| && M.users[i] != u && M.cells[i][j] > 0.0
  {
    Qualifying(M.users, M.Column(j), u, |M.users|)
  }

  /**
   The neighbours that get weighted: `rated_users.index[:k]`. They are never
   the target user, each has a positive rating, and they are the FIRST
   qualifying raters in row order (every qualifying row before a selected
   one is selected too), at most `k` of them, and all of them when fewer
   than `k` qualify. Similarity plays no part in the choice.
   */
  function Neighbours(M: RatingMatrix, u: int, j: nat, k: int): (sel: seq<nat>)
    requires M.Valid() && j < |M.movies|
    ensures forall t :: 0 <= t < |sel| ==>
              sel[t] < |M.users| && M.users[sel[t]] != u && M.cells[sel[t]][j] > 0.0
    ensures forall s, t :: 0 <= s < t < |sel| ==> sel[s] < sel[t]
    ensures forall t, i :: 0 <= t < |sel| && 0 <= i < sel[t] && M.users[i] != u && M.cells[i][j] > 0.0 ==>
              i in sel
    ensures |sel| == PrefixLen(|Raters(M, u, j)|, k)
    ensures k >= 0 ==> |sel| <= k
    ensures k >= 0 && |sel| < k ==>
              forall i :: 0 <= i < |M.users| && M.users[i] != u && M.cells[i][j] > 0.0 ==> i in sel
  {
    var q := Raters(M, u, j);
    var n := PrefixLen(|q|, k);
    RaterPrefixDownClosed(M, u, j, n);
    q[..n]
  }

  /** A prefix of the qualifying raters contains every qualifying row before its members. */
  lemma RaterPrefixDownClosed(M: RatingMatrix, u: int, j: nat, n: nat)
    requires M.Valid() && j < |M.movies|
    requires n <= |Raters(M, u, j)|
    ensures var sel := Raters(M, u, j)[..n];
            forall t, i :: 0 <= t < |sel| && 0 <= i < sel[t] && M.users[i] != u && M.cells[i][j] > 0.0 ==>
              i in sel
  {
    var q := Raters(M, u, j);
    var sel := q[..n];
    forall t, i | 0 <= t < |sel| && 0 <= i < sel[t] && M.users[i] != u && M.cells[i][j] > 0.0
      ensures i in sel
    {
      assert sel[t] == q[t];
      assert (i as nat) in q;
      var s :| 0 <= s < |q| && q[s] == i;
      IncreasingIndex(q, s, t);
      assert sel[s] == i;
    }
  }

  /** In a strictly increasing sequence a smaller value sits at a smaller position. */
  lemma IncreasingIndex(q: seq<nat>, s: nat, t: nat)
    requires forall a, b :: 0 <= a < b < |q| ==> q[a] < q[b]
    requires s < |q| && t < |q| && q[s] < q[t]
    ensures s < t
  {
  }

  /** Ratings of the given rows in column `col`. */
  function Gather(col: seq<real>, rows: seq<nat>): (xs: seq<real>)
    requires forall t :: 0 <= t < |rows| ==> rows[t] < |col|
    ensures |xs| == |rows|
    ensures forall t :: 0 <= t < |rows| ==> xs[t] == col[rows[t]]
  {
    seq(|rows|, t requires 0 <= t < |rows| => col[rows[t]])
  }

  /** Similarity to `u` of each given row's user: `sim_scores[top_users]`. */
  function Weights(M: RatingMatrix, usim: (int, int) -> real, u: int, rows: seq<nat>): (ws: seq<real>)
    requires forall t :: 0 <= t < |rows| ==> rows[t] < |M.users|
    ensures |ws| == |rows|
    ensures forall t :: 0 <= t < |rows| ==> ws[t] == usim(M.users[rows[t]], u)
  {
    seq(|rows|, t requires 0 <= t < |rows| => usim(M.users[rows[t]], u))
  }

  /**
   `predict_cf(user_id, movie_id, k)`. A movie nobody rated predicts 0. The
   user must be a row of the matrix when the movie is a column (the lookup
   `user_sim_df[user_id]` raises otherwise); an unrated movie returns before
   that lookup, so any user is accepted for it.
   */
  function Predict(M: RatingMatrix, usim: (int, int) -> real, u: int, m: int, k: int := DefaultK): (r: real)
    requires M.Valid()
    requires m in M.movies ==> u in M.users
    ensures m !in M.movies ==> r == 0.0
  {
    if m !in M.movies then 0.0
    else
      var j := IndexOf(M.movies, m);
      var col := M.Column(j);
      var raters := Raters(M, u, j);
      if |raters| == 0 then Mean(col)
      else
        var sel := Neighbours(M, u, j, k);
        var ws := Weights(M, usim, u, sel);
        if Sum(ws) == 0.0 then Mean(Gather(col, raters))
        else WeightedAverage(Gather(col, sel), ws)
  }

  /**
   `predict_cf` with its failure: `None` exactly where the lookup
   `user_sim_df[user_id]` raises, for a rated movie and a user who is not a
   row of the matrix.
   */
  function TryPredict(M: RatingMatrix, usim: (int, int) -> real, u: int, m: int, k: int): (r: Option<real>)
    requires M.Valid()
    ensures r.None? <==> m in M.movies && u !in M.users
    ensures r.Some? ==> r.value == Predict(M, usim, u, m, k)
  {
    if m in M.movies && u !in M.users then None else Some(Predict(M, usim, u, m, k))
  }

  /**
   When no other user rated the movie positively, the prediction is the
   mean of the whole column, 0-filled cells and the target user's own cell
   included: the movie's total recorded rating divided by the number of
   users in the matrix.
   */
  lemma PredictWithoutOtherRaters(ratings: seq<Rating>, usim: (int, int) -> real, u: int, m: int, k: int)
    requires UniquePairs(ratings)
    requires exists x :: 0 <= x < |ratings| && ratings[x].movieId == m
    requires exists x :: 0 <= x < |ratings| && ratings[x].userId == u
    requires forall x :: 0 <= x < |ratings| && ratings[x].movieId == m && ratings[x].userId != u ==>
               ratings[x].rating <= 0.0
    ensures var M := BuildMatrix(ratings);
            Predict(M, usim, u, m, k) == RatingMass(ratings, m) / (|M.users| as real)
  {
    var M := BuildMatrix(ratings);
    var j := IndexOf(M.movies, m);
    var raters := Raters(M, u, j);
    forall i | 0 <= i < |M.users| && M.users[i] != u
      ensures M.cells[i][j] <= 0.0
    {
      if x :| 0 <= x < |ratings| && ratings[x].userId == M.users[i] && ratings[x].movieId == m {
        assert M.cells[i][j] == ratings[x].rating;
      }
    }
    NoMemberMeansEmpty(raters);
    ColumnSumIsRatingMass(ratings, j);
  }

  /**
   When the selected neighbours' weights sum to 0, the prediction is the
   mean over ALL qualifying raters, not only the first `k`; it is positive
   and no larger than the largest of their ratings.
   */
  lemma PredictZeroWeightFallback(M: RatingMatrix, usim: (int, int) -> real, u: int, m: int, k: int)
    requires M.Valid() && m in M.movies && u in M.users
    requires |Raters(M, u, IndexOf(M.movies, m))| > 0
    requires Sum(Weights(M, usim, u, Neighbours(M, u, IndexOf(M.movies, m), k))) == 0.0
    ensures var j := IndexOf(M.movies, m);
            var all := Gather(M.Column(j), Raters(M, u, j));
            && Predict(M, usim, u, m, k) == Mean(all)
            && 0.0 < Predict(M, usim, u, m, k) <= Max(all)
  {
    var j := IndexOf(M.movies, m);
    var all := Gather(M.Column(j), Raters(M, u, j));
    SumPositive(all);
    MeanBounds(all, Min(all), Max(all));
    assert Mean(all) > 0.0;
  }

  /**
   With a non-zero weight sum the prediction is the similarity-weighted
   average of the selected neighbours' ratings; when every weight is
   non-negative it lies between the smallest and largest of those ratings.
   */
  lemma PredictWeighted(M: RatingMatrix, usim: (int, int) -> real, u: int, m: int, k: int)
    requires M.Valid() && m in M.movies && u in M.users
    requires |Raters(M, u, IndexOf(M.movies, m))| > 0
    requires Sum(Weights(M, usim, u, Neighbours(M, u, IndexOf(M.movies, m), k))) != 0.0
    ensures var j := IndexOf(M.movies, m);
            var sel := Neighbours(M, u, j, k);
            var xs := Gather(M.Column(j), sel);
            && |sel| > 0
            && Predict(M, usim, u, m, k) == WeightedAverage(xs, Weights(M, usim, u, sel))
            && ((forall v :: v in M.users ==> 0.0 <= usim(v, u)) ==>
                  Min(xs) <= Predict(M, usim, u, m, k) <= Max(xs))
  {
    var j := IndexOf(M.movies, m);
    var sel := Neighbours(M, u, j, k);
    var ws := Weights(M, usim, u, sel);
    var xs := Gather(M.Column(j), sel);
    if forall v :: v in M.users ==> 0.0 <= usim(v, u) {
      forall t | 0 <= t < |ws|
        ensures 0.0 <= ws[t]
      {
        assert M.users[sel[t]] in M.users;
      }
      WeightedAverageBounds(xs, ws);
    }
  }

  /**
   With every cell in `[0, hi]` and every similarity to `u` non-negative,
   the prediction stays in `[0, hi]`, on every path.
   */
  lemma PredictWithinScale(M: RatingMatrix, usim: (int, int) -> real, u: int, m: int, k: int, hi: real)
    requires M.Valid()
    requires m in M.movies ==> u in M.users
    requires 0.0 <= hi
    requires forall i, j :: 0 <= i < |M.users| && 0 <= j < |M.movies| ==> 0.0 <= M.cells[i][j] <= hi
    requires forall v :: v in M.users ==> 0.0 <= usim(v, u)
    ensures 0.0 <= Predict(M, usim, u, m, k) <= hi
  {
    if m in M.movies {
      var j := IndexOf(M.movies, m);
      var col := M.Column(j);
      var raters := Raters(M, u, j);
      if |raters| == 0 {
        MeanBounds(col, 0.0, hi);
      } else {
        var sel := Neighbours(M, u, j, k);
        var ws := Weights(M, usim, u, sel);
        if Sum(ws) == 0.0 {
          MeanBounds(Gather(col, raters), 0.0, hi);
        } else {
          forall t | 0 <= t < |ws|
            ensures 0.0 <= ws[t]
          {
            assert M.users[sel[t]] in M.users;
          }
          WeightedAverageWithin(Gather(col, sel), ws, 0.0, hi);
        }
      }
    }
  }

  /**
   The neighbourhood is not "the k most similar users": with k = 1, user 1
   as target and users 2 and 3 both rating movie 10, user 2 is taken
   because its row comes first, although user 3 is more similar; the
   prediction is user 2's rating 4, not user 3's rating 5.
   */
  lemma FirstRatersNotMostSimilar()
    ensures var M := RatingMatrix([1, 2, 3], [10], [[0.0], [4.0], [5.0]]);
            && M.Valid()
            && Raters(M, 1, 0) == [1, 2]
            && Neighbours(M, 1, 0, 1) == [1]
            && Predict(M, ExampleSim, 1, 10, 1) == 4.0
            && ExampleSim(M.users[2], 1) > ExampleSim(M.users[1], 1)
  {
    ExampleRaters();
    ExampleNeighbours();
    ExamplePrediction();
  }

  lemma ExampleNeighbours()
    ensures var M := RatingMatrix([1, 2, 3], [10], [[0.0], [4.0], [5.0]]);
            M.Valid() && Neighbours(M, 1, 0, 1) == [1]
  {
    ExampleRaters();
    var M := RatingMatrix([1, 2, 3], [10], [[0.0], [4.0], [5.0]]);
    assert PrefixLen(2, 1) == 1;
  }

  lemma ExamplePrediction()
    ensures var M := RatingMatrix([1, 2, 3], [10], [[0.0], [4.0], [5.0]]);
            M.Valid() && Predict(M, ExampleSim, 1, 10, 1) == 4.0
  {
    var M := RatingMatrix([1, 2, 3], [10], [[0.0], [4.0], [5.0]]);
    ExampleRaters();
    ExampleNeighbours();
    assert IndexOf(M.movies, 10) == 0;
    ExampleWeightedAverage();
    assert M.Valid() && 10 in M.movies && 1 in M.users;
    forall v | v in M.users
      ensures 0.0 <= ExampleSim(v, 1)
    {
      ExampleSimNonNegative(v, 1);
    }
    assert |Raters(M, 1, 0)| > 0;
    assert Sum(Weights(M, ExampleSim, 1, Neighbours(M, 1, 0, 1))) != 0.0;
    PredictWeighted(M, ExampleSim, 1, 10, 1);
  }

  lemma ExampleWeightedAverage()
    ensures var M := RatingMatrix([1, 2, 3], [10], [[0.0], [4.0], [5.0]]);
            && M.Valid()
            && Sum(Weights(M, ExampleSim, 1, [1])) == 0.1
            && WeightedAverage(Gather(M.Column(0), [1]), Weights(M, ExampleSim, 1, [1])) == 4.0
  {
    var M := RatingMatrix([1, 2, 3], [10], [[0.0], [4.0], [5.0]]);
    var ws := Weights(M, ExampleSim, 1, [1]);
    assert ws == [0.1];
    var xs := Gather(M.Column(0), [1]);
    assert xs == [4.0];
    assert Dot(xs, ws) == 0.4;
  }

  /** Similarity of the example above: user 3 is close to everyone, the others are not. */
  function ExampleSim(a: int, b: int): real
  {
    if a == 3 then 0.9 else 0.1
  }

  lemma ExampleSimNonNegative(a: int, b: int)
    ensures 0.0 < ExampleSim(a, b)
  {
  }

  lemma ExampleRaters()
    ensures var M := RatingMatrix([1, 2, 3], [10], [[0.0], [4.0], [5.0]]);
            M.Valid() && Raters(M, 1, 0) == [1, 2]
  {
    var M := RatingMatrix([1, 2, 3], [10], [[0.0], [4.0], [5.0]]);
    var col := M.Column(0);
    assert col == [0.0, 4.0, 5.0] by {
      assert |col| == 3 && col[0] == 0.0 && col[1] == 4.0 && col[2] == 5.0;
    }
    ExampleQualifying();
  }

  lemma ExampleQualifying()
    ensures Qualifying([1, 2, 3], [0.0, 4.0, 5.0], 1, 3) == [1, 2]
  {
    var users, col := [1, 2, 3], [0.0, 4.0, 5.0];
    assert Qualifying(users, col, 1, 1) == [] by {
      assert Qualifying(users, col, 1, 0) == [];
    }
    assert Qualifying(users, col, 1, 2) == [1];
  }
}

/**
 The user x movie rating matrix (scripts/movie_recommender.py, line 35):
 `ratings.pivot(index='userId', columns='movieId', values='rating').fillna(0)`.
 Rows are the distinct userIds and columns the distinct movieIds, both
 ascending; a cell holds the rating of its (user, movie) record, or 0 when
 there is none.
 */
module Ratings {
  import opened Wrappers
  import opened Order
  import opened Stats

  /** A row of ratings.csv. */
  datatype Rating = Rating(userId: int, movieId: int, rating: real, timestamp: int)

  /** No (userId, movieId) pair occurs twice; `pivot` raises otherwise. */
  predicate UniquePairs(ratings: seq<Rating>)
  {
    forall a, b :: 0 <= a < b < |ratings| ==>
      ratings[a].userId != ratings[b].userId || ratings[a].movieId != ratings[b].movieId
  }

  /** A dense table: `cells[i][j]` is the cell of user `users[i]` and movie `movies[j]`. */
  datatype RatingMatrix = RatingMatrix(users: seq<int>, movies: seq<int>, cells: seq<seq<real>>)
  {
    /** Axes ascending without repeats, and the table is rectangular. */
    predicate Valid()
    {
      && StrictlySorted(IntLess, users)
      && StrictlySorted(IntLess, movies)
      && |cells| == |users|
      && (forall i :: 0 <= i < |cells| ==> |cells[i]| == |movies|)
    }

    /** The column of movie `movies[j]`, one cell per user in row order. */
    function Column(j: nat): (col: seq<real>)
      requires Valid() && j < |movies|
      ensures |col| == |users|
      ensures forall i :: 0 <= i < |users| ==> col[i] == cells[i][j]
    {
      seq(|users|, i requires 0 <= i < |users| => cells[i][j])
    }
  }

  /** The distinct userIds of the records, ascending. */
  function UserIds(ratings: seq<Rating>): (r: seq<int>)
    ensures StrictlySorted(IntLess, r)
    ensures forall u :: u in r <==> exists k :: 0 <= k < |ratings| && ratings[k].userId == u
  {
    IntLessIsStrictTotalOrder();
    var ids := seq(|ratings|, k requires 0 <= k < |ratings| => ratings[k].userId);
    assert forall k :: 0 <= k < |ratings| ==> ids[k] == ratings[k].userId;
    SortedDistinct(IntLess, ids)
  }

  /** The distinct movieIds of the records, ascending. */
  function MovieIds(ratings: seq<Rating>): (r: seq<int>)
    ensures StrictlySorted(IntLess, r)
    ensures forall m :: m in r <==> exists k :: 0 <= k < |ratings| && ratings[k].movieId == m
  {
    IntLessIsStrictTotalOrder();
    var ids := seq(|ratings|, k requires 0 <= k < |ratings| => ratings[k].movieId);
    assert forall k :: 0 <= k < |ratings| ==> ids[k] == ratings[k].movieId;
    SortedDistinct(IntLess, ids)
  }

  /** The rating recorded for (u, m), or the fill value 0 when there is none. */
  function RatingOf(ratings: seq<Rating>, u: int, m: int): real
  {
    if |ratings| == 0 then 0.0
    else
      var x := ratings[|ratings| - 1];
      if x.userId == u && x.movieId == m then x.rating
      else RatingOf(ratings[..|ratings| - 1], u, m)
  }

  /** Without a record for (u, m) the cell is filled with 0. */
  lemma {:induction false} RatingOfMissing(ratings: seq<Rating>, u: int, m: int)
    requires forall k :: 0 <= k < |ratings| ==> ratings[k].userId != u || ratings[k].movieId != m
    ensures RatingOf(ratings, u, m) == 0.0
  {
    if |ratings| > 0 {
      var n := |ratings| - 1;
      assert forall k :: 0 <= k < n ==> ratings[..n][k] == ratings[k];
      RatingOfMissing(ratings[..n], u, m);
    }
  }

  /** With unique pairs, the cell of a record's (user, movie) holds that record's rating. */
  lemma {:induction false} RatingOfRecord(ratings: seq<Rating>, k: int)
    requires UniquePairs(ratings)
    requires 0 <= k < |ratings|
    ensures RatingOf(ratings, ratings[k].userId, ratings[k].movieId) == ratings[k].rating
  {
    var n := |ratings| - 1;
    if k < n {
      assert ratings[..n][k] == ratings[k];
      assert UniquePairs(ratings[..n]);
      RatingOfRecord(ratings[..n], k);
    }
  }

  /**
   The pivoted, zero-filled matrix. Its axes are exactly the ids that occur
   in the records; each record's rating sits at its cell and every other
   cell is 0. The unique-pairs requirement is what makes the first cell
   property hold: with two records for one cell there is no single value.
   */
  function BuildMatrix(ratings: seq<Rating>): (M: RatingMatrix)
    requires UniquePairs(ratings)
    ensures M.Valid()
    ensures forall u :: u in M.users <==> exists k :: 0 <= k < |ratings| && ratings[k].userId == u
    ensures forall m :: m in M.movies <==> exists k :: 0 <= k < |ratings| && ratings[k].movieId == m
    ensures forall i, j, k ::
              0 <= i < |M.users| && 0 <= j < |M.movies| && 0 <= k < |ratings|
              && ratings[k].userId == M.users[i] && ratings[k].movieId == M.movies[j]
              ==> M.cells[i][j] == ratings[k].rating
    ensures forall i, j ::
              0 <= i < |M.users| && 0 <= j < |M.movies|
              && (forall k :: 0 <= k < |ratings| ==>
                    ratings[k].userId != M.users[i] || ratings[k].movieId != M.movies[j])
              ==> M.cells[i][j] == 0.0
  {
    var users := UserIds(ratings);
    var movies := MovieIds(ratings);
    var cells := seq(|users|, i requires 0 <= i < |users| =>
                   seq(|movies|, j requires 0 <= j < |movies| => RatingOf(ratings, users[i], movies[j])));
    assert forall i, j :: 0 <= i < |users| && 0 <= j < |movies| ==>
      cells[i][j] == RatingOf(ratings, users[i], movies[j]);
    forall i, j, k | 0 <= i < |users| && 0 <= j < |movies| && 0 <= k < |ratings|
      && ratings[k].userId == users[i] && ratings[k].movieId == movies[j]
      ensures cells[i][j] == ratings[k].rating
    {
      RatingOfRecord(ratings, k);
    }
    forall i, j | 0 <= i < |users| && 0 <= j < |movies|
      && (forall k :: 0 <= k < |ratings| ==> ratings[k].userId != users[i] || ratings[k].movieId != movies[j])
      ensures cells[i][j] == 0.0
    {
      RatingOfMissing(ratings, users[i], movies[j]);
    }
    RatingMatrix(users, movies, cells)
  }

  /**
   `pivot` with its failure: a repeated (userId, movieId) pair makes it
   raise (`None`); otherwise it builds the matrix above.
   */
  function TryBuildMatrix(ratings: seq<Rating>): (r: Option<RatingMatrix>)
    ensures r.None? <==> exists a, b :: 0 <= a < b < |ratings|
                           && ratings[a].userId == ratings[b].userId && ratings[a].movieId == ratings[b].movieId
    ensures r.Some? ==> UniquePairs(ratings) && r.value == BuildMatrix(ratings)
  {
    if UniquePairs(ratings) then Some(BuildMatrix(ratings)) else None
  }

  // ---------------------------------------------------------------------------
  // Column sums: what the zero-filled column adds up to
  // ---------------------------------------------------------------------------

  /** Total of the ratings recorded for movie `m`. */
  function RatingMass(ratings: seq<Rating>, m: int): real
  {
    if |ratings| == 0 then 0.0
    else
      var x := ratings[|ratings| - 1];
      RatingMass(ratings[..|ratings| - 1], m) + (if x.movieId == m then x.rating else 0.0)
  }

  /** Sum over the users `us` of their cell for movie `m`. */
  function CellSum(ratings: seq<Rating>, us: seq<int>, m: int): real
  {
    if |us| == 0 then 0.0
    else CellSum(ratings, us[..|us| - 1], m) + RatingOf(ratings, us[|us| - 1], m)
  }

  /** A column whose entries are the cells of `us` sums to `CellSum`. */
  lemma {:induction false} ColumnIsCellSum(col: seq<real>, ratings: seq<Rating>, us: seq<int>, m: int)
    requires |col| == |us|
    requires forall i :: 0 <= i < |us| ==> col[i] == RatingOf(ratings, us[i], m)
    ensures Sum(col) == CellSum(ratings, us, m)
  {
    if |us| > 0 {
      var n := |us| - 1;
      ColumnIsCellSum(col[..n], ratings, us[..n], m);
    }
  }

  /** Adding the last record changes one cell by exactly that record's rating. */
  lemma RatingOfLast(ratings: seq<Rating>, u: int, m: int)
    requires UniquePairs(ratings) && |ratings| > 0
    ensures var n := |ratings| - 1; var x := ratings[n];
            RatingOf(ratings, u, m)
            == RatingOf(ratings[..n], u, m) + (if x.userId == u && x.movieId == m then x.rating else 0.0)
  {
    var n := |ratings| - 1;
    var x := ratings[n];
    if x.userId == u && x.movieId == m {
      assert forall k :: 0 <= k < n ==> ratings[..n][k] == ratings[k];
      RatingOfMissing(ratings[..n], u, m);
    }
  }

  lemma {:induction false} CellSumLast(ratings: seq<Rating>, us: seq<int>, m: int)
    requires UniquePairs(ratings) && |ratings| > 0
    requires StrictlySorted(IntLess, us)
    ensures var n := |ratings| - 1; var x := ratings[n];
            CellSum(ratings, us, m)
            == CellSum(ratings[..n], us, m) + (if x.movieId == m && x.userId in us then x.rating else 0.0)
  {
    var n := |ratings| - 1;
    var x := ratings[n];
    if |us| > 0 {
      var p := |us| - 1;
      assert StrictlySorted(IntLess, us[..p]);
      CellSumLast(ratings, us[..p], m);
      RatingOfLast(ratings, us[p], m);
      assert x.userId in us <==> x.userId in us[..p] || x.userId == us[p] by {
        assert us == us[..p] + [us[p]];
      }
      assert x.userId in us[..p] ==> x.userId != us[p] by {
        if x.userId in us[..p] {
          var i :| 0 <= i < p && us[..p][i] == x.userId;
          assert IntLess(us[i], us[p]);
        }
      }
    }
  }

  /**
   Summing a movie's cells over a duplicate-free list of users that contains
   every rater of the movie gives the movie's total recorded rating: the
   0-filled cells add nothing.
   */
  lemma {:induction false} CellSumIsRatingMass(ratings: seq<Rating>, us: seq<int>, m: int)
    requires UniquePairs(ratings)
    requires StrictlySorted(IntLess, us)
    requires forall k :: 0 <= k < |ratings| && ratings[k].movieId == m ==> ratings[k].userId in us
    ensures CellSum(ratings, us, m) == RatingMass(ratings, m)
  {
    if |ratings| == 0 {
      CellSumEmpty(us, m);
    } else {
      var n := |ratings| - 1;
      assert forall k :: 0 <= k < n ==> ratings[..n][k] == ratings[k];
      assert UniquePairs(ratings[..n]);
      CellSumIsRatingMass(ratings[..n], us, m);
      CellSumLast(ratings, us, m);
    }
  }

  lemma {:induction false} CellSumEmpty(us: seq<int>, m: int)
    ensures CellSum([], us, m) == 0.0
  {
    if |us| > 0 {
      CellSumEmpty(us[..|us| - 1], m);
    }
  }

  /**
   Every column of the built matrix, 0-filled cells included, sums to the
   total of the ratings recorded for its movie.
   */
  lemma ColumnSumIsRatingMass(ratings: seq<Rating>, j: nat)
    requires UniquePairs(ratings)
    requires j < |BuildMatrix(ratings).movies|
    ensures var M := BuildMatrix(ratings);
            Sum(M.Column(j)) == RatingMass(ratings, M.movies[j])
  {
    var M := BuildMatrix(ratings);
    var m := M.movies[j];
    var col := M.Column(j);
    forall i | 0 <= i < |M.users|
      ensures col[i] == RatingOf(ratings, M.users[i], m)
    {
      if k :| 0 <= k < |ratings| && ratings[k].userId == M.users[i] && ratings[k].movieId == m {
        RatingOfRecord(ratings, k);
      } else {
        RatingOfMissing(ratings, M.users[i], m);
      }
    }
    ColumnIsCellSum(col, ratings, M.users, m);
    CellSumIsRatingMass(ratings, M.users, m);
  }
}

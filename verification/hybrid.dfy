/**
 The hybrid recommender `hybrid_recommend` (scripts/movie_recommender.py,
 lines 72-100). Every catalog movie gets the blend
 `cf_weight * cf + cb_weight * cb` of its collaborative prediction and its
 content score; the scored titles are stably sorted by score, best first,
 and cut to `top_n`.

 The genre-similarity matrix `genre_sim_df` is a parameter `gsim`, read as
 `gsim(a, b) == genre_sim_df.loc[a, b]` for movieIds `a`, `b`; the
 user-similarity matrix is the parameter `usim` of `Collaborative.Predict`.
 */
module Hybrid {
  import opened Wrappers
  import opened Stats
  import opened Order
  import opened Ratings
  import opened Catalog
  import opened Collaborative
  import opened Ranking

  /** The defaults of `hybrid_recommend(user_id, top_n=10, cf_weight=0.7, cb_weight=0.3)`. */
  const DefaultTopN: int := 10
  const DefaultCfWeight: real := 0.7
  const DefaultCbWeight: real := 0.3

  /** `ratings[ratings['userId'] == u]['movieId'].tolist()`: the movies `u` rated, in record order. */
  function LikedMovies(ratings: seq<Rating>, u: int): (liked: seq<int>)
    ensures |liked| <= |ratings|
    ensures forall m :: m in liked <==>
              exists k :: 0 <= k < |ratings| && ratings[k].userId == u && ratings[k].movieId == m
  {
    if |ratings| == 0 then []
    else
      var n := |ratings| - 1;
      var r := LikedMovies(ratings[..n], u) + (if ratings[n].userId == u then [ratings[n].movieId] else []);
      assert forall k :: 0 <= k < n ==> ratings[..n][k] == ratings[k];
      r
  }

  /** The liked list follows the records: one entry per record of `u`, in record order. */
  lemma {:induction false} LikedMoviesConcat(a: seq<Rating>, b: seq<Rating>, u: int)
    ensures LikedMovies(a + b, u) == LikedMovies(a, u) + LikedMovies(b, u)
    decreases |b|
  {
    if |b| == 0 {
      assert a + b == a;
    } else {
      var n := |b| - 1;
      assert (a + b)[..|a + b| - 1] == a + b[..n];
      LikedMoviesConcat(a, b[..n], u);
    }
  }

  /** The catalog's `movieId` column, which labels the rows and columns of `genre_sim_df`. */
  function CatalogIds(catalog: seq<CatalogEntry>): (ids: seq<int>)
    ensures |ids| == |catalog|
    ensures forall i :: 0 <= i < |catalog| ==> ids[i] == catalog[i].movieId
  {
    seq(|catalog|, i requires 0 <= i < |catalog| => catalog[i].movieId)
  }

  /**
   `[genre_sim_df.loc[m, mid] for mid in liked if mid in genre_sim_df.columns]`:
   one similarity per liked movie that the genre index knows, in liked order.
   */
  function ContentSims(gsim: (int, int) -> real, ids: seq<int>, m: int, liked: seq<int>): (sims: seq<real>)
    ensures |sims| <= |liked|
    ensures |sims| == 0 <==> forall t :: 0 <= t < |liked| ==> liked[t] !in ids
    ensures forall x :: x in sims ==> exists t :: 0 <= t < |liked| && liked[t] in ids && x == gsim(m, liked[t])
  {
    if |liked| == 0 then []
    else
      var n := |liked| - 1;
      var r := ContentSims(gsim, ids, m, liked[..n]) + (if liked[n] in ids then [gsim(m, liked[n])] else []);
      assert forall t :: 0 <= t < n ==> liked[..n][t] == liked[t];
      r
  }

  /** One similarity per liked movie in the genre index, in liked order: collection distributes over `+`. */
  lemma {:induction false} ContentSimsConcat(gsim: (int, int) -> real, ids: seq<int>, m: int, a: seq<int>, b: seq<int>)
    ensures ContentSims(gsim, ids, m, a + b) == ContentSims(gsim, ids, m, a) + ContentSims(gsim, ids, m, b)
    decreases |b|
  {
    if |b| == 0 {
      assert a + b == a;
    } else {
      var n := |b| - 1;
      assert (a + b)[..|a + b| - 1] == a + b[..n];
      ContentSimsConcat(gsim, ids, m, a, b[..n]);
    }
  }

  /**
   The content score of movie `m` (lines 86-90): the mean similarity to the
   liked movies in the genre index, 0 when there are none or when `u` rated
   nothing. A mean, it never leaves the range of the similarities averaged.
   */
  function CbScore(gsim: (int, int) -> real, ids: seq<int>, m: int, liked: seq<int>): (cb: real)
    ensures (forall t :: 0 <= t < |liked| ==> liked[t] !in ids) ==> cb == 0.0
    ensures var sims := ContentSims(gsim, ids, m, liked);
            |sims| > 0 ==> cb == Mean(sims) && Min(sims) <= cb <= Max(sims)
  {
    if |liked| == 0 then 0.0
    else
      var sims := ContentSims(gsim, ids, m, liked);
      if |sims| == 0 then 0.0
      else
        MeanBounds(sims, Min(sims), Max(sims));
        Mean(sims)
  }

  /** With every similarity to a liked movie in `[lo, hi]` and `lo <= 0 <= hi`, so is the content score. */
  lemma CbScoreWithin(gsim: (int, int) -> real, ids: seq<int>, m: int, liked: seq<int>, lo: real, hi: real)
    requires lo <= 0.0 <= hi
    requires forall t :: 0 <= t < |liked| ==> lo <= gsim(m, liked[t]) <= hi
    ensures lo <= CbScore(gsim, ids, m, liked) <= hi
  {
    var sims := ContentSims(gsim, ids, m, liked);
    if |sims| > 0 {
      assert Min(sims) in sims && Max(sims) in sims;
    }
  }

  /**
   The calling condition of `hybrid_recommend`: `predict_cf` looks `u` up in
   the similarity index for every catalog movie somebody rated, so either `u`
   rated something or no catalog movie was rated at all.
   */
  predicate Servable(ratings: seq<Rating>, catalog: seq<CatalogEntry>, u: int)
  {
    || (exists k :: 0 <= k < |ratings| && ratings[k].userId == u)
    || (forall i, k :: 0 <= i < |catalog| && 0 <= k < |ratings| ==> ratings[k].movieId != catalog[i].movieId)
  }

  /** Every movie of `ms` that is a matrix column can be predicted for `u`. */
  predicate Served(M: RatingMatrix, ms: seq<int>, u: int)
  {
    forall i :: 0 <= i < |ms| && ms[i] in M.movies ==> u in M.users
  }

  /**
   The calling condition is exactly what the predictor needs: on the pivoted
   matrix, `u` is a row for every catalog movie that is a column, if and
   only if `u` rated something or nobody rated a catalog movie.
   */
  lemma ServedIffServable(ratings: seq<Rating>, catalog: seq<CatalogEntry>, u: int)
    requires UniquePairs(ratings)
    ensures Served(BuildMatrix(ratings), CatalogIds(catalog), u) <==> Servable(ratings, catalog, u)
  {
    var M := BuildMatrix(ratings);
    var ids := CatalogIds(catalog);
    if !Servable(ratings, catalog, u) {
      var i, k :| 0 <= i < |catalog| && 0 <= k < |ratings| && ratings[k].movieId == catalog[i].movieId;
      assert ids[i] in M.movies;
      assert u !in M.users;
    }
  }

  /** `predict_cf(u, m)` (default `k`) for every movie `m` of `ms`, in order (line 83). */
  function CfScores(M: RatingMatrix, usim: (int, int) -> real, u: int, ms: seq<int>): (cfs: seq<real>)
    requires M.Valid() && Served(M, ms, u)
    ensures |cfs| == |ms|
    ensures forall i :: 0 <= i < |ms| ==> cfs[i] == Predict(M, usim, u, ms[i], DefaultK)
    ensures forall i :: 0 <= i < |ms| && ms[i] !in M.movies ==> cfs[i] == 0.0
  {
    seq(|ms|, i requires 0 <= i < |ms| => Predict(M, usim, u, ms[i], DefaultK))
  }

  /** With cells in `[0, hi]` and non-negative user similarities, every prediction is in `[0, hi]`. */
  lemma CfScoresWithin(M: RatingMatrix, usim: (int, int) -> real, u: int, ms: seq<int>, hi: real)
    requires M.Valid() && Served(M, ms, u)
    requires 0.0 <= hi
    requires forall a, b :: 0 <= a < |M.users| && 0 <= b < |M.movies| ==> 0.0 <= M.cells[a][b] <= hi
    requires forall v :: v in M.users ==> 0.0 <= usim(v, u)
    ensures forall i :: 0 <= i < |ms| ==> 0.0 <= CfScores(M, usim, u, ms)[i] <= hi
  {
    forall i | 0 <= i < |ms|
      ensures 0.0 <= Predict(M, usim, u, ms[i], DefaultK) <= hi
    {
      PredictWithinScale(M, usim, u, ms[i], DefaultK, hi);
    }
  }

  /** The content score of every movie of `ms`, in order (lines 86-90). */
  function CbScores(gsim: (int, int) -> real, ids: seq<int>, liked: seq<int>, ms: seq<int>): (cbs: seq<real>)
    ensures |cbs| == |ms|
    ensures forall i :: 0 <= i < |ms| ==> cbs[i] == CbScore(gsim, ids, ms[i], liked)
  {
    seq(|ms|, i requires 0 <= i < |ms| => CbScore(gsim, ids, ms[i], liked))
  }

  /** No element of `xs` occurs in `ys`. */
  predicate NoneIn(xs: seq<int>, ys: seq<int>)
  {
    forall t :: 0 <= t < |xs| ==> xs[t] !in ys
  }

  /** When none of the liked movies is in the genre index, every content score is 0. */
  lemma CbScoresWithoutLiked(gsim: (int, int) -> real, ids: seq<int>, liked: seq<int>, ms: seq<int>)
    requires NoneIn(liked, ids)
    ensures CbScores(gsim, ids, liked, ms) == Zeros(|ms|)
  {
  }

  /** `n` zero scores. */
  function Zeros(n: nat): (z: seq<real>)
    ensures |z| == n
    ensures forall i :: 0 <= i < n ==> z[i] == 0.0
  {
    seq(n, i => 0.0)
  }

  /** With genre similarities in `[0, 1]`, every content score is in `[0, 1]`. */
  lemma CbScoresWithin(gsim: (int, int) -> real, ids: seq<int>, liked: seq<int>, ms: seq<int>)
    requires forall a, b :: 0.0 <= gsim(a, b) <= 1.0
    ensures forall i :: 0 <= i < |ms| ==> 0.0 <= CbScores(gsim, ids, liked, ms)[i] <= 1.0
  {
    forall i | 0 <= i < |ms|
      ensures 0.0 <= CbScore(gsim, ids, ms[i], liked) <= 1.0
    {
      SimsWithin(gsim, ms[i], liked);
      CbScoreWithin(gsim, ids, ms[i], liked, 0.0, 1.0);
    }
  }

  /** A bound on every similarity bounds those to the liked movies. */
  lemma SimsWithin(gsim: (int, int) -> real, m: int, liked: seq<int>)
    requires forall a, b :: 0.0 <= gsim(a, b) <= 1.0
    ensures forall t :: 0 <= t < |liked| ==> 0.0 <= gsim(m, liked[t]) <= 1.0
  {
    forall t | 0 <= t < |liked|
      ensures 0.0 <= gsim(m, liked[t]) <= 1.0
    {
      SimAt(gsim, m, liked[t]);
    }
  }

  lemma SimAt(gsim: (int, int) -> real, a: int, b: int)
    requires forall a, b :: 0.0 <= gsim(a, b) <= 1.0
    ensures 0.0 <= gsim(a, b) <= 1.0
  {
  }

  /** Line 93: `final_score = cf_weight * cf_score + cb_weight * cb_score`. */
  function Mix(cf: real, cb: real, cfW: real, cbW: real): real
  {
    cfW * cf + cbW * cb
  }

  /** Line 93 for every catalog row, in catalog order: the title with its blended score. */
  function Blend(catalog: seq<CatalogEntry>, cfs: seq<real>, cbs: seq<real>, cfW: real, cbW: real)
    : (scores: seq<Scored<string>>)
    requires |cfs| == |catalog| && |cbs| == |catalog|
    ensures |scores| == |catalog|
    ensures forall i :: 0 <= i < |catalog| ==>
              scores[i] == Scored(catalog[i].title, Mix(cfs[i], cbs[i], cfW, cbW))
  {
    seq(|catalog|, i requires 0 <= i < |catalog| => Scored(catalog[i].title, Mix(cfs[i], cbs[i], cfW, cbW)))
  }

  /** Where every content score is 0, each row keeps only its collaborative part. */
  lemma BlendWithoutContent(catalog: seq<CatalogEntry>, cfs: seq<real>, cfW: real, cbW: real)
    requires |cfs| == |catalog|
    ensures var scores := Blend(catalog, cfs, Zeros(|catalog|), cfW, cbW);
            forall i :: 0 <= i < |catalog| ==> scores[i] == Scored(catalog[i].title, cfW * cfs[i])
  {
  }

  /** A row with collaborative score 0 keeps only its content part. */
  lemma BlendWithoutCollaborative(catalog: seq<CatalogEntry>, cfs: seq<real>, cbs: seq<real>, cfW: real, cbW: real,
                                  i: int)
    requires |cfs| == |catalog| && |cbs| == |catalog|
    requires 0 <= i < |catalog| && cfs[i] == 0.0
    ensures Blend(catalog, cfs, cbs, cfW, cbW)[i] == Scored(catalog[i].title, cbW * cbs[i])
  {
  }

  /** Non-negative weights blend parts in `[0, hi]` and `[0, 1]` into `[0, cfW * hi + cbW]`. */
  lemma BlendWithin(catalog: seq<CatalogEntry>, cfs: seq<real>, cbs: seq<real>, cfW: real, cbW: real, hi: real)
    requires |cfs| == |catalog| && |cbs| == |catalog|
    requires 0.0 <= cfW && 0.0 <= cbW
    requires forall i :: 0 <= i < |catalog| ==> 0.0 <= cfs[i] <= hi && 0.0 <= cbs[i] <= 1.0
    ensures forall i :: 0 <= i < |catalog| ==>
              0.0 <= Blend(catalog, cfs, cbs, cfW, cbW)[i].score <= cfW * hi + cbW
  {
    forall i | 0 <= i < |catalog|
      ensures 0.0 <= Mix(cfs[i], cbs[i], cfW, cbW) <= cfW * hi + cbW
    {
      MixWithin(cfs[i], cbs[i], cfW, cbW, hi);
    }
  }

  lemma MixWithin(cf: real, cb: real, cfW: real, cbW: real, hi: real)
    requires 0.0 <= cfW && 0.0 <= cbW
    requires 0.0 <= cf <= hi && 0.0 <= cb <= 1.0
    ensures 0.0 <= Mix(cf, cb, cfW, cbW) <= cfW * hi + cbW
  {
    var a, b := cfW * cf, cbW * cb;
    assert 0.0 <= a <= cfW * hi by {
      ScaleBounds(cf, cfW, 0.0, hi);
      assert cf * cfW == a && hi * cfW == cfW * hi;
    }
    assert 0.0 <= b <= cbW by {
      ScaleBounds(cb, cbW, 0.0, 1.0);
      assert cb * cbW == b && 1.0 * cbW == cbW;
    }
  }

  /**
   The loop of lines 79-94 for user `u`: one `(title, score)` entry per
   catalog row, in catalog order, blending the prediction against the
   pivoted matrix with the content score against `u`'s rated movies.
   */
  function Scores(ratings: seq<Rating>, catalog: seq<CatalogEntry>, usim: (int, int) -> real,
                  gsim: (int, int) -> real, u: int, cfW: real, cbW: real): (scores: seq<Scored<string>>)
    requires UniquePairs(ratings)
    requires Servable(ratings, catalog, u)
    ensures Served(BuildMatrix(ratings), CatalogIds(catalog), u)
    ensures |scores| == |catalog|
    ensures forall i :: 0 <= i < |catalog| ==>
              scores[i] == Scored(catalog[i].title,
                                  Mix(Predict(BuildMatrix(ratings), usim, u, catalog[i].movieId, DefaultK),
                                      CbScore(gsim, CatalogIds(catalog), catalog[i].movieId, LikedMovies(ratings, u)),
                                      cfW, cbW))
    ensures var ids := CatalogIds(catalog);
            scores == Blend(catalog, CfScores(BuildMatrix(ratings), usim, u, ids),
                            CbScores(gsim, ids, LikedMovies(ratings, u), ids), cfW, cbW)
  {
    ServedIffServable(ratings, catalog, u);
    var ids := CatalogIds(catalog);
    assert forall i :: 0 <= i < |catalog| ==> ids[i] == catalog[i].movieId;
    Blend(catalog, CfScores(BuildMatrix(ratings), usim, u, ids), CbScores(gsim, ids, LikedMovies(ratings, u), ids), cfW, cbW)
  }

  /**
   `hybrid_recommend(u, top_n, cf_weight, cb_weight)`: the best `top_n`
   scored titles, best first, ties in catalog order.
   */
  function Recommend(ratings: seq<Rating>, catalog: seq<CatalogEntry>, usim: (int, int) -> real,
                     gsim: (int, int) -> real, u: int, topN: int := DefaultTopN,
                     cfW: real := DefaultCfWeight, cbW: real := DefaultCbWeight): (r: seq<Scored<string>>)
    requires UniquePairs(ratings)
    requires Servable(ratings, catalog, u)
    ensures |r| == PrefixLen(|catalog|, topN)
    ensures 0 <= topN ==> |r| == if topN < |catalog| then topN else |catalog|
    ensures SortedDesc(r)
    ensures var scores := Scores(ratings, catalog, usim, gsim, u, cfW, cbW);
            && multiset(r) <= multiset(scores)
            && forall s :: WithScore(r, s) <= WithScore(scores, s)
  {
    TopN(Scores(ratings, catalog, usim, gsim, u, cfW, cbW), topN)
  }

  /**
   `hybrid_recommend` with its failure: `None` exactly when the call raises,
   which is when `u` rated nothing although some catalog movie was rated by
   somebody (the first such movie reaches the similarity lookup).
   */
  function TryRecommend(ratings: seq<Rating>, catalog: seq<CatalogEntry>, usim: (int, int) -> real,
                        gsim: (int, int) -> real, u: int, topN: int := DefaultTopN,
                        cfW: real := DefaultCfWeight, cbW: real := DefaultCbWeight)
    : (r: Option<seq<Scored<string>>>)
    requires UniquePairs(ratings)
    ensures r.None? <==>
              && (forall k :: 0 <= k < |ratings| ==> ratings[k].userId != u)
              && (exists i, k :: 0 <= i < |catalog| && 0 <= k < |ratings| && ratings[k].movieId == catalog[i].movieId)
    ensures r.Some? ==> Servable(ratings, catalog, u)
                        && r.value == Recommend(ratings, catalog, usim, gsim, u, topN, cfW, cbW)
  {
    if Servable(ratings, catalog, u) then Some(Recommend(ratings, catalog, usim, gsim, u, topN, cfW, cbW)) else None
  }

  /**
   The recommendation is a prefix of ANY stable descending sort of the
   scored catalog: whatever sequence is descending and keeps each score
   class in catalog order, its first entries are the ones recommended.
   */
  lemma RecommendIsSortedPrefix(ratings: seq<Rating>, catalog: seq<CatalogEntry>, usim: (int, int) -> real,
                                gsim: (int, int) -> real, u: int, topN: int, cfW: real, cbW: real,
                                sorted: seq<Scored<string>>)
    requires UniquePairs(ratings)
    requires Servable(ratings, catalog, u)
    requires SortedDesc(sorted)
    requires forall s :: WithScore(sorted, s) == WithScore(Scores(ratings, catalog, usim, gsim, u, cfW, cbW), s)
    ensures |sorted| == |catalog|
    ensures Recommend(ratings, catalog, usim, gsim, u, topN, cfW, cbW) == sorted[..PrefixLen(|catalog|, topN)]
  {
    var scores := Scores(ratings, catalog, usim, gsim, u, cfW, cbW);
    StableSortUnique(sorted, StableSortDesc(scores));
  }

  /** No entry the recommendation leaves out scores above an entry it keeps. */
  lemma RecommendKeepsBest(ratings: seq<Rating>, catalog: seq<CatalogEntry>, usim: (int, int) -> real,
                           gsim: (int, int) -> real, u: int, topN: int, cfW: real, cbW: real, x: Scored<string>)
    requires UniquePairs(ratings)
    requires Servable(ratings, catalog, u)
    requires x in multiset(Scores(ratings, catalog, usim, gsim, u, cfW, cbW))
                  - multiset(Recommend(ratings, catalog, usim, gsim, u, topN, cfW, cbW))
    ensures var r := Recommend(ratings, catalog, usim, gsim, u, topN, cfW, cbW);
            forall i :: 0 <= i < |r| ==> x.score <= r[i].score
  {
    TopNKeepsBest(Scores(ratings, catalog, usim, gsim, u, cfW, cbW), topN, x);
  }

  /**
   When `u` rated no catalog movie (in particular when `u` rated nothing),
   every score is `cf_weight` times the movie's prediction.
   */
  lemma ScoresWithoutContent(ratings: seq<Rating>, catalog: seq<CatalogEntry>, usim: (int, int) -> real,
                             gsim: (int, int) -> real, u: int, cfW: real, cbW: real)
    requires UniquePairs(ratings)
    requires Servable(ratings, catalog, u)
    requires forall k, c :: 0 <= k < |ratings| && 0 <= c < |catalog| && ratings[k].userId == u ==>
               ratings[k].movieId != catalog[c].movieId
    ensures Scores(ratings, catalog, usim, gsim, u, cfW, cbW)
            == Blend(catalog, CfScores(BuildMatrix(ratings), usim, u, CatalogIds(catalog)), Zeros(|catalog|), cfW, cbW)
  {
    LikedOutsideCatalog(ratings, catalog, u);
    CbScoresWithoutLiked(gsim, CatalogIds(catalog), LikedMovies(ratings, u), CatalogIds(catalog));
  }


  /** When `u` rated no catalog movie, none of `u`'s liked movies is in the genre index. */
  lemma LikedOutsideCatalog(ratings: seq<Rating>, catalog: seq<CatalogEntry>, u: int)
    requires forall k, c :: 0 <= k < |ratings| && 0 <= c < |catalog| && ratings[k].userId == u ==>
               ratings[k].movieId != catalog[c].movieId
    ensures NoneIn(LikedMovies(ratings, u), CatalogIds(catalog))
  {
    var ids := CatalogIds(catalog);
    var liked := LikedMovies(ratings, u);
    forall t | 0 <= t < |liked|
      ensures liked[t] !in ids
    {
      assert liked[t] in liked;
      var k :| 0 <= k < |ratings| && ratings[k].userId == u && ratings[k].movieId == liked[t];
      forall c | 0 <= c < |ids|
        ensures ids[c] != liked[t]
      {
        assert ratings[k].movieId != catalog[c].movieId;
      }
    }
  }

  /** A catalog movie nobody rated is not a matrix column, so its prediction is 0. */
  lemma UnratedMovieHasNoPrediction(ratings: seq<Rating>, catalog: seq<CatalogEntry>, usim: (int, int) -> real,
                                    u: int, i: int)
    requires UniquePairs(ratings)
    requires Servable(ratings, catalog, u)
    requires 0 <= i < |catalog|
    requires forall k :: 0 <= k < |ratings| ==> ratings[k].movieId != catalog[i].movieId
    ensures Served(BuildMatrix(ratings), CatalogIds(catalog), u)
    ensures CfScores(BuildMatrix(ratings), usim, u, CatalogIds(catalog))[i] == 0.0
  {
    ServedIffServable(ratings, catalog, u);
    assert CatalogIds(catalog)[i] !in BuildMatrix(ratings).movies;
  }


  /**
   With non-negative blend weights, ratings in `[0, hi]`, non-negative user
   similarities and genre similarities in `[0, 1]` (as cosine similarity of
   0/1 vectors gives), every score lies in `[0, cf_weight * hi + cb_weight]`.
   */
  lemma ScoreBounds(ratings: seq<Rating>, catalog: seq<CatalogEntry>, usim: (int, int) -> real,
                    gsim: (int, int) -> real, u: int, cfW: real, cbW: real, hi: real)
    requires UniquePairs(ratings)
    requires Servable(ratings, catalog, u)
    requires 0.0 <= cfW && 0.0 <= cbW && 0.0 <= hi
    requires forall k :: 0 <= k < |ratings| ==> 0.0 <= ratings[k].rating <= hi
    requires forall a, b :: 0.0 <= usim(a, b)
    requires forall a, b :: 0.0 <= gsim(a, b) <= 1.0
    ensures var scores := Scores(ratings, catalog, usim, gsim, u, cfW, cbW);
            forall i :: 0 <= i < |scores| ==> 0.0 <= scores[i].score <= cfW * hi + cbW
  {
    var M := BuildMatrix(ratings);
    var ids := CatalogIds(catalog);
    var liked := LikedMovies(ratings, u);
    CellsWithin(ratings, hi);
    forall v | v in M.users
      ensures 0.0 <= usim(v, u)
    {
      UserSimAt(usim, v, u);
    }
    CfScoresWithin(M, usim, u, ids, hi);
    CbScoresWithin(gsim, ids, liked, ids);
    BlendWithin(catalog, CfScores(M, usim, u, ids), CbScores(gsim, ids, liked, ids), cfW, cbW, hi);
  }

  lemma UserSimAt(usim: (int, int) -> real, a: int, b: int)
    requires forall a, b :: 0.0 <= usim(a, b)
    ensures 0.0 <= usim(a, b)
  {
  }

  /** Every cell of the pivoted matrix lies between 0 and the largest rating. */
  lemma CellsWithin(ratings: seq<Rating>, hi: real)
    requires UniquePairs(ratings)
    requires 0.0 <= hi
    requires forall k :: 0 <= k < |ratings| ==> 0.0 <= ratings[k].rating <= hi
    ensures var M := BuildMatrix(ratings);
            forall i, j :: 0 <= i < |M.users| && 0 <= j < |M.movies| ==> 0.0 <= M.cells[i][j] <= hi
  {
    var M := BuildMatrix(ratings);
    forall i, j | 0 <= i < |M.users| && 0 <= j < |M.movies|
      ensures 0.0 <= M.cells[i][j] <= hi
    {
      if k :| 0 <= k < |ratings| && ratings[k].userId == M.users[i] && ratings[k].movieId == M.movies[j] {
      } else {
      }
    }
  }

  /**
   A user who rated nothing (and may be served, so nobody rated any catalog
   movie) scores every movie 0, and is recommended the first `top_n`
   catalog titles in catalog order.
   */
  lemma ColdStartRecommendsCatalogOrder(ratings: seq<Rating>, catalog: seq<CatalogEntry>,
                                        usim: (int, int) -> real, gsim: (int, int) -> real,
                                        u: int, topN: int, cfW: real, cbW: real)
    requires UniquePairs(ratings)
    requires Servable(ratings, catalog, u)
    requires forall k :: 0 <= k < |ratings| ==> ratings[k].userId != u
    ensures var r := Recommend(ratings, catalog, usim, gsim, u, topN, cfW, cbW);
            forall i :: 0 <= i < |r| ==> r[i] == Scored(catalog[i].title, 0.0)
  {
    var scores := Scores(ratings, catalog, usim, gsim, u, cfW, cbW);
    var M := BuildMatrix(ratings);
    var ids := CatalogIds(catalog);
    var liked := LikedMovies(ratings, u);
    assert liked == [] by {
      NoMemberMeansEmpty(liked);
    }
    var cfs := CfScores(M, usim, u, ids);
    var cbs := CbScores(gsim, ids, liked, ids);
    forall i | 0 <= i < |catalog|
      ensures scores[i] == Scored(catalog[i].title, 0.0)
    {
      assert ids[i] !in M.movies;
      ZeroBlend(catalog, cfs, cbs, cfW, cbW, i);
    }
    assert SortedDesc(scores);
    RecommendIsSortedPrefix(ratings, catalog, usim, gsim, u, topN, cfW, cbW, scores);
  }

  /** A row whose both parts are 0 scores 0. */
  lemma ZeroBlend(catalog: seq<CatalogEntry>, cfs: seq<real>, cbs: seq<real>, cfW: real, cbW: real, i: int)
    requires |cfs| == |catalog| && |cbs| == |catalog|
    requires 0 <= i < |catalog| && cfs[i] == 0.0 && cbs[i] == 0.0
    ensures Blend(catalog, cfs, cbs, cfW, cbW)[i] == Scored(catalog[i].title, 0.0)
  {
  }
}

# Hybrid movie recommender, modelled in Dafny

This project models the core of `scripts/movie_recommender.py`. That
script is a batch movie recommender that blends two scores:

- a user-based collaborative prediction over the user x movie rating matrix;
- a content score from genre similarity to the movies the user has rated.

The modelled pipeline, in the program's own terms:

1. **Preprocessing** (lines 24-29, module `Catalog`).
   - The `genres` column is one-hot encoded with `get_dummies(sep='|')`.
   - The tags are grouped by movie and joined with spaces.
   - The tags are left-merged onto the movie rows.
2. **Rating matrix** (line 35, module `Ratings`). `pivot(...).fillna(0)`
   turns the rating records into a dense matrix.
   - Rows are the distinct userIds and columns the distinct movieIds, both ascending.
   - A cell holds the record's rating, or 0 where there is none.
3. **`predict_cf`** (lines 41-60, module `Collaborative`). The paths are:
   - 0 for a movie nobody rated;
   - the mean of the whole zero-filled column when no other user rated the movie;
   - otherwise, from the qualifying raters in matrix row order, the first `k`:
     - their similarity-weighted average;
     - or the plain mean over all qualifying raters when those `k` weights sum to 0.
4. **`hybrid_recommend`** (lines 72-100, modules `Hybrid` and `Ranking`).
   - Every catalog movie is scored `cf_weight * cf + cb_weight * cb`.
   - The `(title, score)` list is stably sorted by score, descending.
   - It is then cut to `top_n` with Python slice rules.

Supporting modules:

- `Stats`: sums, means, dot products and the Python prefix-slice length, in exact `real` arithmetic.
- `Order`: sorted, duplicate-free listings under a strict total order. These are pandas' axis and vocabulary order.
- `Text`: `str.split` / `" ".join` for one separator character.
- `Wrappers`: the `Option` type, used both for NaN and for calls that raise.

The two similarity matrices are parameters: `usim(v, u)` stands for
`user_sim_df.loc[v, u]` and `gsim(a, b)` for `genre_sim_df.loc[a, b]`.
Properties that depend on their values say what they assume; examples are
non-negative user similarities and genre similarities in `[0, 1]`.

Behaviour of the code that the model keeps, and that a reader might not expect:

- Neighbour choice ignores similarity. `predict_cf` keeps the first `k` qualifying raters in
  row order, not the `k` most similar ones, despite its comment. `Collaborative.FirstRatersNotMostSimilar`
  gives a three-user example.
- The no-rater fallback is not the movie's average rating. It is the mean of the zero-filled
  column, so it equals the movie's total recorded rating divided by the number of users in the matrix
  (`Collaborative.PredictWithoutOtherRaters`).
- A movie nobody rated predicts 0 for every user, even one who is not in the matrix.
  The similarity lookup for the user happens only after that check.

Further points where the code's behaviour is easy to misread:

- **Duplicate (user, movie) records.** `pivot` (line 35) raises on a repeated (userId, movieId)
  pair; it does not keep the last rating. `Ratings.TryBuildMatrix` models the raise, and every
  operation on the matrix requires `UniquePairs`.
- **Zero-weight fallback.** When the selected weights sum to 0, line 58 returns
  `rated_users.mean()`, the mean over *all* qualifying raters, not only over the first `k`
  (`Collaborative.PredictZeroWeightFallback`).
- **Weights.** Line 46 reads the column `user_sim_df[user_id]`, so the weight of neighbour `v`
  is `usim(v, u)`. This equals the row entry `usim(u, v)` when the matrix is symmetric, as cosine
  similarity is.
- **Unknown user.** A user who is not a row of the matrix makes line 46 raise `KeyError`, but
  only for a movie somebody rated, because an unrated movie returns at line 44 before the lookup.
  So `hybrid_recommend` raises exactly when some catalog movie has been rated, and
  `Hybrid.TryRecommend` returns `None` in exactly those cases. Otherwise an unknown user gets
  every movie scored 0, in catalog order.

## Model

| member | source | states |
|---|---|---|
| `Text.JoinSplit` | scripts/movie_recommender.py:25 | splitting a genre string on its separator and joining the pieces back gives the string again |
| `Text.SplitJoin` | scripts/movie_recommender.py:28 | joining pieces that contain no separator and splitting the result gives the pieces back |
| `Order.SortedDistinct` | scripts/movie_recommender.py:35 | the axis labels are ascending without repeats and are exactly the keys that occur |
| `Order.SortedListingUnique` | scripts/movie_recommender.py:35 | two strictly ascending listings of the same keys are equal, so the axis order is determined by the keys alone |
| `Catalog.Vocabulary` | scripts/movie_recommender.py:25 | the one-hot columns are every genre label in the catalog, once each, in Python string order, and nothing else |
| `Catalog.GenreMatrix` | scripts/movie_recommender.py:25 | one row per movie; a row has 1 exactly in the columns of that movie's labels, and decoding it gives back the movie's label set |
| `Catalog.DecodeVector` | scripts/movie_recommender.py:25 | decoding a movie's one-hot row recovers its labels whenever the vocabulary covers them |
| `Catalog.TagsFor` | scripts/movie_recommender.py:28 | a movie's tags come from its own records, and the list is empty exactly when it has none |
| `Catalog.TagsForConcat` | scripts/movie_recommender.py:28 | collecting tags keeps record order: the tags of concatenated records are the concatenated tags |
| `Catalog.AggregateTags` | scripts/movie_recommender.py:28 | the aggregated text is missing exactly when the movie has no tag, and is otherwise the tags joined with spaces |
| `Catalog.AggregateTagsRoundTrip` | scripts/movie_recommender.py:28 | when no tag contains a space, splitting the aggregated text on spaces gives back the movie's tags in order |
| `Catalog.Preprocess` | scripts/movie_recommender.py:29 | the left merge keeps every movie row in order, with its own id, title and genres, and with tags exactly when it has some |
| `Ratings.UserIds` | scripts/movie_recommender.py:35 | the row labels are ascending and are exactly the userIds that occur in the records |
| `Ratings.MovieIds` | scripts/movie_recommender.py:35 | the column labels are ascending and are exactly the movieIds that occur in the records |
| `Ratings.BuildMatrix` | scripts/movie_recommender.py:35 | the matrix is rectangular over those axes; the cell of a record's (user, movie) holds its rating and every other cell is 0 |
| `Ratings.TryBuildMatrix` | scripts/movie_recommender.py:35 | the pivot fails exactly when some (userId, movieId) pair repeats, and otherwise gives the matrix above |
| `Ratings.ColumnSumIsRatingMass` | scripts/movie_recommender.py:35 | a column of the zero-filled matrix sums to the total of the ratings recorded for its movie |
| `Collaborative.Raters` | scripts/movie_recommender.py:46-48 | the qualifying raters are exactly the other users with a positive cell, in ascending row order |
| `Collaborative.Neighbours` | scripts/movie_recommender.py:54 | the neighbours are qualifying raters, exactly as many as the Python slice `[:k]` keeps (at most `k`, all of them when fewer qualify), and a down-closed prefix in row order |
| `Stats.PrefixLen` | scripts/movie_recommender.py:54 | the length of `xs[:k]` follows Python slicing: `k` clamped to the length, and a negative `k` counts from the end |
| `Collaborative.Predict` | scripts/movie_recommender.py:43-44 | a movie that is not a column predicts 0, whoever the user is |
| `Collaborative.TryPredict` | scripts/movie_recommender.py:41-46 | the prediction fails exactly for a rated movie and a user who is not a row, and otherwise is `Predict` |
| `Collaborative.PredictWithoutOtherRaters` | scripts/movie_recommender.py:50-51 | with no other positive rater, the prediction is the movie's total recorded rating divided by the number of users |
| `Collaborative.PredictZeroWeightFallback` | scripts/movie_recommender.py:57-58 | when the selected weights sum to 0, the prediction is the mean over all qualifying raters, positive and at most their largest rating |
| `Collaborative.PredictWeighted` | scripts/movie_recommender.py:55-60 | with a non-zero weight sum, the prediction is the weighted average of the selected ratings; when the similarities are also non-negative it lies between their min and max |
| `Collaborative.PredictWithinScale` | scripts/movie_recommender.py:41-60 | with cells in `[0, hi]` and non-negative similarities, every path of the prediction stays in `[0, hi]` |
| `Collaborative.FirstRatersNotMostSimilar` | scripts/movie_recommender.py:53-55 | on a concrete matrix the neighbour taken is the first rater in row order, although another rater is more similar |
| `Stats.WeightedAverageWithin` | scripts/movie_recommender.py:60 | a non-negatively weighted average of values in `[lo, hi]` is in `[lo, hi]` |
| `Hybrid.LikedMovies` | scripts/movie_recommender.py:74-75 | the liked list holds exactly the movies the user has a record for |
| `Hybrid.LikedMoviesConcat` | scripts/movie_recommender.py:74-75 | the liked list has one entry per record of the user, in record order: collecting distributes over concatenated records |
| `Hybrid.ContentSims` | scripts/movie_recommender.py:87 | the similarities are taken only for liked movies in the genre index, and the list is empty exactly when none is there |
| `Hybrid.ContentSimsConcat` | scripts/movie_recommender.py:87 | one similarity per liked movie in the genre index, in liked order: collecting distributes over concatenated liked lists |
| `Hybrid.CbScore` | scripts/movie_recommender.py:86-90 | the content score is 0 when no liked movie is in the genre index, and otherwise is the mean of the similarities to those movies, so it lies between the smallest and largest of them |
| `Hybrid.CbScoreWithin` | scripts/movie_recommender.py:86-90 | similarities in a range around 0 keep the content score in that range |
| `Hybrid.ServedIffServable` | scripts/movie_recommender.py:43-46 | every rated catalog movie finds the user in the matrix exactly when the user rated something or no catalog movie was rated |
| `Hybrid.CfScores` | scripts/movie_recommender.py:83 | one prediction per catalog movie, in catalog order; a movie nobody rated gets 0 |
| `Hybrid.CfScoresWithin` | scripts/movie_recommender.py:83 | with cells in `[0, hi]` and non-negative similarities, every collaborative score is in `[0, hi]` |
| `Hybrid.CbScores` | scripts/movie_recommender.py:86-90 | one content score per catalog movie, in catalog order, each the content score of that movie against the same liked list |
| `Hybrid.CbScoresWithin` | scripts/movie_recommender.py:86-90 | with genre similarities in `[0, 1]`, every content score is in `[0, 1]` |
| `Hybrid.LikedOutsideCatalog` | scripts/movie_recommender.py:86-87 | when the user rated no catalog movie, none of the liked movies is in the genre index |
| `Hybrid.Blend` | scripts/movie_recommender.py:93-94 | one entry per catalog movie, in catalog order: its title with `cf_weight * cf + cb_weight * cb` of that movie's two parts |
| `Hybrid.BlendWithoutContent` | scripts/movie_recommender.py:93 | with every content score 0, each movie scores `cf_weight` times its prediction |
| `Hybrid.BlendWithoutCollaborative` | scripts/movie_recommender.py:93 | a movie whose prediction is 0 scores `cb_weight` times its content score |
| `Hybrid.BlendWithin` | scripts/movie_recommender.py:93 | non-negative weights blend parts in `[0, hi]` and `[0, 1]` into `[0, cf_weight * hi + cb_weight]` |
| `Hybrid.Scores` | scripts/movie_recommender.py:79-94 | one entry per catalog movie, in catalog order: its title with `cf_weight` times `predict_cf(u, m)` (k = 5) plus `cb_weight` times the movie's content score against the user's records; the user lookup succeeds for every rated catalog movie |
| `Hybrid.ScoresWithoutContent` | scripts/movie_recommender.py:79-94 | when the user rated no catalog movie, the scores are the blend with every content score 0 |
| `Hybrid.UnratedMovieHasNoPrediction` | scripts/movie_recommender.py:83 | a catalog movie nobody rated has collaborative score 0 |
| `Hybrid.ScoreBounds` | scripts/movie_recommender.py:79-94 | with ratings in `[0, hi]`, non-negative weights and similarities, and genre similarities in `[0, 1]`, every score is in `[0, cf_weight * hi + cb_weight]` |
| `Ranking.InsertDesc` | scripts/movie_recommender.py:97 | inserting into a descending list keeps it descending and adds exactly one entry |
| `Ranking.StableSortDesc` | scripts/movie_recommender.py:97 | the sort is descending, is a permutation of its input, and keeps each score class in input order |
| `Ranking.StableSortUnique` | scripts/movie_recommender.py:97 | two descending lists whose score classes agree are equal, so every stable sort gives this ranking |
| `Ranking.TopN` | scripts/movie_recommender.py:97-100 | the result has the slice length, is descending, is a sub-multiset of the input, and cuts each score class to a prefix |
| `Ranking.TopNKeepsBest` | scripts/movie_recommender.py:97-100 | no entry left out scores above an entry kept |
| `Hybrid.Recommend` | scripts/movie_recommender.py:72-100 | the recommendation has `top_n` entries (Python slice rules), best first, drawn from the scored catalog with each score class cut to a prefix |
| `Hybrid.TryRecommend` | scripts/movie_recommender.py:72-100 | the call fails exactly when the user rated nothing while some catalog movie was rated, and otherwise gives `Recommend` |
| `Hybrid.RecommendIsSortedPrefix` | scripts/movie_recommender.py:96-100 | the recommendation is the first `top_n` entries of every stable descending sort of the scored catalog |
| `Hybrid.RecommendKeepsBest` | scripts/movie_recommender.py:96-100 | no scored movie left out of the recommendation scores above one that is in it |
| `Hybrid.ColdStartRecommendsCatalogOrder` | scripts/movie_recommender.py:72-100 | a servable user with no ratings is recommended the first catalog titles in catalog order, each scored 0 |
| `Hybrid.CellsWithin` | scripts/movie_recommender.py:35 | with every rating in `[0, hi]`, every cell of the zero-filled matrix is in `[0, hi]` |

## Left out

- Loading the three CSV files, the interactive prompt and the printed table (lines 14-19 and 105-111): these are I/O. The model starts from sequences of records.
- `cosine_similarity` (lines 38 and 66): floating-point linear algebra. Both similarity matrices are parameters. The properties that depend on them state their assumptions, such as non-negative user similarities and genre similarities in `[0, 1]`.
- Floating point: every number is an exact `real`. There is no rounding, no NaN from an empty `mean()` and no `inf`. The comparisons `> 0` and `== 0` are exact.
- Repeated movieIds in movies.csv: `genre_sim_df.loc[m, mid]` then returns a block instead of a number. The model reads one value per id pair.
- pandas index alignment in general: each lookup is modelled by the id-to-position correspondence it performs.
- Hybrid.Recommend: the user must be servable. The raising call is modelled separately by `Hybrid.TryRecommend`.
- Collaborative.Predict: a rated movie requires a known user. The raising call is modelled separately by `Collaborative.TryPredict`.
- Ratings.BuildMatrix: requires unique (user, movie) pairs. The raising pivot is modelled separately by `Ratings.TryBuildMatrix`.
- Catalog.AggregateTags: a tag is always a string. A missing (NaN) or non-string `tag` cell makes `" ".join` at line 28 raise `TypeError`; `Tag.tag` cannot represent such a cell.

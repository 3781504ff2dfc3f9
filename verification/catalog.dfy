/**
 Catalog preprocessing (scripts/movie_recommender.py, lines 24-29): the
 one-hot genre table `movies['genres'].str.get_dummies(sep='|')` and the
 per-movie tag text, left-merged onto the movie rows.
 */
module Catalog {
  import opened Wrappers
  import opened Order
  import opened Text

  /** A row of movies.csv. */
  datatype Movie = Movie(movieId: int, title: string, genres: string)

  /** A row of tags.csv. */
  datatype Tag = Tag(userId: int, movieId: int, tag: string, timestamp: int)

  /** A movie row after the tag merge; `tags` is `None` where pandas leaves NaN. */
  datatype CatalogEntry = CatalogEntry(movieId: int, title: string, genres: string, tags: Option<string>)

  const GenreSep: char := '|'
  const TagSep: char := ' '

  // ---------------------------------------------------------------------------
  // Genre one-hot encoding (line 25)
  // ---------------------------------------------------------------------------

  /** The genre labels of one genre string: its non-empty `|`-separated pieces. */
  function Labels(genres: string): set<string>
  {
    set p | p in Split(genres, GenreSep) && p != ""
  }

  /** The non-empty pieces, in order. */
  function NonEmptyPieces(pieces: seq<string>): (r: seq<string>)
    ensures forall x :: x in r <==> x in pieces && x != ""
  {
    if |pieces| == 0 then []
    else
      var last := pieces[|pieces| - 1];
      NonEmptyPieces(pieces[..|pieces| - 1]) + (if last == "" then [] else [last])
  }

  /** Every label of every movie, with repetitions, in catalog order. */
  function AllLabels(movies: seq<Movie>): (r: seq<string>)
    ensures forall x :: x in r <==> exists i :: 0 <= i < |movies| && x in Labels(movies[i].genres)
  {
    if |movies| == 0 then []
    else
      var n := |movies| - 1;
      var r := AllLabels(movies[..n]) + NonEmptyPieces(Split(movies[n].genres, GenreSep));
      assert forall i :: 0 <= i < n ==> movies[..n][i] == movies[i];
      r
  }

  /**
   The column labels of the one-hot table: every genre label that occurs in
   the catalog, once each, in Python string order.
   */
  function Vocabulary(movies: seq<Movie>): (vocab: seq<string>)
    ensures StrictlySorted(StrLess, vocab)
    ensures forall i, x :: 0 <= i < |movies| && x in Labels(movies[i].genres) ==> x in vocab
    ensures forall x :: x in vocab ==> exists i :: 0 <= i < |movies| && x in Labels(movies[i].genres)
  {
    StrLessIsStrictTotalOrder();
    SortedDistinct(StrLess, AllLabels(movies))
  }

  /** One movie's row of the one-hot table against a vocabulary. */
  function GenreVector(vocab: seq<string>, genres: string): (v: seq<int>)
    ensures |v| == |vocab|
    ensures forall j :: 0 <= j < |v| ==> v[j] == 0 || v[j] == 1
  {
    seq(|vocab|, j requires 0 <= j < |vocab| => if vocab[j] in Labels(genres) then 1 else 0)
  }

  /** The labels a one-hot row switches on. */
  function Decode(vocab: seq<string>, v: seq<int>): set<string>
    requires |v| == |vocab|
  {
    set j | 0 <= j < |v| && v[j] == 1 :: vocab[j]
  }

  /**
   The one-hot genre table: one row per movie, one column per vocabulary
   label. A row has a 1 exactly in the columns of the movie's own labels, so
   decoding it gives back the movie's label set.
   */
  function GenreMatrix(movies: seq<Movie>): (rows: seq<seq<int>>)
    ensures |rows| == |movies|
    ensures forall i :: 0 <= i < |movies| ==> |rows[i]| == |Vocabulary(movies)|
    ensures forall i, j :: 0 <= i < |movies| && 0 <= j < |rows[i]| ==>
              (rows[i][j] == 1 <==> Vocabulary(movies)[j] in Labels(movies[i].genres))
    ensures forall i :: 0 <= i < |movies| ==>
              Decode(Vocabulary(movies), rows[i]) == Labels(movies[i].genres)
  {
    var vocab := Vocabulary(movies);
    var rows := seq(|movies|, i requires 0 <= i < |movies| => GenreVector(vocab, movies[i].genres));
    assert forall i :: 0 <= i < |movies| ==> Decode(vocab, rows[i]) == Labels(movies[i].genres) by {
      forall i | 0 <= i < |movies|
        ensures Decode(vocab, rows[i]) == Labels(movies[i].genres)
      {
        DecodeVector(vocab, movies[i].genres);
      }
    }
    rows
  }

  /** Decoding a movie's row recovers its labels whenever the vocabulary covers them. */
  lemma DecodeVector(vocab: seq<string>, genres: string)
    requires forall x :: x in Labels(genres) ==> x in vocab
    ensures Decode(vocab, GenreVector(vocab, genres)) == Labels(genres)
  {
    var v := GenreVector(vocab, genres);
    forall x | x in Labels(genres)
      ensures x in Decode(vocab, v)
    {
      var j :| 0 <= j < |vocab| && vocab[j] == x;
      assert v[j] == 1;
    }
  }

  // ---------------------------------------------------------------------------
  // Tag aggregation and left merge (lines 28-29)
  // ---------------------------------------------------------------------------

  /** The tag strings attached to movie `m`, in record order. */
  function TagsFor(tags: seq<Tag>, m: int): (r: seq<string>)
    ensures |r| <= |tags|
    ensures |r| == 0 <==> forall k :: 0 <= k < |tags| ==> tags[k].movieId != m
    ensures forall x :: x in r ==> exists k :: 0 <= k < |tags| && tags[k].movieId == m && tags[k].tag == x
  {
    if |tags| == 0 then []
    else
      var n := |tags| - 1;
      var r := TagsFor(tags[..n], m) + (if tags[n].movieId == m then [tags[n].tag] else []);
      assert forall k :: 0 <= k < n ==> tags[..n][k] == tags[k];
      r
  }

  /** Collecting tags distributes over concatenated record streams: record order is kept. */
  lemma {:induction false} TagsForConcat(a: seq<Tag>, b: seq<Tag>, m: int)
    ensures TagsFor(a + b, m) == TagsFor(a, m) + TagsFor(b, m)
    decreases |b|
  {
    if |b| == 0 {
      assert a + b == a;
    } else {
      var n := |b| - 1;
      assert (a + b)[..|a + b| - 1] == a + b[..n];
      TagsForConcat(a, b[..n], m);
    }
  }

  /** `tags.groupby('movieId')['tag'].apply(" ".join)` looked up for movie `m`. */
  function AggregateTags(tags: seq<Tag>, m: int): (r: Option<string>)
    ensures r.None? <==> forall k :: 0 <= k < |tags| ==> tags[k].movieId != m
    ensures r.Some? ==> r.value == Join(TagsFor(tags, m), TagSep)
  {
    var ts := TagsFor(tags, m);
    if |ts| == 0 then None else Some(Join(ts, TagSep))
  }

  /** When no tag contains a space, splitting the joined text on spaces recovers the tags. */
  lemma AggregateTagsRoundTrip(tags: seq<Tag>, m: int)
    requires forall k :: 0 <= k < |tags| ==> TagSep !in tags[k].tag
    requires AggregateTags(tags, m).Some?
    ensures Split(AggregateTags(tags, m).value, TagSep) == TagsFor(tags, m)
  {
    var ts := TagsFor(tags, m);
    forall i | 0 <= i < |ts|
      ensures TagSep !in ts[i]
    {
      assert ts[i] in ts;
    }
    SplitJoin(ts, TagSep);
  }

  /**
   `movies.merge(tags_agg, on='movieId', how='left')`: every movie row kept,
   in order, with its aggregated tags or a missing value.
   */
  function Preprocess(movies: seq<Movie>, tags: seq<Tag>): (catalog: seq<CatalogEntry>)
    ensures |catalog| == |movies|
    ensures forall i :: 0 <= i < |movies| ==>
              && catalog[i].movieId == movies[i].movieId
              && catalog[i].title == movies[i].title
              && catalog[i].genres == movies[i].genres
    ensures forall i :: 0 <= i < |movies| ==>
              (catalog[i].tags.None? <==> forall k :: 0 <= k < |tags| ==> tags[k].movieId != movies[i].movieId)
    ensures forall i :: 0 <= i < |movies| && catalog[i].tags.Some? ==>
              catalog[i].tags.value == Join(TagsFor(tags, movies[i].movieId), TagSep)
  {
    seq(|movies|, i requires 0 <= i < |movies| =>
      CatalogEntry(movies[i].movieId, movies[i].title, movies[i].genres,
                   AggregateTags(tags, movies[i].movieId)))
  }
}

/**
 Ranking of scored titles (scripts/movie_recommender.py, lines 96-100):
 `scores.sort(key=lambda x: x[1], reverse=True)` followed by `scores[:top_n]`.
 Python's sort is stable, and `reverse=True` keeps equal keys in their
 original order, so the result is the unique stable descending sort.
 */
module Ranking {
  import opened Stats

  /**
   One `(title, final_score)` tuple. The title type is a parameter: ranking
   only compares scores and never looks inside a title.
   */
  datatype Scored<T> = Scored(title: T, score: real)

  /** `[x]` when `x` scores exactly `s`, else nothing. */
  function Own<T>(x: Scored<T>, s: real): seq<Scored<T>>
  {
    if x.score == s then [x] else []
  }

  /** Scores never increase along the sequence. */
  predicate SortedDesc<T>(xs: seq<Scored<T>>)
  {
    forall i, j :: 0 <= i < j < |xs| ==> xs[i].score >= xs[j].score
  }

  /** The entries whose score is exactly `s`, in their order in `xs`. */
  function WithScore<T>(xs: seq<Scored<T>>, s: real): seq<Scored<T>>
  {
    if |xs| == 0 then []
    else Own(xs[0], s) + WithScore(xs[1..], s)
  }

  /** Score classes of `[x] + rest`: `x` goes to the front of its own class only. */
  lemma WithScoreCons<T>(x: Scored<T>, rest: seq<Scored<T>>, s: real)
    ensures WithScore([x] + rest, s) == Own(x, s) + WithScore(rest, s)
  {
    assert ([x] + rest)[1..] == rest;
  }

  lemma {:induction false} WithScoreConcat<T>(a: seq<Scored<T>>, b: seq<Scored<T>>, s: real)
    ensures WithScore(a + b, s) == WithScore(a, s) + WithScore(b, s)
  {
    if |a| == 0 {
      assert a + b == b;
    } else {
      assert (a + b)[1..] == a[1..] + b;
      assert (a + b)[0] == a[0];
      WithScoreConcat(a[1..], b, s);
      var c := Own(a[0], s);
      assert WithScore(a + b, s) == c + (WithScore(a[1..], s) + WithScore(b, s));
      assert c + (WithScore(a[1..], s) + WithScore(b, s)) == (c + WithScore(a[1..], s)) + WithScore(b, s);
    }
  }

  /** Members of a score class are members of the sequence with that score. */
  lemma {:induction false} WithScoreMember<T>(xs: seq<Scored<T>>, s: real, y: Scored<T>)
    requires y in WithScore(xs, s)
    ensures y in xs && y.score == s
  {
    if y != xs[0] || xs[0].score != s {
      WithScoreMember(xs[1..], s, y);
    }
  }

  /** A sequence with no entry of any score is empty. */
  lemma EmptyByScores<T>(xs: seq<Scored<T>>)
    requires forall s :: WithScore(xs, s) == []
    ensures xs == []
  {
    if |xs| > 0 {
      ClassHead(xs);
      assert false;
    }
  }

  /**
   Inserts `x` into a descending sequence after every entry scoring at least
   as much as `x`: the step of a stable insertion sort.
   */
  function InsertDesc<T>(xs: seq<Scored<T>>, x: Scored<T>): (r: seq<Scored<T>>)
    requires SortedDesc(xs)
    ensures |r| == |xs| + 1
    ensures r[0] == x || (|xs| > 0 && r[0] == xs[0])
    ensures SortedDesc(r)
    ensures multiset(r) == multiset(xs) + multiset{x}
  {
    if |xs| == 0 then [x]
    else if xs[0].score >= x.score then
      var rest := InsertDesc(xs[1..], x);
      assert xs == [xs[0]] + xs[1..];
      ConsDesc(xs[0], rest);
      [xs[0]] + rest
    else
      ConsDesc(x, xs);
      [x] + xs
  }

  /** An entry scoring at least the head of a descending sequence can go in front of it. */
  lemma ConsDesc<T>(h: Scored<T>, rest: seq<Scored<T>>)
    requires SortedDesc(rest)
    requires |rest| > 0 ==> rest[0].score <= h.score
    ensures SortedDesc([h] + rest)
  {
    var r := [h] + rest;
    forall i, j | 0 <= i < j < |r|
      ensures r[i].score >= r[j].score
    {
      assert r[j] == rest[j - 1];
      if i > 0 {
        assert r[i] == rest[i - 1];
      }
    }
  }

  /** Inserting `x` appends it to its own score class and leaves the others alone. */
  lemma {:induction false} InsertDescWithScore<T>(xs: seq<Scored<T>>, x: Scored<T>, s: real)
    requires SortedDesc(xs)
    ensures WithScore(InsertDesc(xs, x), s) == WithScore(xs, s) + Own(x, s)
  {
    if |xs| == 0 {
      assert InsertDesc(xs, x) == [x] + xs;
      ClassOfFront(x, xs, s);
    } else if xs[0].score >= x.score {
      var rest := InsertDesc(xs[1..], x);
      assert InsertDesc(xs, x) == [xs[0]] + rest;
      InsertDescWithScore(xs[1..], x, s);
      ClassAfterHead(xs[0], xs[1..], rest, Own(x, s), s);
      assert [xs[0]] + xs[1..] == xs;
    } else {
      assert InsertDesc(xs, x) == [x] + xs;
      ClassOfFront(x, xs, s);
    }
  }

  /** A common head does not disturb an appended tail of a score class. */
  lemma ClassAfterHead<T>(x0: Scored<T>, tail: seq<Scored<T>>, rest: seq<Scored<T>>, extra: seq<Scored<T>>, s: real)
    requires WithScore(rest, s) == WithScore(tail, s) + extra
    ensures WithScore([x0] + rest, s) == WithScore([x0] + tail, s) + extra
  {
    WithScoreCons(x0, rest, s);
    WithScoreCons(x0, tail, s);
    var c := Own(x0, s);
    assert c + (WithScore(tail, s) + extra) == (c + WithScore(tail, s)) + extra;
  }

  /** Putting `x` in front of a descending sequence headed below it appends `x` to its class. */
  lemma ClassOfFront<T>(x: Scored<T>, xs: seq<Scored<T>>, s: real)
    requires SortedDesc(xs)
    requires |xs| > 0 ==> xs[0].score < x.score
    ensures WithScore([x] + xs, s) == WithScore(xs, s) + Own(x, s)
  {
    WithScoreCons(x, xs, s);
    if x.score == s {
      NoneAbove(xs, s);
      assert Own(x, s) + [] == [] + Own(x, s);
    } else {
      assert Own(x, s) == [];
      assert [] + WithScore(xs, s) == WithScore(xs, s) + [];
    }
  }

  /** A descending sequence headed below `s` has no entry scoring `s`. */
  lemma {:induction false} NoneAbove<T>(xs: seq<Scored<T>>, s: real)
    requires SortedDesc(xs)
    requires |xs| > 0 ==> xs[0].score < s
    ensures WithScore(xs, s) == []
  {
    if |xs| > 0 {
      NoneAbove(xs[1..], s);
    }
  }

  /**
   Python's stable descending sort: scores non-increasing, a permutation of
   the input, and within each score class the input order is kept.
   */
  function StableSortDesc<T>(xs: seq<Scored<T>>): (r: seq<Scored<T>>)
    ensures |r| == |xs|
    ensures SortedDesc(r)
    ensures multiset(r) == multiset(xs)
    ensures forall s :: WithScore(r, s) == WithScore(xs, s)
  {
    if |xs| == 0 then []
    else
      var n := |xs| - 1;
      var sorted := StableSortDesc(xs[..n]);
      var r := InsertDesc(sorted, xs[n]);
      assert xs == xs[..n] + [xs[n]];
      assert forall s :: WithScore(r, s) == WithScore(xs, s) by {
        forall s
          ensures WithScore(r, s) == WithScore(xs, s)
        {
          SortStepClasses(sorted, xs, s);
        }
      }
      r
  }

  /** One insertion step keeps every score class equal to the input's. */
  lemma SortStepClasses<T>(sorted: seq<Scored<T>>, xs: seq<Scored<T>>, s: real)
    requires |xs| > 0 && SortedDesc(sorted)
    requires WithScore(sorted, s) == WithScore(xs[..|xs| - 1], s)
    ensures WithScore(InsertDesc(sorted, xs[|xs| - 1]), s) == WithScore(xs, s)
  {
    var n := |xs| - 1;
    InsertDescWithScore(sorted, xs[n], s);
    ClassOfLast(xs[..n], xs[n], s);
    assert xs == xs[..n] + [xs[n]];
  }

  /** Appending `x` appends it to its own score class. */
  lemma ClassOfLast<T>(init: seq<Scored<T>>, x: Scored<T>, s: real)
    ensures WithScore(init + [x], s) == WithScore(init, s) + Own(x, s)
  {
    WithScoreConcat(init, [x], s);
    WithScoreCons(x, [], s);
    assert [x] + [] == [x];
    assert Own(x, s) + [] == Own(x, s);
  }

  /**
   A stable descending sort is unique: two descending sequences whose score
   classes agree entry for entry are equal. So any stable sort (Timsort
   included) gives the same ranking as `StableSortDesc`.
   */
  lemma {:induction false} StableSortUnique<T>(a: seq<Scored<T>>, b: seq<Scored<T>>)
    requires SortedDesc(a) && SortedDesc(b)
    requires forall s :: WithScore(a, s) == WithScore(b, s)
    ensures a == b
    decreases |a|
  {
    if |a| == 0 {
      EmptyByScores(b);
    } else if |b| == 0 {
      EmptyByScores(a);
    } else {
      SameHead(a, b);
      forall x
        ensures WithScore(a[1..], x) == WithScore(b[1..], x)
      {
        SameTailClass(a, b, x);
      }
      StableSortUnique(a[1..], b[1..]);
      assert a == [a[0]] + a[1..];
      assert b == [b[0]] + b[1..];
    }
  }

  /** Two descending sequences with equal score classes start with the same entry. */
  lemma SameHead<T>(a: seq<Scored<T>>, b: seq<Scored<T>>)
    requires |a| > 0 && |b| > 0
    requires SortedDesc(a) && SortedDesc(b)
    requires forall s :: WithScore(a, s) == WithScore(b, s)
    ensures a[0] == b[0]
  {
    var s := a[0].score;
    HeadScoreBound(a, b);
    HeadScoreBound(b, a);
    ClassHead(a);
    ClassHead(b);
    assert WithScore(a, s) == WithScore(b, s);
  }

  /** A sequence's head leads its own score class. */
  lemma ClassHead<T>(a: seq<Scored<T>>)
    requires |a| > 0
    ensures |WithScore(a, a[0].score)| > 0 && WithScore(a, a[0].score)[0] == a[0]
  {
  }

  /** If `a`'s head also appears in `b`'s class, `b`'s head scores at least as much. */
  lemma HeadScoreBound<T>(a: seq<Scored<T>>, b: seq<Scored<T>>)
    requires |a| > 0 && |b| > 0 && SortedDesc(b)
    requires WithScore(a, a[0].score) == WithScore(b, a[0].score)
    ensures a[0].score <= b[0].score
  {
    ClassHead(a);
    assert a[0] in WithScore(b, a[0].score);
    WithScoreMember(b, a[0].score, a[0]);
    var j :| 0 <= j < |b| && b[j] == a[0];
  }

  /** Dropping a common head keeps the score classes equal. */
  lemma SameTailClass<T>(a: seq<Scored<T>>, b: seq<Scored<T>>, x: real)
    requires |a| > 0 && |b| > 0 && a[0] == b[0]
    requires WithScore(a, x) == WithScore(b, x)
    ensures WithScore(a[1..], x) == WithScore(b[1..], x)
  {
    var p := Own(a[0], x);
    assert WithScore(a, x) == p + WithScore(a[1..], x);
    assert WithScore(b, x) == p + WithScore(b[1..], x);
    assert (p + WithScore(a[1..], x))[|p|..] == WithScore(a[1..], x);
    assert (p + WithScore(b[1..], x))[|p|..] == WithScore(b[1..], x);
  }

  /**
   `sorted(xs, key=score, reverse=True)[:n]`: the `n` best entries (Python
   slice rules for a negative `n`), best first, each score class cut to a
   prefix of its input order.
   */
  function TopN<T>(xs: seq<Scored<T>>, n: int): (r: seq<Scored<T>>)
    ensures |r| == PrefixLen(|xs|, n)
    ensures 0 <= n ==> |r| == if n < |xs| then n else |xs|
    ensures SortedDesc(r)
    ensures multiset(r) <= multiset(xs)
    ensures forall s :: WithScore(r, s) <= WithScore(xs, s)
  {
    var sorted := StableSortDesc(xs);
    var len := PrefixLen(|xs|, n);
    PrefixOfSorted(sorted, len);
    assert forall s :: WithScore(sorted[..len], s) <= WithScore(xs, s) by {
      forall s
        ensures WithScore(sorted[..len], s) <= WithScore(xs, s)
      {
        PrefixClass(sorted, len, s);
      }
    }
    sorted[..len]
  }

  /** A prefix of a descending sequence is descending and a sub-multiset. */
  lemma PrefixOfSorted<T>(sorted: seq<Scored<T>>, len: nat)
    requires SortedDesc(sorted) && len <= |sorted|
    ensures SortedDesc(sorted[..len])
    ensures multiset(sorted[..len]) <= multiset(sorted)
  {
    assert sorted == sorted[..len] + sorted[len..];
  }

  /** The score classes of a prefix are prefixes of the whole sequence's classes. */
  lemma PrefixClass<T>(xs: seq<Scored<T>>, len: nat, s: real)
    requires len <= |xs|
    ensures WithScore(xs[..len], s) <= WithScore(xs, s)
  {
    assert xs == xs[..len] + xs[len..];
    WithScoreConcat(xs[..len], xs[len..], s);
  }

  /** No entry `TopN` leaves out scores above an entry it keeps. */
  lemma TopNKeepsBest<T>(xs: seq<Scored<T>>, n: int, x: Scored<T>)
    requires x in multiset(xs) - multiset(TopN(xs, n))
    ensures forall i :: 0 <= i < |TopN(xs, n)| ==> x.score <= TopN(xs, n)[i].score
  {
    var sorted := StableSortDesc(xs);
    var len := PrefixLen(|xs|, n);
    assert TopN(xs, n) == sorted[..len];
    LeftOutBelow(sorted, len, x);
  }

  /** What a prefix of a descending sequence leaves out scores no higher than what it keeps. */
  lemma LeftOutBelow<T>(sorted: seq<Scored<T>>, len: nat, x: Scored<T>)
    requires SortedDesc(sorted) && len <= |sorted|
    requires x in multiset(sorted) - multiset(sorted[..len])
    ensures forall i :: 0 <= i < len ==> x.score <= sorted[i].score
  {
    var rest := sorted[len..];
    assert sorted == sorted[..len] + rest;
    assert multiset(sorted) == multiset(sorted[..len]) + multiset(rest);
    assert x in multiset(rest);
    var p :| 0 <= p < |rest| && rest[p] == x;
    assert sorted[len + p] == x;
  }
}

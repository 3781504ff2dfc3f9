/**
 Sorted, duplicate-free sequences under a strict total order. pandas builds
 both axes of the pivoted rating matrix and the column labels of
 `get_dummies` this way: the distinct keys, in ascending order. Integers use
 their usual order; strings use Python's code-point lexicographic order.
 */
module Order {

  ghost predicate StrictTotalOrder<T(!new)>(less: (T, T) -> bool)
  {
    && (forall x :: !less(x, x))
    && (forall x, y, z :: less(x, y) && less(y, z) ==> less(x, z))
    && (forall x, y :: x != y ==> less(x, y) || less(y, x))
  }

  /** Every element is strictly below every later one, so no element repeats. */
  predicate StrictlySorted<T>(less: (T, T) -> bool, s: seq<T>)
  {
    forall i, j :: 0 <= i < j < |s| ==> less(s[i], s[j])
  }

  /** Inserts `x` into a strictly sorted sequence unless it is already there. */
  function InsertUnique<T(==, !new)>(less: (T, T) -> bool, s: seq<T>, x: T): (r: seq<T>)
    requires StrictTotalOrder(less)
    requires StrictlySorted(less, s)
    ensures StrictlySorted(less, r)
    ensures forall y :: y in r <==> y in s || y == x
  {
    if |s| == 0 then [x]
    else if x == s[0] then s
    else if less(x, s[0]) then [x] + s
    else
      assert forall y :: y in s[1..] ==> less(s[0], y);
      [s[0]] + InsertUnique(less, s[1..], x)
  }

  /** The distinct elements of `xs` in ascending order (`sorted(set(xs))`). */
  function SortedDistinct<T(==, !new)>(less: (T, T) -> bool, xs: seq<T>): (r: seq<T>)
    requires StrictTotalOrder(less)
    ensures StrictlySorted(less, r)
    ensures forall y :: y in r <==> y in xs
  {
    if |xs| == 0 then []
    else InsertUnique(less, SortedDistinct(less, xs[..|xs| - 1]), xs[|xs| - 1])
  }

  /**
   A finite set has exactly one strictly sorted listing: whatever algorithm
   produced them, two strictly sorted sequences with the same elements are
   equal.
   */
  lemma {:induction false} SortedListingUnique<T(!new)>(less: (T, T) -> bool, a: seq<T>, b: seq<T>)
    requires StrictTotalOrder(less)
    requires StrictlySorted(less, a) && StrictlySorted(less, b)
    requires forall y :: y in a <==> y in b
    ensures a == b
    decreases |a|
  {
    if |a| == 0 {
      NoMemberMeansEmpty(b);
    } else {
      assert a[0] in b && |b| > 0 && b[0] in a;
      assert a[0] == b[0];
      forall y
        ensures y in a[1..] <==> y in b[1..]
      {
        if y in a[1..] {
          var i :| 1 <= i < |a| && a[i] == y;
          assert less(a[0], y);
          assert y in b && y != b[0];
          var j :| 0 <= j < |b| && b[j] == y;
          assert b[1..][j - 1] == y;
        }
        if y in b[1..] {
          var j :| 1 <= j < |b| && b[j] == y;
          assert less(b[0], y);
          assert y in a && y != a[0];
          var i :| 0 <= i < |a| && a[i] == y;
          assert a[1..][i - 1] == y;
        }
      }
      SortedListingUnique(less, a[1..], b[1..]);
    }
  }

  lemma HeadIsMember<T>(s: seq<T>)
    requires |s| > 0
    ensures s[0] in s
  {
  }

  /** A sequence without members is empty. */
  lemma NoMemberMeansEmpty<T>(s: seq<T>)
    requires forall x :: x !in s
    ensures |s| == 0
  {
    if |s| > 0 {
      HeadIsMember(s);
      assert false;
    }
  }

  /** Position of an element known to occur. */
  function IndexOf<T(==)>(s: seq<T>, x: T): (i: nat)
    requires x in s
    ensures i < |s| && s[i] == x
    ensures forall j :: 0 <= j < i ==> s[j] != x
  {
    if s[0] == x then 0 else 1 + IndexOf(s[1..], x)
  }

  function IntLess(a: int, b: int): bool
  {
    a < b
  }

  lemma IntLessIsStrictTotalOrder()
    ensures StrictTotalOrder(IntLess)
  {
  }

  /**
   Python's `str` ordering: compare code point by code point; a proper prefix
   comes first.
   */
  function StrLess(a: string, b: string): bool
  {
    if |a| == 0 then |b| > 0
    else if |b| == 0 then false
    else if a[0] != b[0] then a[0] < b[0]
    else StrLess(a[1..], b[1..])
  }

  lemma {:induction false} StrLessIrreflexive(a: string)
    ensures !StrLess(a, a)
  {
    if |a| > 0 {
      StrLessIrreflexive(a[1..]);
    }
  }

  lemma {:induction false} StrLessTransitive(a: string, b: string, c: string)
    requires StrLess(a, b) && StrLess(b, c)
    ensures StrLess(a, c)
  {
    if |a| > 0 && |b| > 0 && |c| > 0 && a[0] == b[0] == c[0] {
      StrLessTransitive(a[1..], b[1..], c[1..]);
    }
  }

  lemma {:induction false} StrLessTotal(a: string, b: string)
    requires a != b
    ensures StrLess(a, b) || StrLess(b, a)
  {
    if |a| > 0 && |b| > 0 && a[0] == b[0] {
      assert a == [a[0]] + a[1..] && b == [b[0]] + b[1..];
      StrLessTotal(a[1..], b[1..]);
    }
  }

  lemma StrLessIsStrictTotalOrder()
    ensures StrictTotalOrder(StrLess)
  {
    forall x: string
      ensures !StrLess(x, x)
    {
      StrLessIrreflexive(x);
    }
    forall x: string, y: string, z: string | StrLess(x, y) && StrLess(y, z)
      ensures StrLess(x, z)
    {
      StrLessTransitive(x, y, z);
    }
    forall x: string, y: string | x != y
      ensures StrLess(x, y) || StrLess(y, x)
    {
      StrLessTotal(x, y);
    }
  }
}

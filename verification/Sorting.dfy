/**
 Stable sorting by a text: Go's `slices.SortStableFunc`, and `sort.Slice` over keys
 of which no two are equal.
 */
module Sorting {
  import opened Text

  /** Puts x before the first element that does not come before it. */
  function Insert<T>(x: T, sorted: seq<T>, key: T -> string): seq<T> {
    if sorted == [] || !Less(key(sorted[0]), key(x)) then [x] + sorted
    else [sorted[0]] + Insert(x, sorted[1..], key)
  }

  function SortBy<T>(xs: seq<T>, key: T -> string): seq<T> {
    if xs == [] then [] else Insert(xs[0], SortBy(xs[1..], key), key)
  }

  predicate AreSorted<T>(xs: seq<T>, key: T -> string) {
    forall i, j :: 0 <= i < j < |xs| ==> !Less(key(xs[j]), key(xs[i]))
  }

  /** Not coming before is transitive too. */
  lemma NotLessTransitive(a: string, b: string, c: string)
    requires !Less(a, b) && !Less(b, c)
    ensures !Less(a, c)
  {
    if Less(a, c) {
      LessTotal(a, b);
      if a != b { LessTransitive(b, a, c); }
    }
  }

  lemma {:induction false} InsertKeeps<T>(x: T, sorted: seq<T>, key: T -> string)
    ensures multiset(Insert(x, sorted, key)) == multiset(sorted) + multiset{x}
  {
    hide Less;
    if sorted != [] && Less(key(sorted[0]), key(x)) {
      InsertKeeps(x, sorted[1..], key);
      assert sorted == [sorted[0]] + sorted[1..];
    }
  }

  lemma {:induction false} InsertSorts<T>(x: T, sorted: seq<T>, key: T -> string)
    requires AreSorted(sorted, key)
    ensures AreSorted(Insert(x, sorted, key), key)
  {
    hide Less;
    if sorted == [] {
    } else if !Less(key(sorted[0]), key(x)) {
      LessIrreflexive(key(sorted[0]));
      forall y | y in sorted ensures !Less(key(y), key(x)) {
        NotLessTransitive(key(y), key(sorted[0]), key(x));
      }
    } else {
      var more := Insert(x, sorted[1..], key);
      InsertSorts(x, sorted[1..], key);
      InsertKeeps(x, sorted[1..], key);
      LessAsymmetric(key(sorted[0]), key(x));
      forall y | y in more ensures !Less(key(y), key(sorted[0])) {
        assert y in multiset(more);
        assert y == x || y in sorted[1..];
      }
    }
  }

  lemma {:induction false} SortSorts<T>(xs: seq<T>, key: T -> string)
    ensures AreSorted(SortBy(xs, key), key) && multiset(SortBy(xs, key)) == multiset(xs)
  {
    hide Insert, AreSorted;
    if xs == [] {
      NothingToSort(key);
    } else {
      SortSorts(xs[1..], key);
      InsertSorts(xs[0], SortBy(xs[1..], key), key);
      InsertKeeps(xs[0], SortBy(xs[1..], key), key);
      assert xs == [xs[0]] + xs[1..];
    }
  }

  lemma NothingToSort<T>(key: T -> string)
    ensures AreSorted([], key)
  {
  }

  lemma SortOne<T>(x: T, key: T -> string)
    ensures SortBy([x], key) == [x]
  {
    assert [x][1..] == [];
    assert SortBy([x], key) == Insert(x, SortBy([], key), key) == Insert(x, [], key);
  }

  /** What is sorted already is left as it is. */
  lemma {:induction false} SortedStays<T>(xs: seq<T>, key: T -> string)
    requires AreSorted(xs, key)
    ensures SortBy(xs, key) == xs
  {
    if xs != [] {
      SortedStays(xs[1..], key);
      assert xs == [xs[0]] + xs[1..];
    }
  }
}

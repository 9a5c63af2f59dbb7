/**
 shared/networking/events: the ancestry of every event type.
 */
module Events {

  /** The library's own event types, its categories, and any other. */
  datatype EventType =
    | PropsMarshalingFailure | RegistryLookupFailure | EntryGenerationFailure | TempEntryWriteFailure
    | CompBundlingFailure | CompPropsInsufficientFailure | AnonymousSourceFailure | TransmitRenderedTemplate
    | DevelopmentFailureEvent | FailureEvent | SuccessEvent | BaseEvent
    | Other(name: string)

  /** The categories, and which types implement which of them. */
  datatype Types = Types(categories: seq<EventType>, implements: (EventType, EventType) -> bool)

  function Capabilities(ts: Types, t: EventType, categories: seq<EventType>): seq<EventType> {
    if categories == [] then []
    else (if categories[0] != t && ts.implements(t, categories[0]) then [categories[0]] else [])
         + Capabilities(ts, t, categories[1..])
  }

  /** The type itself, and the categories it implements, in the order they are listed. */
  function Parents(ts: Types, t: EventType): seq<EventType> {
    [t] + Capabilities(ts, t, ts.categories)
  }

  /** Stable insertion, types with more parents first. */
  function InsertType(ts: Types, x: EventType, sorted: seq<EventType>): seq<EventType> {
    if sorted == [] || |Parents(ts, sorted[0])| <= |Parents(ts, x)| then [x] + sorted
    else [sorted[0]] + InsertType(ts, x, sorted[1..])
  }

  function SortTypes(ts: Types, xs: seq<EventType>): seq<EventType> {
    if xs == [] then [] else InsertType(ts, xs[0], SortTypes(ts, xs[1..]))
  }

  function Ancestry(ts: Types, t: EventType): seq<EventType> {
    SortTypes(ts, Parents(ts, t))
  }

  predicate AreDistinct(xs: seq<EventType>) {
    forall i, j :: 0 <= i < j < |xs| ==> xs[i] != xs[j]
  }

  /** What implements something implements what that implements. */
  ghost predicate IsTransitive(ts: Types) {
    forall a, b, c :: ts.implements(a, b) && ts.implements(b, c) ==> ts.implements(a, c)
  }

  /** The type or one of the categories it implements. */
  predicate IsAncestor(ts: Types, t: EventType, c: EventType) {
    c == t || (c in ts.categories && ts.implements(t, c))
  }

  // --------------------------------------------------------------------- the parents

  lemma {:induction false} CapabilitiesHold(ts: Types, t: EventType, categories: seq<EventType>)
    requires AreDistinct(categories)
    ensures AreDistinct(Capabilities(ts, t, categories))
    ensures forall c :: c in Capabilities(ts, t, categories) <==> c in categories && c != t && ts.implements(t, c)
  {
    if categories != [] {
      assert categories == [categories[0]] + categories[1..];
      CapabilitiesHold(ts, t, categories[1..]);
    }
  }

  lemma ParentsHold(ts: Types, t: EventType)
    requires AreDistinct(ts.categories)
    ensures AreDistinct(Parents(ts, t))
    ensures forall c :: c in Parents(ts, t) <==> IsAncestor(ts, t, c)
  {
    CapabilitiesHold(ts, t, ts.categories);
    var more := Capabilities(ts, t, ts.categories);
    forall i, j | 0 <= i < j < |Parents(ts, t)| ensures Parents(ts, t)[i] != Parents(ts, t)[j] {
      assert Parents(ts, t)[j] == more[j - 1] && more[j - 1] in more;
      assert i > 0 ==> Parents(ts, t)[i] == more[i - 1];
    }
  }

  /** A list without repeats is as long as the set of its elements. */
  lemma {:induction false} LengthIsCardinality(xs: seq<EventType>)
    requires AreDistinct(xs)
    ensures |set x | x in xs| == |xs|
  {
    if xs == [] {
      assert (set x | x in xs) == {};
    } else {
      LengthIsCardinality(xs[1..]);
      assert xs == [xs[0]] + xs[1..];
      assert (set x | x in xs) == (set x | x in xs[1..]) + {xs[0]};
    }
  }

  lemma SubsetIsSmaller(a: set<EventType>, b: set<EventType>)
    requires a <= b
    ensures |a| <= |b| && (|a| == |b| ==> a == b)
  {
    assert b == a + (b - a);
  }

  /** What implements a category has at least its parents, and more unless they implement each other. */
  lemma NarrowerHasMore(ts: Types, a: EventType, b: EventType)
    requires AreDistinct(ts.categories) && IsTransitive(ts) && ts.implements(a, b) && b in ts.categories
    ensures |Parents(ts, b)| <= |Parents(ts, a)|
    ensures |Parents(ts, b)| == |Parents(ts, a)| ==> a == b || ts.implements(b, a)
  {
    ParentsHold(ts, a);
    ParentsHold(ts, b);
    var wide, narrow := set c | c in Parents(ts, b), set c | c in Parents(ts, a);
    LengthIsCardinality(Parents(ts, a));
    LengthIsCardinality(Parents(ts, b));
    assert a in narrow;
    SubsetIsSmaller(wide, narrow);
  }

  // --------------------------------------------------------------------- the ordering

  predicate IsOrdered(ts: Types, xs: seq<EventType>) {
    forall i, j :: 0 <= i < j < |xs| ==> |Parents(ts, xs[j])| <= |Parents(ts, xs[i])|
  }

  /** None of the types is wider than the bound. */
  predicate AreWithin(ts: Types, xs: seq<EventType>, bound: nat) {
    forall i :: 0 <= i < |xs| ==> |Parents(ts, xs[i])| <= bound
  }

  lemma {:induction false} InsertWithin(ts: Types, x: EventType, sorted: seq<EventType>, bound: nat)
    requires AreWithin(ts, sorted, bound) && |Parents(ts, x)| <= bound
    ensures AreWithin(ts, InsertType(ts, x, sorted), bound)
  {
    hide Parents;
    if sorted != [] && !(|Parents(ts, sorted[0])| <= |Parents(ts, x)|) {
      InsertWithin(ts, x, sorted[1..], bound);
    }
  }

  lemma {:induction false} InsertKeeps(ts: Types, x: EventType, sorted: seq<EventType>)
    requires IsOrdered(ts, sorted)
    ensures IsOrdered(ts, InsertType(ts, x, sorted))
    ensures multiset(InsertType(ts, x, sorted)) == multiset(sorted) + multiset{x}
  {
    hide Parents;
    if sorted != [] && !(|Parents(ts, sorted[0])| <= |Parents(ts, x)|) {
      InsertKeeps(ts, x, sorted[1..]);
      InsertWithin(ts, x, sorted[1..], |Parents(ts, sorted[0])|);
      assert sorted == [sorted[0]] + sorted[1..];
    }
  }

  lemma NoneOrdered(ts: Types)
    ensures IsOrdered(ts, [])
  {
  }

  lemma {:induction false} SortKeeps(ts: Types, xs: seq<EventType>)
    ensures IsOrdered(ts, SortTypes(ts, xs)) && multiset(SortTypes(ts, xs)) == multiset(xs)
  {
    hide Parents, InsertType, IsOrdered;
    if xs == [] {
      NoneOrdered(ts);
    } else {
      SortKeeps(ts, xs[1..]);
      InsertKeeps(ts, xs[0], SortTypes(ts, xs[1..]));
      assert xs == [xs[0]] + xs[1..];
    }
  }

  lemma DistinctByCount(xs: seq<EventType>, ys: seq<EventType>)
    requires AreDistinct(xs) && multiset(xs) == multiset(ys)
    ensures AreDistinct(ys) && forall x :: x in xs <==> x in ys
  {
    forall x ensures x in xs <==> x in ys {
      assert x in xs <==> x in multiset(xs);
      assert x in ys <==> x in multiset(ys);
    }
    forall i, j | 0 <= i < j < |ys| ensures ys[i] != ys[j] {
      CountsTwice(ys, i, j);
      CountsOnce(xs, ys[i]);
    }
  }

  lemma CountsTwice(ys: seq<EventType>, i: nat, j: nat)
    requires i < j < |ys|
    ensures ys[i] == ys[j] ==> multiset(ys)[ys[i]] >= 2
  {
    assert ys == ys[..i] + [ys[i]] + ys[i + 1..j] + [ys[j]] + ys[j + 1..];
  }

  lemma {:induction false} CountsOnce(xs: seq<EventType>, x: EventType)
    requires AreDistinct(xs)
    ensures multiset(xs)[x] <= 1
  {
    if xs != [] {
      assert xs == [xs[0]] + xs[1..];
      CountsOnce(xs[1..], x);
    }
  }

  lemma SelfIsFirst(ts: Types, t: EventType)
    requires AreDistinct(ts.categories) && IsTransitive(ts)
    ensures Ancestry(ts, t) != [] && Ancestry(ts, t)[0] == t
  {
    var more := Capabilities(ts, t, ts.categories);
    var rest := SortTypes(ts, more);
    SortKeeps(ts, more);
    CapabilitiesHold(ts, t, ts.categories);
    assert Parents(ts, t)[1..] == more && Ancestry(ts, t) == InsertType(ts, t, rest);
    hide Parents, Capabilities, Ancestry, SortTypes, IsOrdered, AreDistinct;
    if rest != [] {
      assert rest[0] in multiset(rest);
      assert rest[0] in more;
      NarrowerHasMore(ts, t, rest[0]);
    }
  }

  /** The first of the two implements the second and is not implemented by it. */
  predicate IsNarrower(ts: Types, a: EventType, b: EventType) {
    a != b && b in ts.categories && ts.implements(a, b) && !ts.implements(b, a)
  }

  /**
   Every ancestry begins with the type itself, holds each ancestor once and nothing
   else, and puts the narrower of two before the wider. Types that implement each
   other may come in either order; the type itself is still first.
   */
  lemma AncestryHolds(ts: Types, t: EventType)
    requires AreDistinct(ts.categories) && IsTransitive(ts)
    ensures Ancestry(ts, t) != [] && Ancestry(ts, t)[0] == t
    ensures AreDistinct(Ancestry(ts, t)) && forall c :: c in Ancestry(ts, t) <==> IsAncestor(ts, t, c)
    ensures forall i, j :: 0 <= i < |Ancestry(ts, t)| && 0 <= j < |Ancestry(ts, t)| ==>
      IsNarrower(ts, Ancestry(ts, t)[i], Ancestry(ts, t)[j]) ==> i < j
  {
    var all := Ancestry(ts, t);
    SelfIsFirst(ts, t);
    ParentsHold(ts, t);
    SortKeeps(ts, Parents(ts, t));
    DistinctByCount(Parents(ts, t), all);
    hide Parents, Ancestry;
    forall i, j | 0 <= i < |all| && 0 <= j < |all| && IsNarrower(ts, all[i], all[j]) ensures i < j {
      NarrowerHasMore(ts, all[i], all[j]);
    }
  }

  // -------------------------------------------------------------------------- the graph

  /** The graph as `init` builds it: the parents of each type first, then every list sorted. */
  method BuildAncestry(ts: Types, values: seq<EventType>) returns (g: map<EventType, seq<EventType>>)
    requires AreDistinct(values) && forall c :: c in ts.categories ==> c in values
    ensures forall t :: t in g <==> t in values
    ensures forall t :: t in values ==> g[t] == Ancestry(ts, t)
  {
    g := map[];
    hide Parents, Ancestry;
    for i := 0 to |values|
      invariant forall t :: t in g <==> t in values[..i]
      invariant forall t :: t in g ==> g[t] == Parents(ts, t)
    {
      var parents := CollectParents(ts, values[i]);
      g := g[values[i] := parents];
      assert values[..i + 1] == values[..i] + [values[i]];
    }
    assert values[..|values|] == values;
    g := SortAll(ts, g);
  }

  /** Sorting goes by the lengths of the lists, which it does not change. */
  method SortAll(ts: Types, parents: map<EventType, seq<EventType>>) returns (g: map<EventType, seq<EventType>>)
    requires forall t :: t in parents ==> parents[t] == Parents(ts, t)
    ensures g.Keys == parents.Keys
    ensures forall t :: t in g ==> g[t] == Ancestry(ts, t)
  {
    hide Parents, Ancestry, SortTypes;
    g := parents;
    var left := g.Keys;
    while left != {}
      invariant g.Keys == parents.Keys && left <= g.Keys
      invariant forall t :: t in left ==> g[t] == Parents(ts, t)
      invariant forall t :: t in g && t !in left ==> g[t] == Ancestry(ts, t)
      invariant forall t :: t in g ==> |g[t]| == |Parents(ts, t)|
      decreases |left|
    {
      var t :| t in left;
      left := left - {t};
      AncestryIs(ts, t);
      g := g[t := SortTypes(ts, g[t])];
    }
  }

  lemma AncestryIs(ts: Types, t: EventType)
    ensures Ancestry(ts, t) == SortTypes(ts, Parents(ts, t)) && |Ancestry(ts, t)| == |Parents(ts, t)|
  {
    SortKeeps(ts, Parents(ts, t));
    assert |multiset(Ancestry(ts, t))| == |multiset(Parents(ts, t))|;
  }

  method CollectParents(ts: Types, t: EventType) returns (parents: seq<EventType>)
    ensures parents == Parents(ts, t)
  {
    parents := [t];
    assert ts.categories[0..] == ts.categories;
    for i := 0 to |ts.categories|
      invariant parents + Capabilities(ts, t, ts.categories[i..]) == Parents(ts, t)
    {
      var c := ts.categories[i];
      assert ts.categories[i..][1..] == ts.categories[i + 1..];
      assert parents + ([c] + Capabilities(ts, t, ts.categories[i + 1..]))
          == (parents + [c]) + Capabilities(ts, t, ts.categories[i + 1..]);
      if c != t && ts.implements(t, c) {
        parents := parents + [c];
      } else {
        assert [] + Capabilities(ts, t, ts.categories[i + 1..]) == Capabilities(ts, t, ts.categories[i + 1..]);
      }
    }
  }
}

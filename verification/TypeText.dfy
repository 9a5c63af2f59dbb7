/**
 The brackets and bars of a type's text: all that the bracket counters of mapper.go
 and shape.go look at.
 */
module TypeText {
  import opened Shapes

  predicate IsBar(c: char, both: bool) {
    c == '|' || (both && c == '&')
  }

  predicate IsBone(c: char) {
    IsBar(c, true) || DepthAfter(0, c) != 0
  }

  /** The brackets, bars and ampersands of a text, in order. */
  function Bones(x: string): string {
    if x == "" then ""
    else (if IsBone(x[0]) then [x[0]] else []) + Bones(x[1..])
  }

  /** How much deeper a text ends than it begins. */
  function Net(x: string): int {
    if x == "" then 0 else DepthAfter(0, x[0]) + Net(x[1..])
  }

  /** A bar where the depth is zero. */
  predicate Bars(x: string, depth: int, both: bool) {
    x != "" && ((IsBar(x[0], both) && depth == 0) || Bars(x[1..], DepthAfter(depth, x[0]), both))
  }

  /** A bar where the depth is negative. */
  predicate BarBelow(x: string, depth: int, both: bool) {
    x != "" && ((IsBar(x[0], both) && depth < 0) || BarBelow(x[1..], DepthAfter(depth, x[0]), both))
  }

  /** A bracket closed that was never opened. */
  predicate Dips(x: string, depth: int) {
    x != "" && (DepthAfter(depth, x[0]) < 0 || Dips(x[1..], DepthAfter(depth, x[0])))
  }

  predicate HasTopLevelUnion(x: string) {
    Bars(x, 0, true)
  }

  method ScanTopLevelUnion(ts: string) returns (found: bool)
    ensures found <==> HasTopLevelUnion(ts)
  {
    var depth := 0;
    assert ts[0..] == ts;
    for i := 0 to |ts|
      invariant Bars(ts[i..], depth, true) <==> HasTopLevelUnion(ts)
    {
      assert ts[i..][1..] == ts[i + 1..];
      var c := ts[i];
      if c == '{' || c == '(' || c == '[' || c == '<' {
        depth := depth + 1;
      } else if c == '}' || c == ')' || c == ']' || c == '>' {
        depth := depth - 1;
      } else if c == '|' || c == '&' {
        if depth == 0 { return true; }
      }
    }
    return false;
  }

  /** A `|` or `&` that as many brackets are closed before as are opened. */
  predicate HasOuterMark(x: string, depth: int) {
    exists i :: 0 <= i < |x| && (x[i] == '|' || x[i] == '&') && depth + Level(x[..i]) == 0
  }

  lemma LevelFrom(c: char, x: string)
    ensures Level([c] + x) == DepthAfter(0, c) + Level(x)
  {
    if x == "" {
      assert [c] + x == "" + [c];
      LevelAfter("", c);
    } else {
      var n := |x| - 1;
      assert [c] + x == ([c] + x[..n]) + [x[n]] && x == x[..n] + [x[n]];
      LevelFrom(c, x[..n]);
      LevelAfter([c] + x[..n], x[n]);
      LevelAfter(x[..n], x[n]);
    }
  }

  lemma {:induction false} BarsIff(x: string, depth: int)
    ensures Bars(x, depth, true) <==> HasOuterMark(x, depth)
  {
    hide Level;
    if x != "" {
      var c, more := x[0], x[1..];
      BarsIff(more, DepthAfter(depth, c));
      NothingIsLevel();
      assert x[..0] == "";
      forall i | 0 <= i < |more| ensures Level(x[..i + 1]) == DepthAfter(0, c) + Level(more[..i]) {
        assert x[..i + 1] == [c] + more[..i];
        LevelFrom(c, more[..i]);
      }
      if HasOuterMark(x, depth) {
        var i :| 0 <= i < |x| && (x[i] == '|' || x[i] == '&') && depth + Level(x[..i]) == 0;
        if i > 0 { assert more[i - 1] == x[i] && Level(x[..i - 1 + 1]) == DepthAfter(0, c) + Level(more[..i - 1]); }
      }
      if HasOuterMark(more, DepthAfter(depth, c)) {
        var i :| 0 <= i < |more| && (more[i] == '|' || more[i] == '&') && DepthAfter(depth, c) + Level(more[..i]) == 0;
        assert x[i + 1] == more[i];
      }
    }
  }

  /** A type is taken for a union when a bar or an ampersand stands outside its brackets, and only then. */
  lemma HasTopLevelUnionIff(x: string)
    ensures HasTopLevelUnion(x) <==>
      exists i :: 0 <= i < |x| && (x[i] == '|' || x[i] == '&') && Level(x[..i]) == 0
  {
    BarsIff(x, 0);
    assert HasOuterMark(x, 0) <==> exists i :: 0 <= i < |x| && (x[i] == '|' || x[i] == '&') && 0 + Level(x[..i]) == 0;
  }

  // -------------------------------------------------------------- bones are all they see

  lemma {:induction false} BonesCount(x: string, depth: int, both: bool)
    ensures Net(Bones(x)) == Net(x)
    ensures Bars(Bones(x), depth, both) <==> Bars(x, depth, both)
    ensures BarBelow(Bones(x), depth, both) <==> BarBelow(x, depth, both)
    ensures depth >= 0 ==> (Dips(Bones(x), depth) <==> Dips(x, depth))
  {
    if x != "" {
      BonesCount(x[1..], DepthAfter(depth, x[0]), both);
      if IsBone(x[0]) {
        assert Bones(x)[1..] == Bones(x[1..]);
      } else {
        assert Bones(x) == Bones(x[1..]);
      }
    }
  }

  lemma {:induction false} BonesAppend(a: string, b: string)
    ensures Bones(a + b) == Bones(a) + Bones(b)
  {
    hide IsBone;
    if a == "" {
      assert a + b == b;
    } else {
      assert (a + b)[1..] == a[1..] + b;
      BonesAppend(a[1..], b);
      var head, left, right := (if IsBone(a[0]) then [a[0]] else []), Bones(a[1..]), Bones(b);
      assert head + (left + right) == head + left + right;
    }
  }

  lemma {:induction false} NoBones(x: string)
    requires forall c :: c in x ==> !IsBone(c)
    ensures Bones(x) == ""
  {
    if x != "" { NoBones(x[1..]); }
  }

  // ------------------------------------------------------------------- putting together

  lemma {:induction false} NetAppend(a: string, b: string)
    ensures Net(a + b) == Net(a) + Net(b)
  {
    if a == "" {
      assert a + b == b;
    } else {
      assert (a + b)[1..] == a[1..] + b;
      NetAppend(a[1..], b);
    }
  }

  lemma {:induction false} BarsAppend(a: string, b: string, depth: int, both: bool)
    ensures Bars(a + b, depth, both) <==> Bars(a, depth, both) || Bars(b, depth + Net(a), both)
    ensures BarBelow(a + b, depth, both) <==> BarBelow(a, depth, both) || BarBelow(b, depth + Net(a), both)
    ensures Dips(a + b, depth) <==> Dips(a, depth) || Dips(b, depth + Net(a))
  {
    if a == "" {
      assert a + b == b;
    } else {
      assert (a + b)[1..] == a[1..] + b;
      BarsAppend(a[1..], b, DepthAfter(depth, a[0]), both);
    }
  }

  lemma {:induction false} DeeperIsSafer(x: string, depth: int, deeper: int, both: bool)
    requires depth <= deeper
    ensures BarBelow(x, deeper, both) ==> BarBelow(x, depth, both)
    ensures Dips(x, deeper) ==> Dips(x, depth)
  {
    if x != "" { DeeperIsSafer(x[1..], DepthAfter(depth, x[0]), DepthAfter(deeper, x[0]), both); }
  }

  /** A bar at depth zero is below where one starts one lower. */
  lemma {:induction false} BarIsBelow(x: string, depth: int, both: bool)
    requires Bars(x, depth, both)
    ensures BarBelow(x, depth - 1, both)
  {
    if !(IsBar(x[0], both) && depth == 0) { BarIsBelow(x[1..], DepthAfter(depth, x[0]), both); }
  }

  /** A bar below is at depth zero from far enough up. */
  lemma {:induction false} FindBar(x: string, depth: int, both: bool) returns (up: nat)
    requires BarBelow(x, depth, both)
    ensures up > 0 && Bars(x, depth + up, both)
  {
    if IsBar(x[0], both) && depth < 0 {
      up := -depth;
    } else {
      up := FindBar(x[1..], DepthAfter(depth, x[0]), both);
      assert DepthAfter(depth, x[0]) + up == DepthAfter(depth + up, x[0]);
    }
  }

  /** Ends where it begins, with no bar lower than the floor allows; a tidy one closes what it opened. */
  predicate IsEven(x: string, floor: int, both: bool, tidy: bool) {
    Net(x) == 0 && !BarBelow(x, floor, both) && (tidy ==> !Dips(x, 0))
  }

  lemma EvenNothing(floor: int, both: bool, tidy: bool)
    ensures IsEven("", floor, both, tidy)
  {
  }

  lemma EvenAppend(a: string, b: string, floor: int, both: bool, tidy: bool)
    requires IsEven(a, floor, both, tidy) && IsEven(b, floor, both, tidy)
    ensures IsEven(a + b, floor, both, tidy)
  {
    NetAppend(a, b);
    BarsAppend(a, b, floor, both);
    BarsAppend(a, b, 0, both);
  }

  lemma EvenLower(x: string, both: bool, tidy: bool)
    requires IsEven(x, -1, both, tidy)
    ensures IsEven(x, 0, both, tidy) && !Bars(x, 0, both)
  {
    DeeperIsSafer(x, -1, 0, both);
    if Bars(x, 0, both) { BarIsBelow(x, 0, both); }
  }

  /** With a bar at the end it is level still, and a union at its top. */
  lemma EvenBar(x: string, both: bool, tidy: bool)
    requires IsEven(x, 0, both, tidy)
    ensures IsEven(x + "|", 0, both, tidy) && Bars(x + "|", 0, both)
  {
    assert "|"[1..] == "";
    NetAppend(x, "|");
    BarsAppend(x, "|", 0, both);
  }

  predicate ArePair(open: char, close: char) {
    (open == '{' && close == '}') || (open == '<' && close == '>') || (open == '(' && close == ')') ||
    (open == '[' && close == ']')
  }

  lemma PairCounts(open: char, close: char, depth: int, both: bool)
    requires ArePair(open, close)
    ensures Net([open]) == 1 && Net([close]) == -1
    ensures !Bars([open], depth, both) && !Bars([close], depth, both)
    ensures !BarBelow([open], depth, both) && !BarBelow([close], depth, both)
    ensures depth >= 0 ==> !Dips([open], depth)
    ensures depth > 0 ==> !Dips([close], depth)
  {
    assert [open][1..] == "" && [close][1..] == "";
  }

  /** In brackets a level text is no union, whatever it was. */
  lemma EvenWrapped(open: char, x: string, close: char, both: bool, tidy: bool)
    requires ArePair(open, close) && IsEven(x, 0, both, tidy)
    ensures IsEven([open] + x + [close], -1, both, tidy)
  {
    WrappedCounts(open, x, close, -1, both);
    WrappedCounts(open, x, close, 0, both);
    DeeperIsSafer(x, 0, 1, both);
  }

  /** Brackets put what is between them one deeper. */
  lemma WrappedCounts(open: char, x: string, close: char, depth: int, both: bool)
    requires ArePair(open, close)
    ensures var all := [open] + x + [close];
      && Net(all) == Net(x)
      && (Bars(all, depth, both) <==> Bars(x, depth + 1, both))
      && (BarBelow(all, depth, both) <==> BarBelow(x, depth + 1, both))
      && (depth >= 0 && Net(x) == 0 ==> (Dips(all, depth) <==> Dips(x, depth + 1)))
  {
    NetAppend([open], x);
    NetAppend([open] + x, [close]);
    BarsAppend([open], x, depth, both);
    BarsAppend([open] + x, [close], depth, both);
    PairCounts(open, close, depth, both);
    PairCounts(open, close, depth + 1 + Net(x), both);
  }
}

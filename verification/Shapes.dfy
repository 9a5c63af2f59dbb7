/**
 internal/types/shape.go: the structural description of props, and when one
 shape can stand in for another.
 */
module Shapes {
  import opened Wrappers
  import opened Text
  import opened Sorting

  datatype Field = Field(name: string, ts: string, optional: bool)

  // ---------------------------------------------------------------- NewShape

  function FieldKey(f: Field): string { f.name }

  /** `slices.SortStableFunc` by name. */
  function Sort(fields: seq<Field>): seq<Field> {
    SortBy(fields, FieldKey)
  }

  /** `slices.CompactFunc` by name: the first of each run stays. */
  function Compact(fields: seq<Field>): seq<Field>
    decreases |fields|
  {
    if |fields| < 2 then fields
    else if fields[0].name == fields[1].name then Compact([fields[0]] + fields[2..])
    else [fields[0]] + Compact(fields[1..])
  }

  function NewShape(fields: seq<Field>): seq<Field> {
    Compact(Sort(fields))
  }

  /** The invariant of a shape: sorted by name, no name twice. */
  predicate IsShape(fields: seq<Field>) {
    forall i, j :: 0 <= i < j < |fields| ==> Less(fields[i].name, fields[j].name)
  }

  /** The first field declared under a name. */
  function FirstNamed(fields: seq<Field>, name: string): Option<Field> {
    if fields == [] then None
    else if fields[0].name == name then Some(fields[0])
    else FirstNamed(fields[1..], name)
  }

  function Names(fields: seq<Field>): set<string> {
    set f | f in fields :: f.name
  }

  lemma {:induction false} FirstNamedFinds(fields: seq<Field>, name: string)
    ensures FirstNamed(fields, name).Some? <==> name in Names(fields)
    ensures FirstNamed(fields, name).Some? ==>
      FirstNamed(fields, name).value in fields && FirstNamed(fields, name).value.name == name
  {
    if fields != [] {
      FirstNamedFinds(fields[1..], name);
      assert fields == [fields[0]] + fields[1..];
    }
  }

  lemma {:induction false} InsertFirst(x: Field, sorted: seq<Field>, name: string)
    ensures FirstNamed(Insert(x, sorted, FieldKey), name) == if x.name == name then Some(x) else FirstNamed(sorted, name)
  {
    if sorted != [] && Less(sorted[0].name, x.name) {
      InsertFirst(x, sorted[1..], name);
      assert Insert(x, sorted, FieldKey)[1..] == Insert(x, sorted[1..], FieldKey);
      LessIrreflexive(x.name);
    } else {
      assert Insert(x, sorted, FieldKey)[1..] == sorted;
    }
  }

  lemma {:induction false} SortFirst(fields: seq<Field>, name: string)
    ensures FirstNamed(Sort(fields), name) == FirstNamed(fields, name)
  {
    if fields != [] {
      SortFirst(fields[1..], name);
      InsertFirst(fields[0], Sort(fields[1..]), name);
    }
  }

  lemma {:induction false} CompactIsShape(fields: seq<Field>)
    requires AreSorted(fields, FieldKey)
    ensures IsShape(Compact(fields))
    ensures fields != [] ==> Compact(fields) != [] && Compact(fields)[0] == fields[0]
    ensures forall f :: f in Compact(fields) ==> f in fields
    decreases |fields|
  {
    if |fields| >= 2 {
      if fields[0].name == fields[1].name {
        var shorter := [fields[0]] + fields[2..];
        assert forall i, j :: 0 <= i < j < |shorter| ==>
          shorter[i] == fields[if i == 0 then 0 else i + 1] && shorter[j] == fields[j + 1];
        CompactIsShape(shorter);
        assert forall f :: f in shorter ==> f in fields;
      } else {
        CompactIsShape(fields[1..]);
        forall f | f in Compact(fields[1..]) ensures Less(fields[0].name, f.name) {
          var j :| 1 <= j < |fields| && fields[j] == f;
          LessTotal(fields[0].name, fields[1].name);
          if Less(f.name, fields[1].name) || f.name == fields[1].name {
          } else {
            LessTotal(f.name, fields[1].name);
            LessTransitive(fields[0].name, fields[1].name, f.name);
          }
        }
      }
    }
  }

  lemma {:induction false} CompactFirst(fields: seq<Field>, name: string)
    ensures FirstNamed(Compact(fields), name) == FirstNamed(fields, name)
    decreases |fields|
  {
    if |fields| >= 2 {
      if fields[0].name == fields[1].name {
        var shorter := [fields[0]] + fields[2..];
        CompactFirst(shorter, name);
        assert shorter[1..] == fields[2..] == fields[1..][1..];
      } else {
        CompactFirst(fields[1..], name);
        assert Compact(fields)[1..] == Compact(fields[1..]);
      }
    }
  }

  /**
   A shape is sorted, holds each declared name once, and keeps the first
   declaration of it.
   */
  lemma NewShapeKeepsFirst(fields: seq<Field>, name: string)
    ensures IsShape(NewShape(fields))
    ensures FirstNamed(NewShape(fields), name) == FirstNamed(fields, name)
  {
    SortSorts(fields, FieldKey);
    SortFirst(fields, name);
    CompactIsShape(Sort(fields));
    CompactFirst(Sort(fields), name);
  }

  lemma NewShapeNames(fields: seq<Field>)
    ensures Names(NewShape(fields)) == Names(fields)
    ensures forall f :: f in NewShape(fields) ==> f in fields
  {
    forall name ensures name in Names(NewShape(fields)) <==> name in Names(fields) {
      NewShapeKeepsFirst(fields, name);
      FirstNamedFinds(fields, name);
      FirstNamedFinds(NewShape(fields), name);
    }
    SortSorts(fields, FieldKey);
    CompactIsShape(Sort(fields));
    forall f | f in NewShape(fields) ensures f in fields {
      assert f in multiset(Sort(fields));
    }
  }

  /** In a shape a name has one field, so any field under it is the first. */
  lemma {:induction false} ShapeHolds(fields: seq<Field>, f: Field)
    requires IsShape(fields) && f in fields
    ensures FirstNamed(fields, f.name) == Some(f)
  {
    if fields[0].name == f.name {
      if fields[0] != f {
        var j :| 0 < j < |fields| && fields[j] == f;
        LessIrreflexive(f.name);
      }
    } else {
      ShapeHolds(fields[1..], f);
    }
  }

  /** Two shapes with the same members are the same list. */
  lemma {:induction false} ShapesAgree(a: seq<Field>, b: seq<Field>)
    requires IsShape(a) && IsShape(b)
    requires forall f :: f in a <==> f in b
    ensures a == b
  {
    assert a != [] ==> a[0] in b;
    assert b != [] ==> b[0] in a;
    if a != [] && b != [] {
      assert a[0] in b && b[0] in a;
      if a[0] != b[0] {
        LessAsymmetric(a[0].name, b[0].name);
      }
      LessIrreflexive(a[0].name);
      assert a == [a[0]] + a[1..] && b == [b[0]] + b[1..];
      forall f ensures f in a[1..] <==> f in b[1..] {
        assert f in a[1..] ==> f in a && f != a[0];
        assert f in b[1..] ==> f in b && f != b[0];
      }
      ShapesAgree(a[1..], b[1..]);
    }
  }

  // ------------------------------------------------------------------ Lookup

  /** `slices.BinarySearchFunc` over the sorted members. */
  method Lookup(fields: seq<Field>, name: string) returns (found: Option<Field>)
    requires IsShape(fields)
    ensures found == FirstNamed(fields, name)
  {
    var low, high := 0, |fields|;
    while low < high
      invariant 0 <= low <= high <= |fields|
      invariant forall i :: 0 <= i < low ==> Less(fields[i].name, name)
      invariant forall i :: high <= i < |fields| ==> !Less(fields[i].name, name)
    {
      var mid := (low + high) / 2;
      if Less(fields[mid].name, name) {
        forall i | 0 <= i < mid ensures Less(fields[i].name, name) {
          LessTransitive(fields[i].name, fields[mid].name, name);
        }
        low := mid + 1;
      } else {
        forall i | mid < i < |fields| ensures !Less(fields[i].name, name) {
          LessAsymmetric(fields[mid].name, fields[i].name);
          NotLessTransitive(fields[i].name, fields[mid].name, name);
        }
        high := mid;
      }
    }
    FirstNamedFinds(fields, name);
    LessIrreflexive(name);
    if low < |fields| && fields[low].name == name {
      ShapeHolds(fields, fields[low]);
      return Some(fields[low]);
    }
    forall f | f in fields ensures f.name != name {
      var i :| 0 <= i < |fields| && fields[i] == f;
      if low < i { LessAsymmetric(fields[low].name, fields[i].name); }
    }
    return None;
  }

  // ------------------------------------------------------------------ unions

  function DepthAfter(depth: int, c: char): int {
    if c == '{' || c == '(' || c == '[' || c == '<' then depth + 1
    else if c == '}' || c == ')' || c == ']' || c == '>' then depth - 1
    else depth
  }

  /** The members from here on, the first of them already holding `member`. */
  function SplitFrom(s: string, depth: int, member: string): (ms: seq<string>)
    ensures ms != []
    decreases |s|
  {
    if s == "" then [member]
    else if s[0] == '|' && depth == 0 then [member] + SplitFrom(s[1..], 0, "")
    else SplitFrom(s[1..], DepthAfter(depth, s[0]), member + [s[0]])
  }

  function SplitUnion(s: string): (ms: seq<string>)
    ensures ms != []
  {
    SplitFrom(s, 0, "")
  }

  function JoinUnion(ms: seq<string>): string
    requires ms != []
  {
    if |ms| == 1 then ms[0] else ms[0] + "|" + JoinUnion(ms[1..])
  }

  lemma {:induction false} JoinSplitFrom(s: string, depth: int, member: string)
    ensures JoinUnion(SplitFrom(s, depth, member)) == member + s
    decreases |s|
  {
    if s == "" {
    } else if s[0] == '|' && depth == 0 {
      JoinSplitFrom(s[1..], 0, "");
      var more := SplitFrom(s[1..], 0, "");
      assert ([member] + more)[1..] == more;
      assert s == "|" + s[1..];
    } else {
      JoinSplitFrom(s[1..], DepthAfter(depth, s[0]), member + [s[0]]);
      assert s == [s[0]] + s[1..];
    }
  }

  /** Joining undoes splitting, on every text. */
  lemma JoinSplit(s: string)
    ensures JoinUnion(SplitUnion(s)) == s
  {
    JoinSplitFrom(s, 0, "");
  }

  /** How many brackets a text opens, less those it closes: what its end is inside of. */
  function Level(s: string): int {
    Among(s, "{([<") - Among(s, "})]>")
  }

  function Among(s: string, marks: string): nat {
    if s == "" then 0 else Among(s[..|s| - 1], marks) + if s[|s| - 1] in marks then 1 else 0
  }

  /** No bar of the text stands outside its brackets. */
  predicate HasNoOuterBar(m: string) {
    forall i :: 0 <= i < |m| && m[i] == '|' ==> Level(m[..i]) != 0
  }

  /** Every member is free of bars outside brackets, and every one but the last ends outside them. */
  predicate AreMembers(ms: seq<string>) {
    && (forall k :: 0 <= k < |ms| ==> HasNoOuterBar(ms[k]))
    && (forall k :: 0 <= k < |ms| - 1 ==> Level(ms[k]) == 0)
  }

  lemma LevelAfter(m: string, c: char)
    ensures Level(m + [c]) == DepthAfter(Level(m), c)
    ensures HasNoOuterBar(m) && !(c == '|' && Level(m) == 0) ==> HasNoOuterBar(m + [c])
  {
    assert (m + [c])[..|m|] == m;
    forall i | 0 <= i < |m| ensures (m + [c])[..i] == m[..i] {
    }
  }

  lemma {:induction false} SplitFromMembers(s: string, member: string)
    requires HasNoOuterBar(member)
    ensures AreMembers(SplitFrom(s, Level(member), member))
    decreases |s|
  {
    hide Level, HasNoOuterBar;
    if s == "" {
    } else if s[0] == '|' && Level(member) == 0 {
      NothingIsLevel();
      SplitFromMembers(s[1..], "");
    } else {
      LevelAfter(member, s[0]);
      SplitFromMembers(s[1..], member + [s[0]]);
    }
  }

  lemma NothingIsLevel()
    ensures Level("") == 0 && HasNoOuterBar("")
  {
  }

  /** It splits at the bars outside brackets, and at every one of them. */
  lemma SplitMembers(s: string)
    ensures AreMembers(SplitUnion(s))
  {
    NothingIsLevel();
    SplitFromMembers(s, "");
  }

  /** Up to its next bar outside brackets a text is one member. */
  lemma {:induction false} MemberGrows(a: string, rest: string, member: string)
    requires HasNoOuterBar(member + a)
    ensures SplitFrom(a + rest, Level(member), member) == SplitFrom(rest, Level(member + a), member + a)
    decreases |a|
  {
    hide Level;
    if a == "" {
      assert a + rest == rest && member + a == member;
    } else {
      assert (member + a)[|member|] == a[0] && (member + a)[..|member|] == member;
      assert (a + rest)[1..] == a[1..] + rest && member + [a[0]] + a[1..] == member + a;
      assert forall i :: 0 <= i < |member| ==> (member + a)[i] == member[i] && (member + a)[..i] == member[..i];
      LevelAfter(member, a[0]);
      MemberGrows(a[1..], rest, member + [a[0]]);
    }
  }

  lemma MemberEnds(m: string, rest: string)
    requires HasNoOuterBar(m)
    ensures SplitUnion(m) == [m]
    ensures Level(m) == 0 ==> SplitUnion(m + "|" + rest) == [m] + SplitUnion(rest)
  {
    NothingIsLevel();
    assert "" + m == m && m + "" == m && m + "|" + rest == m + ("|" + rest);
    MemberGrows(m, "", "");
    MemberGrows(m, "|" + rest, "");
    assert ("|" + rest)[1..] == rest;
  }

  /** Splitting undoes joining for members like those, and for no others. */
  lemma {:induction false} SplitJoinIff(ms: seq<string>)
    requires ms != []
    ensures SplitUnion(JoinUnion(ms)) == ms <==> AreMembers(ms)
  {
    SplitMembers(JoinUnion(ms));
    if AreMembers(ms) { SplitJoin(ms); }
  }

  lemma {:induction false} SplitJoin(ms: seq<string>)
    requires ms != [] && AreMembers(ms)
    ensures SplitUnion(JoinUnion(ms)) == ms
  {
    hide Level, HasNoOuterBar, SplitUnion;
    if |ms| == 1 {
      MemberEnds(ms[0], "");
    } else {
      MemberEnds(ms[0], JoinUnion(ms[1..]));
      SplitJoin(ms[1..]);
      assert ms == [ms[0]] + ms[1..];
    }
  }

  lemma SplitFromStep(s: string, i: nat, start: nat, depth: int)
    requires start <= i < |s|
    ensures SplitFrom(s[i..], depth, s[start..i]) ==
      if s[i] == '|' && depth == 0 then [s[start..i]] + SplitFrom(s[i + 1..], 0, s[i + 1..i + 1])
      else SplitFrom(s[i + 1..], DepthAfter(depth, s[i]), s[start..i + 1])
  {
    assert s[i..][1..] == s[i + 1..] && s[start..i + 1] == s[start..i] + [s[i]] && s[i + 1..i + 1] == "";
  }

  lemma SplitFromEnd(depth: int, member: string)
    ensures SplitFrom("", depth, member) == [member]
  {
  }

  method SplitTopLevelUnion(canonical: string) returns (members: seq<string>)
    ensures members == SplitUnion(canonical)
  {
    hide SplitFrom;
    members := [];
    var depth, start := 0, 0;
    assert canonical[0..] == canonical && canonical[0..0] == "";
    for i := 0 to |canonical|
      invariant 0 <= start <= i
      invariant members + SplitFrom(canonical[i..], depth, canonical[start..i]) == SplitUnion(canonical)
    {
      var c := canonical[i];
      SplitFromStep(canonical, i, start, depth);
      if c == '{' || c == '(' || c == '[' || c == '<' {
        depth := depth + 1;
      } else if c == '}' || c == ')' || c == ']' || c == '>' {
        depth := depth - 1;
      } else if c == '|' {
        if depth == 0 {
          members := members + [canonical[start..i]];
          start := i + 1;
        }
      }
    }
    SplitFromEnd(depth, canonical[start..]);
    assert canonical[start..|canonical|] == canonical[start..] && canonical[|canonical|..] == "";
    members := members + [canonical[start..]];
  }
}

/**
 internal/types/shape.go: when one type, and one shape, can stand in for another.
 */
module Assignability {
  import opened Wrappers
  import opened Text
  import opened Sorting
  import opened Canonical
  import opened CanonicalForms
  import opened CanonicalScan
  import opened Shapes

  // ----------------------------------------------------------- assignability

  function Members(ts: string): set<string> {
    set m | m in SplitUnion(CanonicalTS(ts))
  }

  /** `unknown` takes anything; otherwise the source may not widen the union. */
  predicate Assignable(target: string, source: string) {
    CanonicalTS(target) == "unknown" || Members(source) <= Members(target)
  }

  method AssignableTS(target: string, source: string) returns (ok: bool)
    ensures ok <==> Assignable(target, source)
  {
    var wantedText := Canonicalize(target);
    var givenText := Canonicalize(source);
    if wantedText == givenText { return true; }
    if wantedText == "unknown" { return true; }
    var wantedMembers := SplitTopLevelUnion(wantedText);
    var wanted: set<string> := {};
    for i := 0 to |wantedMembers|
      invariant wanted == set m | m in wantedMembers[..i]
    {
      wanted := wanted + {wantedMembers[i]};
    }
    assert wantedMembers[..|wantedMembers|] == wantedMembers;
    var given := SplitTopLevelUnion(givenText);
    for i := 0 to |given|
      invariant forall j :: 0 <= j < i ==> given[j] in wanted
    {
      if given[i] !in wanted {
        assert given[i] in Members(source);
        return false;
      }
    }
    return true;
  }

  /** However the two are laid out: the canonical source's members are all among the target's, or it is `unknown`. */
  lemma AssignableIff(target: string, source: string, wanted: seq<string>, given: seq<string>)
    requires wanted != [] && AreMembers(wanted) && CanonicalTS(target) == JoinUnion(wanted)
    requires given != [] && AreMembers(given) && CanonicalTS(source) == JoinUnion(given)
    ensures Assignable(target, source) <==> JoinUnion(wanted) == "unknown" || forall m :: m in given ==> m in wanted
  {
    hide AreMembers, CanonicalTS;
    SplitJoin(wanted);
    SplitJoin(given);
    assert forall m :: m in Members(target) <==> m in wanted;
    assert forall m :: m in Members(source) <==> m in given;
  }

  // -------------------------------------------------------------- violations

  datatype ViolationKind = Missing | MayBeAbsent | WrongType

  datatype Violation = Violation(kind: ViolationKind, field: string, want: string, got: string)

  /** What one wanted field has against the field supplied for it. */
  function FieldViolations(want: Field, got: Option<Field>): seq<Violation> {
    match got
    case None => if want.optional then [] else [Violation(Missing, want.name, want.ts, "")]
    case Some(g) =>
      (if !want.optional && g.optional then [Violation(MayBeAbsent, want.name, "always present", "optional")] else []) +
      (if Assignable(want.ts, g.ts) then [] else [Violation(WrongType, want.name, want.ts, g.ts)])
  }

  function ViolationsOf(target: seq<Field>, source: seq<Field>): seq<Violation> {
    if target == [] then []
    else FieldViolations(target[0], FirstNamed(source, target[0].name)) + ViolationsOf(target[1..], source)
  }

  predicate Satisfies(target: seq<Field>, source: seq<Field>) {
    ViolationsOf(target, source) == []
  }

  function FieldOf(v: Violation): string { v.field }

  lemma FieldViolationsNamed(want: Field, got: Option<Field>, v: Violation)
    requires v in FieldViolations(want, got)
    ensures v.field == want.name
  {
  }

  lemma {:induction false} ViolationsNamed(target: seq<Field>, source: seq<Field>, v: Violation)
    requires v in ViolationsOf(target, source)
    ensures exists f :: f in target && f.name == v.field
  {
    hide FieldViolations;
    var first := FieldViolations(target[0], FirstNamed(source, target[0].name));
    if v in first {
      FieldViolationsNamed(target[0], FirstNamed(source, target[0].name), v);
      assert target[0] in target;
    } else {
      ViolationsNamed(target[1..], source, v);
    }
  }

  lemma {:induction false} ViolationsAreSorted(target: seq<Field>, source: seq<Field>)
    requires IsShape(target)
    ensures AreSorted(ViolationsOf(target, source), FieldOf)
  {
    if target != [] {
      hide FieldViolations;
      var name := target[0].name;
      var first, rest := FieldViolations(target[0], FirstNamed(source, name)), ViolationsOf(target[1..], source);
      ViolationsAreSorted(target[1..], source);
      forall v | v in first ensures v.field == name {
        FieldViolationsNamed(target[0], FirstNamed(source, name), v);
      }
      LessIrreflexive(name);
      forall w | w in rest ensures !Less(w.field, name) {
        ViolationsNamed(target[1..], source, w);
        var f :| f in target[1..] && f.name == w.field;
        LessAsymmetric(name, f.name);
      }
    }
  }

  /** The body of the loop: what one wanted field adds. */
  method FieldViolationsOf(want: Field, source: seq<Field>) returns (out: seq<Violation>)
    requires IsShape(source)
    ensures out == FieldViolations(want, FirstNamed(source, want.name))
  {
    hide FirstNamed, Assignable, IsShape;
    var found := Lookup(source, want.name);
    if found.None? {
      return if want.optional then [] else [Violation(Missing, want.name, want.ts, "")];
    }
    var got := found.value;
    out := [];
    if !want.optional && got.optional {
      out := out + [Violation(MayBeAbsent, want.name, "always present", "optional")];
    }
    var ok := AssignableTS(want.ts, got.ts);
    if !ok {
      out := out + [Violation(WrongType, want.name, want.ts, got.ts)];
    }
  }

  method Violations(target: seq<Field>, source: seq<Field>) returns (out: seq<Violation>)
    requires IsShape(target) && IsShape(source)
    ensures out == ViolationsOf(target, source)
  {
    hide FieldViolations, FirstNamed;
    out := [];
    assert target[0..] == target;
    for i := 0 to |target|
      invariant out + ViolationsOf(target[i..], source) == ViolationsOf(target, source)
    {
      assert target[i..][1..] == target[i + 1..];
      var more := FieldViolationsOf(target[i], source);
      out := out + more;
    }
    assert target[|target|..] == [] && out + [] == out;
    ViolationsAreSorted(target, source);
    SortedStays(out, FieldOf);
    out := SortBy(out, FieldOf);
  }

  /** One wanted field is met: absent only if optional, present at a type that fits. */
  predicate FieldMet(want: Field, got: Option<Field>) {
    match got
    case None => want.optional
    case Some(g) => (g.optional ==> want.optional) && Assignable(want.ts, g.ts)
  }

  lemma {:induction false} SatisfiesIff(target: seq<Field>, source: seq<Field>)
    ensures Satisfies(target, source) <==>
      forall want :: want in target ==> FieldMet(want, FirstNamed(source, want.name))
  {
    if target != [] {
      hide FieldViolations, FieldMet, FirstNamed;
      var first := FieldViolations(target[0], FirstNamed(source, target[0].name));
      var rest := ViolationsOf(target[1..], source);
      assert |ViolationsOf(target, source)| == |first| + |rest|;
      hide ViolationsOf;
      SatisfiesIff(target[1..], source);
    }
  }

  /** What one wanted field can have against a shape, and with which texts. */
  predicate IsAgainst(want: Field, got: Option<Field>, v: Violation) {
    || (v == Violation(Missing, want.name, want.ts, "") && got.None? && !want.optional)
    || (v == Violation(MayBeAbsent, want.name, "always present", "optional") && got.Some? && got.value.optional && !want.optional)
    || (got.Some? && v == Violation(WrongType, want.name, want.ts, got.value.ts) && !Assignable(want.ts, got.value.ts))
  }

  lemma FieldViolationsIff(want: Field, got: Option<Field>, v: Violation)
    ensures v in FieldViolations(want, got) <==> IsAgainst(want, got, v)
  {
    hide Assignable;
  }

  /** The violations are exactly these, of some wanted field. */
  lemma {:induction false} ViolationsIff(target: seq<Field>, source: seq<Field>, v: Violation)
    ensures v in ViolationsOf(target, source) <==>
      exists want :: want in target && IsAgainst(want, FirstNamed(source, want.name), v)
  {
    hide FieldViolations, IsAgainst, FirstNamed;
    if target != [] {
      ViolationsIff(target[1..], source, v);
      assert target == [target[0]] + target[1..];
      FieldViolationsIff(target[0], FirstNamed(source, target[0].name), v);
    }
  }

  lemma SatisfiesReflexive(shape: seq<Field>)
    requires IsShape(shape)
    ensures Satisfies(shape, shape)
  {
    forall f | f in shape ensures FieldMet(f, FirstNamed(shape, f.name)) {
      ShapeHolds(shape, f);
    }
    SatisfiesIff(shape, shape);
  }

  /** The middle shape settles every wanted field that is not `unknown` itself. */
  predicate Settles(middle: seq<Field>, want: Field) {
    CanonicalTS(want.ts) == "unknown" ||
    match FirstNamed(middle, want.name)
    case None => false
    case Some(m) => CanonicalTS(m.ts) != "unknown"
  }

  lemma SatisfiesTransitive(target: seq<Field>, middle: seq<Field>, source: seq<Field>)
    requires Satisfies(target, middle) && Satisfies(middle, source)
    requires forall want :: want in target ==> Settles(middle, want)
    ensures Satisfies(target, source)
  {
    SatisfiesIff(target, middle);
    SatisfiesIff(middle, source);
    forall want | want in target ensures FieldMet(want, FirstNamed(source, want.name)) {
      FirstNamedFinds(middle, want.name);
      if FirstNamed(middle, want.name).Some? {
        var m := FirstNamed(middle, want.name).value;
        assert FieldMet(m, FirstNamed(source, m.name));
      }
    }
    SatisfiesIff(target, source);
  }

  /** A type nothing of that length or shorter takes, unless it is `unknown`. */
  function Stranger(n: nat): (s: string)
    ensures |s| == n && forall i :: 0 <= i < n ==> s[i] == 'a'
  {
    seq(n, _ => 'a')
  }

  lemma {:induction false} MembersAreShort(ms: seq<string>, m: string)
    requires ms != [] && m in ms
    ensures |m| <= |JoinUnion(ms)|
  {
    if m != ms[0] { MembersAreShort(ms[1..], m); }
  }

  lemma StrangerIsNotAssignable(ts: string)
    requires CanonicalTS(ts) != "unknown"
    ensures !Assignable(ts, Stranger(|CanonicalTS(ts)| + 1))
  {
    var word := Stranger(|CanonicalTS(ts)| + 1);
    var layout := [Placed([], Word(word))];
    assert layout[1..] == [];
    assert Tokens(layout) == [Word(word)] && IsClean(Word(word));
    assert IsLayout(layout, false) && AreClean(Tokens(layout));
    assert FillersText([]) + Spelling(Word(word)) + LayoutText(layout[1..], [], "") == word;
    assert LayoutText(layout, [], "") == word;
    CanonicalIsNorm(layout, [], "");
    assert Norm([Word(word)]) == [Word(word)];
    assert Render([Word(word)], false) == "" + word + Render([], true) == word;
    SplitJoin([word]);
    assert word in Members(word);
    if word in Members(ts) {
      MembersAreShort(SplitUnion(CanonicalTS(ts)), word);
      JoinSplit(CanonicalTS(ts));
    }
  }

  /** A shape like `shape`, except that `name` is supplied, required, at type `ts`. */
  function Supplying(shape: seq<Field>, name: string, ts: string): seq<Field> {
    NewShape([Field(name, ts, false)] + shape)
  }

  lemma SupplyingLookup(shape: seq<Field>, name: string, ts: string, asked: string)
    ensures IsShape(Supplying(shape, name, ts))
    ensures FirstNamed(Supplying(shape, name, ts), asked)
         == if asked == name then Some(Field(name, ts, false)) else FirstNamed(shape, asked)
  {
    var declared := [Field(name, ts, false)] + shape;
    NewShapeKeepsFirst(declared, asked);
    assert declared[1..] == shape;
  }

  /** What the middle does not settle, some source it accepts gets wrong. */
  lemma UnsettledBreaks(target: seq<Field>, middle: seq<Field>, want: Field) returns (source: seq<Field>)
    requires IsShape(middle) && want in target && !Settles(middle, want)
    ensures IsShape(source) && Satisfies(middle, source) && !Satisfies(target, source)
  {
    var ts := Stranger(|CanonicalTS(want.ts)| + 1);
    source := Supplying(middle, want.name, ts);
    SupplyingLookup(middle, want.name, ts, want.name);
    StrangerIsNotAssignable(want.ts);
    assert !FieldMet(want, FirstNamed(source, want.name));
    SatisfiesIff(target, source);
    forall f | f in middle ensures FieldMet(f, FirstNamed(source, f.name)) {
      SupplyingLookup(middle, want.name, ts, f.name);
      ShapeHolds(middle, f);
    }
    SatisfiesIff(middle, source);
  }

  /**
   A shape that satisfies the target passes its own sources on exactly when it
   settles every field the target is not `unknown` about.
   */
  lemma SatisfiesComposesIff(target: seq<Field>, middle: seq<Field>)
    requires IsShape(middle) && Satisfies(target, middle)
    ensures (forall source :: IsShape(source) && Satisfies(middle, source) ==> Satisfies(target, source))
       <==> (forall want :: want in target ==> Settles(middle, want))
  {
    if forall want :: want in target ==> Settles(middle, want) {
      forall source | IsShape(source) && Satisfies(middle, source) ensures Satisfies(target, source) {
        SatisfiesTransitive(target, middle, source);
      }
    } else {
      var want :| want in target && !Settles(middle, want);
      var source := UnsettledBreaks(target, middle, want);
    }
  }
}

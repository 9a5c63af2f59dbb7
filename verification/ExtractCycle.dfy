/**
 What the guard of internal/types/extract.go can change: the type of a field, where
 which of two declarations comes first depends on how often a cycle is walked, and
 the names left unresolved on the way. And exactly when it changes no type.
 */
module ExtractCycle {
  import opened Wrappers
  import opened Text
  import opened Sorting
  import opened Shapes
  import opened Extract
  import opened ExtractGuard

  // ---------------------------------------------------------- what a program declares

  /** The fields a type node spells out are among these. */
  ghost predicate NodeWithin(node: TypeNode, all: iset<Field>)
    decreases node
  {
    match node
    case TypeLiteral(members) => forall f :: f in FieldsOf(members) ==> f in all
    case Intersection(arms) => forall i :: 0 <= i < |arms| ==> NodeWithin(arms[i], all)
    case _ => true
  }

  ghost predicate DeclarationWithin(d: Declaration, all: iset<Field>) {
    match d
    case Interface(members) => forall f :: f in FieldsOf(members) ==> f in all
    case Alias(node) => NodeWithin(node, all)
  }

  ghost predicate ProgramWithin(p: Program, all: iset<Field>) {
    forall path, i :: path in p.files && 0 <= i < |p.files[path].declarations| ==>
      DeclarationWithin(p.files[path].declarations[i].1, all)
  }

  lemma {:induction false} DeclaredIsThere(declarations: seq<(string, Declaration)>, name: string)
    requires Declared(declarations, name).Some?
    ensures exists i :: 0 <= i < |declarations| && declarations[i].1 == Declared(declarations, name).value
  {
    if declarations[0].0 != name {
      DeclaredIsThere(declarations[1..], name);
      var i :| 0 <= i < |declarations[1..]| && declarations[1..][i].1 == Declared(declarations, name).value;
      assert declarations[i + 1].1 == Declared(declarations, name).value;
    }
  }

  predicate AreWithin(fields: seq<Field>, all: iset<Field>) {
    forall f :: f in fields ==> f in all
  }

  lemma ShapeWithin(fields: seq<Field>, all: iset<Field>)
    requires AreWithin(fields, all)
    ensures AreWithin(NewShape(fields), all) && IsShape(NewShape(fields))
  {
    NewShapeNames(fields);
    NewShapeKeepsFirst(fields, "");
  }

  // Whatever a walk yields is a shape of what the program spells out.

  lemma {:induction false} NodeYields(p: Program, path: string, node: TypeNode, depth: nat, visited: set<Key>,
                                      guarded: bool, all: iset<Field>)
    requires path in p.files && ProgramWithin(p, all) && NodeWithin(node, all)
    ensures var r := OfNode(p, path, node, depth, visited, guarded); AreWithin(r.fields, all) && IsShape(r.fields)
    decreases Budget(depth), 2, 0
  {
    hide ProgramWithin, NewShape, FieldsOf, IsShape;
    NothingIsShape();
    if depth <= MAX_DEPTH {
      match node
      case TypeLiteral(members) => ShapeWithin(FieldsOf(members), all);
      case Reference(Some(name)) => ResolveYields(p, path, name, depth, visited, guarded, all);
      case Intersection(arms) =>
        ArmsYield(p, path, arms, depth + 1, visited, guarded, all);
        ShapeWithin(OfArms(p, path, arms, depth + 1, visited, guarded).fields, all);
      case _ =>
    }
  }

  lemma NothingIsShape()
    ensures IsShape([])
  {
  }

  lemma {:induction false} ArmsYield(p: Program, path: string, arms: seq<TypeNode>, depth: nat, visited: set<Key>,
                                     guarded: bool, all: iset<Field>)
    requires path in p.files && ProgramWithin(p, all) && forall i :: 0 <= i < |arms| ==> NodeWithin(arms[i], all)
    ensures AreWithin(OfArms(p, path, arms, depth, visited, guarded).fields, all)
    decreases Budget(depth), 3, |arms|
  {
    hide ProgramWithin, NodeWithin, IsShape, OfNode;
    if arms != [] {
      NodeYields(p, path, arms[0], depth, visited, guarded, all);
      ArmsYield(p, path, arms[1..], depth, visited, guarded, all);
    }
  }

  lemma {:induction false} ResolveYields(p: Program, path: string, name: string, depth: nat, visited: set<Key>,
                                         guarded: bool, all: iset<Field>)
    requires path in p.files && ProgramWithin(p, all)
    ensures var r := Resolve(p, path, name, depth, visited, guarded); AreWithin(r.fields, all) && IsShape(r.fields)
    decreases Budget(depth), 1, 0
  {
    hide NewShape, FieldsOf, OfNode, Declared, ImportOf, IsShape;
    NothingIsShape();
    if depth <= MAX_DEPTH && !(guarded && (path, name) in visited) {
      var visited' := if guarded then visited + {(path, name)} else visited;
      var found := Declared(p.files[path].declarations, name);
      if found.Some? {
        DeclaredIsThere(p.files[path].declarations, name);
        assert DeclarationWithin(found.value, all);
        match found.value
        case Interface(members) => ShapeWithin(FieldsOf(members), all);
        case Alias(node) => NodeYields(p, path, node, depth + 1, visited', guarded, all);
      } else {
        match ImportedFrom(p, path, name)
        case None =>
        case Some((target, exported)) =>
          if target in p.files { ResolveYields(p, target, exported, depth + 1, visited', guarded, all); }
      }
    }
  }

  // ------------------------------------------------------------ when no type changes

  /** Each name is spelled out with one type, and one optionality. */
  ghost predicate AreConsistent(all: iset<Field>) {
    forall f, g :: f in all && g in all && f.name == g.name && f.name != "" ==> f == g
  }

  /** Over every program that spells out no other fields, the guard changes none. */
  ghost predicate GuardKeepsTypes(all: iset<Field>) {
    forall p: Program, path: string, node: TypeNode, depth: nat ::
      path in p.files && ProgramWithin(p, all) && NodeWithin(node, all) ==>
        OfNode(p, path, node, depth, {}, true).fields == OfNode(p, path, node, depth, {}, false).fields
  }

  lemma {:induction false} FieldsAreNamed(members: seq<Member>)
    ensures forall f :: f in FieldsOf(members) ==> f.name != ""
  {
    if members != [] { FieldsAreNamed(members[1..]); }
  }

  ghost function Named(all: iset<Field>): iset<Field> {
    iset f | f in all && f.name != ""
  }

  lemma {:induction false} NodeWithinNamed(node: TypeNode, all: iset<Field>)
    requires NodeWithin(node, all)
    ensures NodeWithin(node, Named(all))
    decreases node
  {
    match node
    case TypeLiteral(members) => FieldsAreNamed(members);
    case Intersection(arms) =>
      forall i | 0 <= i < |arms| ensures NodeWithin(arms[i], Named(all)) { NodeWithinNamed(arms[i], all); }
    case _ =>
  }

  lemma ProgramWithinNamed(p: Program, all: iset<Field>)
    requires ProgramWithin(p, all)
    ensures ProgramWithin(p, Named(all))
  {
    forall path, i | path in p.files && 0 <= i < |p.files[path].declarations|
      ensures DeclarationWithin(p.files[path].declarations[i].1, Named(all))
    {
      match p.files[path].declarations[i].1
      case Interface(members) =>
        assert DeclarationWithin(p.files[path].declarations[i].1, all);
        FieldsAreNamed(members);
      case Alias(node) =>
        assert DeclarationWithin(p.files[path].declarations[i].1, all);
        NodeWithinNamed(node, all);
    }
  }

  lemma ConsistentKeepsTypes(p: Program, path: string, node: TypeNode, depth: nat, all: iset<Field>)
    requires path in p.files && ProgramWithin(p, all) && NodeWithin(node, all) && AreConsistent(all)
    ensures OfNode(p, path, node, depth, {}, true).fields == OfNode(p, path, node, depth, {}, false).fields
  {
    hide OfNode, IsShape;
    var a, b := OfNode(p, path, node, depth, {}, true).fields, OfNode(p, path, node, depth, {}, false).fields;
    ProgramWithinNamed(p, all);
    NodeWithinNamed(node, all);
    hide ProgramWithin, NodeWithin;
    NodeYields(p, path, node, depth, {}, true, Named(all));
    NodeYields(p, path, node, depth, {}, false, Named(all));
    GuardIsFree(p, path, node, depth);
    forall f ensures f in a <==> f in b {
      assert f in a ==> f.name in Names(a);
      assert f in b ==> f.name in Names(b);
    }
    ShapesAgree(a, b);
  }

  // ---------------------------------------------------------- a cycle that changes one

  function Declares(f: Field): Member {
    Property(f.name, Some(f.ts), f.optional)
  }

  /** A cyclic declaration's body: a name beside a literal that declares a field. */
  function Beside(name: string, f: Field): TypeNode {
    Intersection([Reference(Some(name)), TypeLiteral([Declares(f)])])
  }

  /** `A = B & { f }`, `B = C & { g }`, `C = A` */
  function Cycle(f: Field, g: Field): Program {
    Program(map["f" := SourceFile([("A", Alias(Beside("B", f))), ("B", Alias(Beside("C", g))),
                                   ("C", Alias(Reference(Some("A"))))], [])], map[])
  }

  lemma CycleDeclares(f: Field, g: Field)
    ensures var ds := Cycle(f, g).files["f"].declarations;
      && Declared(ds, "A") == Some(Alias(Beside("B", f))) && Declared(ds, "B") == Some(Alias(Beside("C", g)))
      && Declared(ds, "C") == Some(Alias(Reference(Some("A"))))
  {
    hide Beside;
    var ds := Cycle(f, g).files["f"].declarations;
    assert ds[1..] == [ds[1], ds[2]];
    assert ds[1..][1..] == [ds[2]];
    assert Declared(ds, "C") == Declared(ds[1..], "C") == Declared([ds[2]], "C");
  }

  lemma CycleWithin(f: Field, g: Field, all: iset<Field>)
    requires f in all && g in all && f.name != "" && g.name != ""
    ensures ProgramWithin(Cycle(f, g), all)
  {
    LiteralDeclares(f);
    LiteralDeclares(g);
    BesideWithin("B", f, all);
    BesideWithin("C", g, all);
  }

  lemma BesideWithin(name: string, f: Field, all: iset<Field>)
    requires f in all && f.name != ""
    ensures NodeWithin(Beside(name, f), all)
  {
    LiteralDeclares(f);
    var arms := [Reference(Some(name)), TypeLiteral([Declares(f)])];
    assert NodeWithin(arms[0], all) && NodeWithin(arms[1], all);
  }

  lemma LiteralDeclares(f: Field)
    requires f.name != ""
    ensures FieldsOf([Declares(f)]) == [f]
  {
    assert [Declares(f)][1..] == [];
  }

  lemma FirstOfTwo(a: Field, b: Field)
    requires a.name == b.name
    ensures NewShape([a, b]) == [a] && NewShape([a]) == [a]
  {
    LessIrreflexive(a.name);
    assert [a, b][1..] == [b] && [a, b][2..] == [] && [a][1..] == [];
    SortOne(a, FieldKey);
    SortOne(b, FieldKey);
    assert Sort([a, b]) == Insert(a, SortBy([b], FieldKey), FieldKey) == [a] + [b] == [a, b];
    assert Compact([a, b]) == Compact([a] + [a, b][2..]) == Compact([a]);
  }

  lemma LiteralAt(p: Program, f: Field, depth: nat, visited: set<Key>, guarded: bool)
    requires "f" in p.files && depth <= MAX_DEPTH && f.name != ""
    ensures OfArms(p, "f", [TypeLiteral([Declares(f)])], depth, visited, guarded) == Outcome([f], true, {}, [])
  {
    var arms := [TypeLiteral([Declares(f)])];
    assert arms[1..] == [];
    LiteralDeclares(f);
    FirstOfTwo(f, f);
  }

  lemma ArmsAt(p: Program, name: string, f: Field, depth: nat, visited: set<Key>, guarded: bool)
    requires "f" in p.files && depth <= MAX_DEPTH && f.name != ""
    ensures var r := Resolve(p, "f", name, depth, visited, guarded);
      var arms := OfArms(p, "f", [Reference(Some(name)), TypeLiteral([Declares(f)])], depth, visited, guarded);
      arms.fields == r.fields + [f] && arms.notes == r.notes + if r.found then [] else Note(name)
  {
    var arms := [Reference(Some(name)), TypeLiteral([Declares(f)])];
    LiteralAt(p, f, depth, visited, guarded);
    assert arms[1..] == [TypeLiteral([Declares(f)])];
    hide Resolve, NewShape, FieldsOf;
    var r := Resolve(p, "f", name, depth, visited, guarded);
    assert OfNode(p, "f", arms[0], depth, visited, guarded) == r;
    assert r.notes + [] == r.notes && r.notes + Note(name) + [] == r.notes + Note(name);
  }

  /** The name's own field if it has one, the literal's otherwise; the name noted if it is not found. */
  lemma BesideAt(p: Program, name: string, f: Field, got: Option<Field>, depth: nat, visited: set<Key>, guarded: bool)
    requires "f" in p.files && depth < MAX_DEPTH && f.name != "" && (got.Some? ==> got.value.name == f.name)
    requires var r := Resolve(p, "f", name, depth + 1, visited, guarded);
      r.found == got.Some? && r.fields == match got case None => [] case Some(g) => [g]
    ensures var r := OfNode(p, "f", Beside(name, f), depth, visited, guarded);
      && r.found && r.fields == [if got.Some? then got.value else f]
      && r.notes == Resolve(p, "f", name, depth + 1, visited, guarded).notes + if got.Some? then [] else Note(name)
  {
    ArmsAt(p, name, f, depth + 1, visited, guarded);
    ArmsAreFound(p, name, f, depth + 1, visited, guarded);
    hide Resolve, NewShape, FieldsOf, OfArms;
    if got.Some? {
      FirstOfTwo(got.value, f);
      assert [got.value] + [f] == [got.value, f];
    } else {
      FirstOfTwo(f, f);
      assert [] + [f] == [f];
    }
  }

  lemma ArmsAreFound(p: Program, name: string, f: Field, depth: nat, visited: set<Key>, guarded: bool)
    requires "f" in p.files && depth <= MAX_DEPTH && f.name != ""
    ensures OfArms(p, "f", [Reference(Some(name)), TypeLiteral([Declares(f)])], depth, visited, guarded).found
  {
    var arms := [Reference(Some(name)), TypeLiteral([Declares(f)])];
    LiteralAt(p, f, depth, visited, guarded);
    assert arms[1..] == [TypeLiteral([Declares(f)])];
    hide OfNode;
  }

  lemma BesidePastBound(p: Program, name: string, f: Field, visited: set<Key>, guarded: bool)
    requires "f" in p.files
    ensures OfNode(p, "f", Beside(name, f), MAX_DEPTH, visited, guarded) == Nothing
  {
    var arms := [Reference(Some(name)), TypeLiteral([Declares(f)])];
    var depth := MAX_DEPTH + 1;
    assert arms[1..][1..] == [];
    assert OfArms(p, "f", arms[1..], depth, visited, guarded) == Combine(Nothing, "", OfArms(p, "f", [], depth, visited, guarded));
    assert OfArms(p, "f", arms, depth, visited, guarded) == Nothing;
    assert NewShape([]) == [];
  }

  /** With the guard the field is declared by B and C is left unresolved, without it by A, and B. */
  lemma CycleChangesType(f: Field, g: Field)
    requires f.name == g.name != ""
    ensures var guarded := OfNode(Cycle(f, g), "f", Reference(Some("A")), 0, {}, true);
      guarded.fields == [g] && guarded.notes == ["C"]
    ensures var plain := OfNode(Cycle(f, g), "f", Reference(Some("A")), 0, {}, false);
      plain.fields == [f] && plain.notes == ["B"]
  {
    GuardedCycle(f, g);
    PlainCycle(f, g);
  }

  lemma GuardedCycle(f: Field, g: Field)
    requires f.name == g.name != ""
    ensures var r := OfNode(Cycle(f, g), "f", Reference(Some("A")), 0, {}, true); r.fields == [g] && r.notes == ["C"]
  {
    var p := Cycle(f, g);
    CycleDeclares(f, g);
    hide OfArms, Declared, Beside;
    // A, B, C, then A again, where the walk stops
    var a, b, c := {("f", "A")}, {("f", "A"), ("f", "B")}, {("f", "A"), ("f", "B"), ("f", "C")};
    assert Resolve(p, "f", "C", 4, b, true) == Nothing by {
      assert b + {("f", "C")} == c;
      assert OfNode(p, "f", Reference(Some("A")), 5, c, true) == Nothing;
    }
    BesideAt(p, "C", g, None, 3, b, true);
    var atB := Resolve(p, "f", "B", 2, a, true);
    assert atB.found && atB.fields == [g] && atB.notes == [] + ["C"] by {
      assert a + {("f", "B")} == b;
    }
    BesideAt(p, "B", f, Some(g), 1, a, true);
    assert {} + {("f", "A")} == a;
    assert ["C"] + [] == ["C"];
  }

  lemma PlainCycle(f: Field, g: Field)
    requires f.name == g.name != ""
    ensures var r := OfNode(Cycle(f, g), "f", Reference(Some("A")), 0, {}, false); r.fields == [f] && r.notes == ["B"]
  {
    var p := Cycle(f, g);
    CycleDeclares(f, g);
    hide OfArms, Declared, Beside;
    // the second B is one step past the bound, so A's literal comes first
    BesidePastBound(p, "C", g, {}, false);
    assert Resolve(p, "f", "B", 7, {}, false) == Nothing;
    BesideAt(p, "B", f, None, 6, {}, false);
    var atC := Resolve(p, "f", "C", 4, {}, false);
    assert atC == Resolve(p, "f", "A", 5, {}, false);
    assert atC.found && atC.fields == [f] && atC.notes == [] + ["B"];
    BesideAt(p, "C", g, Some(f), 3, {}, false);
    var atB := Resolve(p, "f", "B", 2, {}, false);
    assert atB.found && atB.fields == [f] && atB.notes == ["B"] + [];
    BesideAt(p, "B", f, Some(f), 1, {}, false);
    assert ["B"] + [] == ["B"];
  }

  /**
   The guard changes no field's type over any program that spells out only these fields
   exactly when they give each name one type and one optionality.
   */
  lemma GuardKeepsTypesIff(all: iset<Field>)
    ensures GuardKeepsTypes(all) <==> AreConsistent(all)
  {
    hide ProgramWithin, NodeWithin, OfNode;
    if AreConsistent(all) {
      forall p: Program, path: string, node: TypeNode, depth: nat
        | path in p.files && ProgramWithin(p, all) && NodeWithin(node, all)
        ensures OfNode(p, path, node, depth, {}, true).fields == OfNode(p, path, node, depth, {}, false).fields
      {
        ConsistentKeepsTypes(p, path, node, depth, all);
      }
    } else {
      var f, g :| f in all && g in all && f.name == g.name && f.name != "" && f != g;
      CycleWithin(f, g, all);
      CycleChangesType(f, g);
      ReferenceWithin("A", all);
    }
  }

  lemma ReferenceWithin(name: string, all: iset<Field>)
    ensures NodeWithin(Reference(Some(name)), all)
  {
  }
}

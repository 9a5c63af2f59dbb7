/**
 What an extraction yields, said without it: what lies on the routes that lead from a
 type node through arms, aliases and imports, no longer than the bound.
 */
module ExtractRoutes {
  import opened Wrappers
  import opened Text
  import opened Shapes
  import opened Extract
  import opened ExtractGuard

  // ------------------------------------------------------------- what a file says

  /** The field a property member stands for. */
  predicate IsProperty(m: Member, f: Field) {
    m.Property? && m.name == f.name && f.name != "" && m.optional == f.optional &&
    match m.ts
    case None => f.ts == "unknown"
    case Some(ts) => f.ts == ts
  }

  predicate Mentions(m: Member, name: string) {
    m.Property? && m.name == name
  }

  /** The first property of the name stands for this field. */
  ghost predicate SpellsFirst(members: seq<Member>, f: Field) {
    exists i :: 0 <= i < |members| && IsProperty(members[i], f) && forall j :: 0 <= j < i ==> !Mentions(members[j], f.name)
  }

  lemma SpellsLater(first: Member, rest: seq<Member>, f: Field)
    requires SpellsFirst(rest, f) && !Mentions(first, f.name)
    ensures SpellsFirst([first] + rest, f)
  {
    hide IsProperty, Mentions;
    var all := [first] + rest;
    var i :| 0 <= i < |rest| && IsProperty(rest[i], f) && forall j :: 0 <= j < i ==> !Mentions(rest[j], f.name);
    assert all[i + 1] == rest[i];
    forall j | 0 <= j < i + 1 ensures !Mentions(all[j], f.name) {
      assert j > 0 ==> all[j] == rest[j - 1];
    }
  }

  lemma SpelledLater(all: seq<Member>, f: Field)
    requires SpellsFirst(all, f) && !IsProperty(all[0], f)
    ensures !Mentions(all[0], f.name) && SpellsFirst(all[1..], f)
  {
    hide IsProperty, Mentions;
    var i :| 0 <= i < |all| && IsProperty(all[i], f) && forall j :: 0 <= j < i ==> !Mentions(all[j], f.name);
    assert i > 0 && all[1..][i - 1] == all[i];
    forall j | 0 <= j < i - 1 ensures !Mentions(all[1..][j], f.name) {
      assert all[1..][j] == all[j + 1];
    }
  }

  lemma SpellsFirstCons(first: Member, rest: seq<Member>, f: Field)
    ensures SpellsFirst([first] + rest, f) <==> IsProperty(first, f) || (!Mentions(first, f.name) && SpellsFirst(rest, f))
  {
    hide IsProperty, Mentions;
    var all := [first] + rest;
    assert all[0] == first && all[1..] == rest;
    if IsProperty(first, f) { assert IsProperty(all[0], f); }
    hide SpellsFirst;
    if SpellsFirst(rest, f) && !Mentions(first, f.name) { SpellsLater(first, rest, f); }
    if SpellsFirst(all, f) && !IsProperty(first, f) { SpelledLater(all, f); }
  }

  lemma {:induction false} MembersSpell(members: seq<Member>, name: string, f: Field)
    ensures FirstNamed(FieldsOf(members), name) == Some(f) <==> f.name == name && SpellsFirst(members, f)
  {
    if members != [] {
      var first, rest := members[0], members[1..];
      assert members == [first] + rest;
      MembersSpell(rest, name, f);
      FirstOfMember(first, FieldsOf(rest), name);
      SpellsFirstCons(first, rest, f);
      hide SpellsFirst, FirstNamed;
    }
  }

  lemma FirstOfMember(m: Member, rest: seq<Field>, name: string)
    ensures FirstNamed(MemberFields(m) + rest, name) ==
      if Mentions(m, name) && name != "" then
        Some(Field(name, if m.ts.Some? then m.ts.value else "unknown", m.optional))
      else FirstNamed(rest, name)
  {
    if MemberFields(m) == [] {
      assert [] + rest == rest;
    } else {
      assert (MemberFields(m) + rest)[1..] == rest;
    }
  }

  /** The first declaration of the name. */
  ghost predicate Declares(declarations: seq<(string, Declaration)>, name: string, d: Declaration) {
    exists i :: 0 <= i < |declarations| && declarations[i] == (name, d) && forall j :: 0 <= j < i ==> declarations[j].0 != name
  }

  lemma {:induction false} DeclaredIff(declarations: seq<(string, Declaration)>, name: string, d: Declaration)
    ensures Declared(declarations, name) == Some(d) <==> Declares(declarations, name, d)
  {
    if declarations != [] {
      var rest := declarations[1..];
      DeclaredIff(rest, name, d);
      if Declares(rest, name, d) && declarations[0].0 != name {
        var i :| 0 <= i < |rest| && rest[i] == (name, d) && forall j :: 0 <= j < i ==> rest[j].0 != name;
        assert declarations[i + 1] == (name, d);
      }
      if Declares(declarations, name, d) {
        var i :| 0 <= i < |declarations| && declarations[i] == (name, d) && forall j :: 0 <= j < i ==> declarations[j].0 != name;
        if i > 0 {
          assert rest[i - 1] == (name, d);
          assert declarations[0].0 != name;
        }
      }
      if declarations[0].0 == name && declarations[0].1 == d { assert declarations[0] == (name, d); }
    }
  }

  /** `local`, or `exported as local`. */
  predicate BindsAs(e: ImportSpecifier, local: string, exported: string) {
    e == ImportSpecifier(local, Some(exported)) || (e == ImportSpecifier(local, None) && exported == local)
  }

  predicate Binds(i: Import, local: string) {
    i.NamedImport? && exists k :: 0 <= k < |i.elements| && i.elements[k].bound == local
  }

  /** The first of the import's specifiers that binds the name binds it to this export. */
  predicate ImportsAs(i: Import, local: string, exported: string) {
    i.NamedImport? &&
    exists k :: 0 <= k < |i.elements| && BindsAs(i.elements[k], local, exported) &&
      forall j :: 0 <= j < k ==> i.elements[j].bound != local
  }

  lemma BindsCons(first: ImportSpecifier, rest: seq<ImportSpecifier>, local: string)
    ensures Binds(NamedImport("", [first] + rest), local) <==> first.bound == local || Binds(NamedImport("", rest), local)
  {
    var all := NamedImport("", [first] + rest);
    if first.bound == local { assert all.elements[0].bound == local; }
    if Binds(NamedImport("", rest), local) {
      var k :| 0 <= k < |rest| && rest[k].bound == local;
      assert all.elements[k + 1].bound == local;
    }
  }

  lemma BindsBound(e: ImportSpecifier, local: string, exported: string)
    ensures BindsAs(e, local, exported) ==> e.bound == local
  {
  }

  lemma ImportsAsFirst(first: ImportSpecifier, rest: seq<ImportSpecifier>, local: string, exported: string)
    requires first.bound == local
    ensures ImportsAs(NamedImport("", [first] + rest), local, exported) <==> BindsAs(first, local, exported)
  {
    hide BindsAs;
    var all := [first] + rest;
    if BindsAs(first, local, exported) { assert BindsAs(all[0], local, exported); }
    if ImportsAs(NamedImport("", all), local, exported) {
      var k :| 0 <= k < |all| && BindsAs(all[k], local, exported) && forall j :: 0 <= j < k ==> all[j].bound != local;
      assert all[0] == first;
    }
  }

  lemma ImportsLater(first: ImportSpecifier, rest: seq<ImportSpecifier>, local: string, exported: string)
    requires first.bound != local && ImportsAs(NamedImport("", rest), local, exported)
    ensures ImportsAs(NamedImport("", [first] + rest), local, exported)
  {
    hide BindsAs;
    var all := [first] + rest;
    var k :| 0 <= k < |rest| && BindsAs(rest[k], local, exported) && forall j :: 0 <= j < k ==> rest[j].bound != local;
    assert all[k + 1] == rest[k];
    forall j | 0 <= j < k + 1 ensures all[j].bound != local {
      assert j > 0 ==> all[j] == rest[j - 1];
    }
  }

  lemma ImportedLater(all: seq<ImportSpecifier>, local: string, exported: string)
    requires all != [] && all[0].bound != local && ImportsAs(NamedImport("", all), local, exported)
    ensures ImportsAs(NamedImport("", all[1..]), local, exported)
  {
    hide BindsAs;
    var k :| 0 <= k < |all| && BindsAs(all[k], local, exported) && forall j :: 0 <= j < k ==> all[j].bound != local;
    BindsBound(all[k], local, exported);
    assert all[1..][k - 1] == all[k];
    forall j | 0 <= j < k - 1 ensures all[1..][j].bound != local {
      assert all[1..][j] == all[j + 1];
    }
  }

  lemma NoImports(local: string, exported: string)
    ensures !ImportsAs(NamedImport("", []), local, exported) && !Binds(NamedImport("", []), local)
  {
  }

  lemma {:induction false} ExportedIff(elements: seq<ImportSpecifier>, local: string, exported: string)
    ensures ExportedAs(elements, local) == Some(exported) <==> ImportsAs(NamedImport("", elements), local, exported)
    ensures ExportedAs(elements, local).Some? <==> Binds(NamedImport("", elements), local)
  {
    if elements == [] {
      NoImports(local, exported);
    } else {
      hide Binds, ImportsAs;
      ExportedIff(elements[1..], local, exported);
      BindsCons(elements[0], elements[1..], local);
      if elements[0].bound == local {
        ImportsAsFirst(elements[0], elements[1..], local, exported);
      } else {
        if ImportsAs(NamedImport("", elements[1..]), local, exported) {
          ImportsLater(elements[0], elements[1..], local, exported);
        }
        if ImportsAs(NamedImport("", elements), local, exported) { ImportedLater(elements, local, exported); }
      }
      assert elements == [elements[0]] + elements[1..];
    }
  }

  /** The first import that binds the name, from this module, under this export. */
  ghost predicate ImportsFrom(imports: seq<Import>, local: string, specifier: string, exported: string) {
    exists i :: 0 <= i < |imports| && ImportsAs(imports[i], local, exported) && imports[i].specifier == specifier &&
      forall j :: 0 <= j < i ==> !Binds(imports[j], local)
  }

  lemma SpecifierAside(i: Import, local: string, exported: string)
    requires i.NamedImport?
    ensures ImportsAs(i, local, exported) <==> ImportsAs(NamedImport("", i.elements), local, exported)
    ensures Binds(i, local) <==> Binds(NamedImport("", i.elements), local)
  {
  }

  lemma {:induction false} ImportIff(imports: seq<Import>, local: string, specifier: string, exported: string)
    ensures ImportOf(imports, local) == Some((specifier, exported)) <==> ImportsFrom(imports, local, specifier, exported)
  {
    if imports != [] {
      hide ExportedAs, ImportsAs, Binds;
      var first, rest := imports[0], imports[1..];
      ImportIff(rest, local, specifier, exported);
      FirstImport(first, local, exported);
      assert forall i :: 0 <= i < |rest| ==> imports[i + 1] == rest[i];
      if ImportsFrom(rest, local, specifier, exported) && !Binds(first, local) {
        var i :| 0 <= i < |rest| && ImportsAs(rest[i], local, exported) && rest[i].specifier == specifier &&
          forall j :: 0 <= j < i ==> !Binds(rest[j], local);
        assert ImportsAs(imports[i + 1], local, exported);
      }
      if ImportsFrom(imports, local, specifier, exported) {
        var i :| 0 <= i < |imports| && ImportsAs(imports[i], local, exported) && imports[i].specifier == specifier &&
          forall j :: 0 <= j < i ==> !Binds(imports[j], local);
        if i > 0 {
          assert ImportsAs(rest[i - 1], local, exported);
          assert !Binds(imports[0], local);
        }
      }
      if ImportsAs(first, local, exported) && first.specifier == specifier { assert ImportsAs(imports[0], local, exported); }
    }
  }

  lemma FirstImport(i: Import, local: string, exported: string)
    ensures i.OtherImport? ==> !Binds(i, local) && !ImportsAs(i, local, exported)
    ensures i.NamedImport? ==> (ExportedAs(i.elements, local) == Some(exported) <==> ImportsAs(i, local, exported))
    ensures i.NamedImport? ==> (ExportedAs(i.elements, local).Some? <==> Binds(i, local))
    ensures ImportsAs(i, local, exported) ==> Binds(i, local)
  {
    if i.NamedImport? {
      ExportedIff(i.elements, local, exported);
      SpecifierAside(i, local, exported);
    }
  }

  /** The name is not declared, and its first import leads to an export of a file that can be read. */
  ghost predicate Follows(p: Program, path: string, local: string, target: string, exported: string) {
    && path in p.files && target in p.files
    && (forall d :: !Declares(p.files[path].declarations, local, d))
    && exists specifier ::
         ImportsFrom(p.files[path].imports, local, specifier, exported) &&
         (path, specifier) in p.modules && p.modules[(path, specifier)] == target
  }

  lemma FollowsIff(p: Program, path: string, local: string, target: string, exported: string)
    requires path in p.files
    ensures Follows(p, path, local, target, exported) <==>
      Declared(p.files[path].declarations, local).None? && target in p.files &&
      ImportedFrom(p, path, local) == Some((target, exported))
  {
    hide Declared, ImportOf, Declares, ImportsFrom;
    var ds, imports := p.files[path].declarations, p.files[path].imports;
    forall d ensures Declared(ds, local) == Some(d) <==> Declares(ds, local, d) { DeclaredIff(ds, local, d); }
    forall specifier: string, e: string
      ensures ImportOf(imports, local) == Some((specifier, e)) <==> ImportsFrom(imports, local, specifier, e)
    {
      ImportIff(imports, local, specifier, e);
    }
    if ImportedFrom(p, path, local) == Some((target, exported)) {
      var (specifier, e) := ImportOf(imports, local).value;
      assert ImportsFrom(imports, local, specifier, e);
    }
  }

  // ----------------------------------------------------------------- routes

  /** A type node where the walk may come. */
  datatype Spot = Spot(path: string, node: TypeNode, depth: nat)

  /** From here one step on: to an arm, to what an alias stands for, to what is imported. */
  ghost predicate StepsTo(p: Program, a: Spot, b: Spot) {
    a.depth <= MAX_DEPTH && a.path in p.files && b.depth == a.depth + 1 &&
    match a.node
    case Intersection(arms) => b.path == a.path && b.node in arms
    case Reference(Some(name)) =>
      (b.path == a.path && Declares(p.files[a.path].declarations, name, Alias(b.node))) || Imports(p, a, b)
    case _ => false
  }

  ghost predicate Imports(p: Program, a: Spot, b: Spot) {
    a.node.Reference? && a.node.name.Some? && b.node.Reference? && b.node.name.Some? &&
    Follows(p, a.path, a.node.name.value, b.path, b.node.name.value)
  }

  ghost predicate IsRoute(p: Program, route: seq<Spot>) {
    |route| > 0 && forall i :: 0 <= i < |route| - 1 ==> StepsTo(p, route[i], route[i + 1])
  }

  /** The members spelled out here: a literal's, or a declared interface's. */
  ghost predicate Holds(p: Program, a: Spot, members: seq<Member>) {
    a.path in p.files &&
    match a.node
    case TypeLiteral(spelled) => spelled == members
    case Reference(Some(name)) => Declares(p.files[a.path].declarations, name, Interface(members))
    case _ => false
  }

  predicate Spell(members: seq<Member>, name: string) {
    name != "" && exists i :: 0 <= i < |members| && Mentions(members[i], name)
  }

  /** What a spot yields by itself. */
  ghost predicate Shows(p: Program, a: Spot, y: Yield) {
    a.depth <= MAX_DEPTH && a.path in p.files &&
    match y
    case FieldName(name) => exists members :: Holds(p, a, members) && Spell(members, name)
    case Found => exists members :: Holds(p, a, members)
    case Source(path) => exists b: Spot :: Imports(p, a, b) && b.path == path
    case Missing(name) => a.node == Reference(Some(name)) && IsNowhere(p, name)
  }

  /** No file declares the name or imports it from a file that can be read. */
  ghost predicate IsNowhere(p: Program, name: string) {
    name != "" && forall path :: path in p.files ==>
      (forall d :: !Declares(p.files[path].declarations, name, d)) &&
      (forall target, exported :: !Follows(p, path, name, target, exported))
  }

  ghost predicate Reaches(p: Program, a: Spot, y: Yield) {
    exists route :: IsRoute(p, route) && route[0] == a && Shows(p, route[|route| - 1], y)
  }

  lemma ReachesHere(p: Program, a: Spot, y: Yield)
    requires Shows(p, a, y)
    ensures Reaches(p, a, y)
  {
    var route := [a];
    assert IsRoute(p, route) && route[0] == a;
  }

  lemma ReachesOn(p: Program, a: Spot, b: Spot, y: Yield)
    requires StepsTo(p, a, b) && Reaches(p, b, y)
    ensures Reaches(p, a, y)
  {
    hide StepsTo, Shows;
    var route :| IsRoute(p, route) && route[0] == b && Shows(p, route[|route| - 1], y);
    var longer := [a] + route;
    forall i | 0 <= i < |longer| - 1 ensures StepsTo(p, longer[i], longer[i + 1]) {
      if i > 0 { assert StepsTo(p, route[i - 1], route[i - 1 + 1]); }
    }
    assert IsRoute(p, longer) && longer[0] == a && longer[|longer| - 1] == route[|route| - 1];
  }

  lemma ReachesFrom(p: Program, a: Spot, y: Yield)
    requires Reaches(p, a, y)
    ensures Shows(p, a, y) || exists b :: StepsTo(p, a, b) && Reaches(p, b, y)
  {
    hide StepsTo, Shows;
    var route :| IsRoute(p, route) && route[0] == a && Shows(p, route[|route| - 1], y);
    if |route| > 1 {
      var rest := route[1..];
      assert forall i :: 0 <= i < |rest| ==> rest[i] == route[i + 1];
      assert IsRoute(p, rest) && rest[0] == route[1] && rest[|rest| - 1] == route[|route| - 1];
      assert StepsTo(p, a, route[1]) && Reaches(p, route[1], y);
    }
  }

  // -------------------------------------------------- the walk finds what routes lead to

  function Yielded(p: Program, a: Spot): set<Yield>
    requires a.path in p.files
  {
    Yields(p, OfNode(p, a.path, a.node, a.depth, {}, false))
  }

  lemma {:induction false} ArmsYieldIff(p: Program, path: string, arms: seq<TypeNode>, depth: nat, y: Yield)
    requires path in p.files
    ensures y in Yields(p, OfArms(p, path, arms, depth, {}, false)) <==>
      exists i :: 0 <= i < |arms| && y in Yielded(p, Spot(path, arms[i], depth))
  {
    NothingYields(p);
    hide OfNode, Yields;
    if arms != [] {
      ArmsYieldIff(p, path, arms[1..], depth, y);
      YieldsOfArms(p, path, arms, depth, {}, false);
      assert forall i :: 0 <= i < |arms| - 1 ==> arms[1..][i] == arms[i + 1];
      if y in Yielded(p, Spot(path, arms[0], depth)) { assert 0 < |arms|; }
      if i :| 0 <= i < |arms| - 1 && y in Yielded(p, Spot(path, arms[1..][i], depth)) {
        assert y in Yielded(p, Spot(path, arms[i + 1], depth));
      }
      if i :| 0 < i < |arms| && y in Yielded(p, Spot(path, arms[i], depth)) {
        assert y in Yielded(p, Spot(path, arms[1..][i - 1], depth));
      }
    }
  }

  /** Members that are spelled out yield their names, and that something was found. */
  lemma MembersYield(p: Program, members: seq<Member>, y: Yield)
    ensures y in Yields(p, Outcome(NewShape(FieldsOf(members)), true, {}, [])) <==>
      y == Found || (y.FieldName? && Spell(members, y.name))
  {
    var fields := FieldsOf(members);
    NewShapeNames(fields);
    if y.FieldName? {
      assert y in Yields(p, Outcome(NewShape(fields), true, {}, [])) <==> y.name in Names(NewShape(fields));
      FieldsName(members, y.name);
    }
  }

  lemma {:induction false} FieldsName(members: seq<Member>, name: string)
    ensures name in Names(FieldsOf(members)) <==> Spell(members, name)
  {
    if members != [] {
      FieldsName(members[1..], name);
      assert forall i :: 0 <= i < |members| - 1 ==> members[1..][i] == members[i + 1];
      if Spell(members[1..], name) {
        var i :| 0 <= i < |members| - 1 && Mentions(members[1..][i], name);
        assert Mentions(members[i + 1], name);
      }
      if Spell(members, name) && !Mentions(members[0], name) {
        var i :| 0 <= i < |members| && Mentions(members[i], name);
        assert Mentions(members[1..][i - 1], name);
      }
      if Spell(members, name) && Mentions(members[0], name) {
        assert MemberFields(members[0])[0].name == name;
        assert MemberFields(members[0])[0] in FieldsOf(members);
      }
    }
  }

  lemma NowhereIff(p: Program, name: string)
    ensures IsNowhere(p, name) <==> IsDead(p, name)
  {
    hide Declared, ImportedFrom, Declares, Follows;
    forall path | path in p.files
      ensures (forall d :: !Declares(p.files[path].declarations, name, d)) <==>
              Declared(p.files[path].declarations, name).None?
    {
      forall d ensures Declared(p.files[path].declarations, name) == Some(d) <==>
                       Declares(p.files[path].declarations, name, d)
      {
        DeclaredIff(p.files[path].declarations, name, d);
      }
    }
    forall path, target: string, exported: string | path in p.files
      ensures Follows(p, path, name, target, exported) <==>
        Declared(p.files[path].declarations, name).None? && target in p.files &&
        ImportedFrom(p, path, name) == Some((target, exported))
    {
      FollowsIff(p, path, name, target, exported);
    }
  }

  /** A node yields what it shows, and what any step from it does. */
  lemma {:induction false} YieldsIff(p: Program, a: Spot, y: Yield)
    requires a.path in p.files
    ensures y in Yielded(p, a) <==> Reaches(p, a, y)
    decreases Budget(a.depth)
  {
    hide Reaches, Yielded, StepsTo, Shows, Yields;
    if Reaches(p, a, y) { ReachesFrom(p, a, y); }
    if Shows(p, a, y) { ReachesHere(p, a, y); }
    forall b | StepsTo(p, a, b) ensures b.path in p.files { StepIsDeeper(p, a, b); }
    forall b | StepsTo(p, a, b) ensures y in Yielded(p, b) <==> Reaches(p, b, y) {
      StepIsDeeper(p, a, b);
      YieldsIff(p, b, y);
    }
    forall b | StepsTo(p, a, b) && Reaches(p, b, y) ensures Reaches(p, a, y) { ReachesOn(p, a, b, y); }
    YieldsHere(p, a, y);
  }

  lemma StepIsDeeper(p: Program, a: Spot, b: Spot)
    requires StepsTo(p, a, b)
    ensures a.depth <= MAX_DEPTH && b.depth == a.depth + 1 && b.path in p.files
  {
  }

  lemma YieldsHere(p: Program, a: Spot, y: Yield)
    requires a.path in p.files
    ensures y in Yielded(p, a) <==> Shows(p, a, y) || exists b :: StepsTo(p, a, b) && b.path in p.files && y in Yielded(p, b)
  {
    NothingYields(p);
    hide Yields, Declares, Follows, OfArms, Resolve, NewShape, FieldsOf, Spell, IsNowhere;
    if a.depth <= MAX_DEPTH {
      match a.node
      case TypeLiteral(members) =>
        MembersYield(p, members, y);
        LiteralShows(p, a, members, y);
      case Intersection(arms) =>
        YieldsOfShape(p, OfArms(p, a.path, arms, a.depth + 1, {}, false));
        ArmsYieldIff(p, a.path, arms, a.depth + 1, y);
        ArmsStep(p, a, arms, y);
      case Reference(Some(name)) =>
        ReferenceYields(p, a, name, y);
      case _ =>
    }
  }

  lemma LiteralShows(p: Program, a: Spot, members: seq<Member>, y: Yield)
    requires a.path in p.files && a.depth <= MAX_DEPTH && a.node == TypeLiteral(members)
    ensures Shows(p, a, y) <==> y == Found || (y.FieldName? && Spell(members, y.name))
    ensures forall b :: !StepsTo(p, a, b)
  {
    hide Spell;
    assert Holds(p, a, members);
    assert forall others :: Holds(p, a, others) ==> others == members;
  }

  lemma ArmsStep(p: Program, a: Spot, arms: seq<TypeNode>, y: Yield)
    requires a.path in p.files && a.depth <= MAX_DEPTH && a.node == Intersection(arms)
    ensures !Shows(p, a, y)
    ensures (exists i :: 0 <= i < |arms| && y in Yielded(p, Spot(a.path, arms[i], a.depth + 1))) <==>
      exists b :: StepsTo(p, a, b) && b.path in p.files && y in Yielded(p, b)
  {
    hide Yielded;
    if i :| 0 <= i < |arms| && y in Yielded(p, Spot(a.path, arms[i], a.depth + 1)) {
      assert StepsTo(p, a, Spot(a.path, arms[i], a.depth + 1));
    }
    if b :| StepsTo(p, a, b) && b.path in p.files && y in Yielded(p, b) {
      var i :| 0 <= i < |arms| && arms[i] == b.node;
      assert b == Spot(a.path, arms[i], a.depth + 1);
    }
  }

  lemma ReferenceYields(p: Program, a: Spot, name: string, y: Yield)
    requires a.path in p.files && a.depth <= MAX_DEPTH && a.node == Reference(Some(name))
    ensures y in Yielded(p, a) <==> Shows(p, a, y) || exists b :: StepsTo(p, a, b) && b.path in p.files && y in Yielded(p, b)
  {
    hide Declared, ImportedFrom, Declares, Follows, Yields, NewShape, FieldsOf, Spell, IsNowhere;
    var ds := p.files[a.path].declarations;
    forall d ensures Declared(ds, name) == Some(d) <==> Declares(ds, name, d) { DeclaredIff(ds, name, d); }
    forall target: string, exported: string
      ensures Follows(p, a.path, name, target, exported) <==>
        Declared(ds, name).None? && target in p.files && ImportedFrom(p, a.path, name) == Some((target, exported))
    {
      FollowsIff(p, a.path, name, target, exported);
    }
    NowhereIff(p, name);
    match Declared(ds, name)
    case Some(Interface(members)) =>
      assert OfNode(p, a.path, a.node, a.depth, {}, false) == Outcome(NewShape(FieldsOf(members)), true, {}, []);
      MembersYield(p, members, y);
      InterfaceShows(p, a, name, members, y);
    case Some(Alias(node)) =>
      AliasShows(p, a, name, node, y);
    case None =>
      NothingYields(p);
      UndeclaredShows(p, a, name, y);
  }

  lemma InterfaceShows(p: Program, a: Spot, name: string, members: seq<Member>, y: Yield)
    requires a.path in p.files && a.depth <= MAX_DEPTH && a.node == Reference(Some(name))
    requires Declares(p.files[a.path].declarations, name, Interface(members))
    ensures Shows(p, a, y) <==> y == Found || (y.FieldName? && Spell(members, y.name))
    ensures forall b :: !StepsTo(p, a, b)
  {
    hide Spell;
    var ds := p.files[a.path].declarations;
    forall d | Declares(ds, name, d) ensures d == Interface(members) {
      DeclaredIff(ds, name, d);
      DeclaredIff(ds, name, Interface(members));
    }
    hide Declares;
    assert Holds(p, a, members);
    assert forall others :: Holds(p, a, others) ==> others == members;
  }

  lemma AliasShows(p: Program, a: Spot, name: string, node: TypeNode, y: Yield)
    requires a.path in p.files && a.depth <= MAX_DEPTH && a.node == Reference(Some(name))
    requires Declares(p.files[a.path].declarations, name, Alias(node))
    ensures !Shows(p, a, y)
    ensures forall b :: StepsTo(p, a, b) <==> b == Spot(a.path, node, a.depth + 1)
    ensures Yielded(p, a) == Yielded(p, Spot(a.path, node, a.depth + 1))
  {
    var ds := p.files[a.path].declarations;
    forall d | Declares(ds, name, d) ensures d == Alias(node) {
      DeclaredIff(ds, name, d);
      DeclaredIff(ds, name, Alias(node));
    }
    DeclaredIff(ds, name, Alias(node));
    hide Declares, Yields;
    assert OfNode(p, a.path, a.node, a.depth, {}, false) == OfNode(p, a.path, node, a.depth + 1, {}, false);
  }

  lemma UndeclaredShows(p: Program, a: Spot, name: string, y: Yield)
    requires a.path in p.files && a.depth <= MAX_DEPTH && a.node == Reference(Some(name))
    requires Declared(p.files[a.path].declarations, name).None?
    ensures y in Yielded(p, a) <==> Shows(p, a, y) || exists b :: StepsTo(p, a, b) && b.path in p.files && y in Yielded(p, b)
  {
    hide *;
    var ds := p.files[a.path].declarations;
    forall d ensures !Declares(ds, name, d) { DeclaredIff(ds, name, d); }
    forall target: string, exported: string
      ensures Follows(p, a.path, name, target, exported) <==>
        target in p.files && ImportedFrom(p, a.path, name) == Some((target, exported))
    {
      FollowsIff(p, a.path, name, target, exported);
    }
    var from := ImportedFrom(p, a.path, name);
    if from.Some? && from.value.0 in p.files {
      ImportShows(p, a, name, from.value.0, from.value.1, y);
    } else {
      NowhereShows(p, a, name, y);
    }
  }

  lemma ImportShows(p: Program, a: Spot, name: string, target: string, exported: string, y: Yield)
    requires a.path in p.files && a.depth <= MAX_DEPTH && a.node == Reference(Some(name)) && target in p.files
    requires Declared(p.files[a.path].declarations, name).None? && ImportedFrom(p, a.path, name) == Some((target, exported))
    requires forall d :: !Declares(p.files[a.path].declarations, name, d)
    requires forall t, e :: Follows(p, a.path, name, t, e) <==> t == target && e == exported
    ensures y in Yielded(p, a) <==> Shows(p, a, y) || exists b :: StepsTo(p, a, b) && b.path in p.files && y in Yielded(p, b)
  {
    NotNowhere(p, a.path, name, target, exported);
    hide Declares, Follows, Yields, ImportedFrom, Spell, IsNowhere, Declared;
    var b := Spot(target, Reference(Some(exported)), a.depth + 1);
    var r := Resolve(p, target, exported, b.depth, {}, false);
    assert OfNode(p, target, b.node, b.depth, {}, false) == r;
    assert OfNode(p, a.path, a.node, a.depth, {}, false) == r.(sources := {target} + r.sources);
    YieldsOfSources(p, r, target);
    hide OfNode, Resolve;
    assert Imports(p, a, b);
    assert forall c :: StepsTo(p, a, c) <==> c == b;
    assert Shows(p, a, y) <==> y == Source(target);
  }

  lemma NowhereShows(p: Program, a: Spot, name: string, y: Yield)
    requires a.path in p.files && a.depth <= MAX_DEPTH && a.node == Reference(Some(name))
    requires Declared(p.files[a.path].declarations, name).None?
    requires ImportedFrom(p, a.path, name).None? || ImportedFrom(p, a.path, name).value.0 !in p.files
    requires forall d :: !Declares(p.files[a.path].declarations, name, d)
    requires forall t, e :: !Follows(p, a.path, name, t, e)
    ensures y in Yielded(p, a) <==> Shows(p, a, y) || exists b :: StepsTo(p, a, b) && b.path in p.files && y in Yielded(p, b)
  {
    NowhereIff(p, name);
    NotedYields(p, name);
    hide Declares, Follows, Yields, ImportedFrom, Spell, IsNowhere, IsDead, Declared;
    assert OfNode(p, a.path, a.node, a.depth, {}, false) == Nothing.(notes := Note(name));
    hide OfNode, Resolve;
    assert forall c :: !StepsTo(p, a, c);
    assert Shows(p, a, y) <==> y == Missing(name) && IsNowhere(p, name);
  }

  lemma NotNowhere(p: Program, path: string, name: string, target: string, exported: string)
    requires Follows(p, path, name, target, exported)
    ensures !IsNowhere(p, name)
  {
    hide Declares;
  }

  lemma NotedYields(p: Program, name: string)
    ensures Yields(p, Nothing.(notes := Note(name))) == if IsDead(p, name) then {Missing(name)} else {}
  {
    hide Declared, ImportedFrom;
  }

  /**
   The walk, guarded as it is, finds exactly what some route leads to: the names of the
   members spelled out, that there are any, each file imported from, and each name that
   leads nowhere.
   */
  lemma WalkFinds(p: Program, path: string, node: TypeNode, depth: nat)
    requires path in p.files
    ensures var r, a := OfNode(p, path, node, depth, {}, true), Spot(path, node, depth);
      && (forall name :: name in Names(r.fields) <==> Reaches(p, a, FieldName(name)))
      && (r.found <==> Reaches(p, a, Found))
      && (forall s :: s in r.sources <==> Reaches(p, a, Source(s)))
      && (forall n :: IsNowhere(p, n) ==> (n in r.notes <==> Reaches(p, a, Missing(n))))
  {
    var plain, a := OfNode(p, path, node, depth, {}, false), Spot(path, node, depth);
    GuardIsFree(p, path, node, depth);
    hide OfNode, Reaches, IsDead, IsNowhere, Yields;
    forall y ensures y in Yields(p, plain) <==> Reaches(p, a, y) { YieldsIff(p, a, y); }
    forall name ensures name in Names(plain.fields) <==> Reaches(p, a, FieldName(name)) { YieldsHold(p, plain, name); }
    YieldsHold(p, plain, "");
    forall s ensures s in plain.sources <==> Reaches(p, a, Source(s)) { YieldsHold(p, plain, s); }
    forall n | IsNowhere(p, n) ensures IsDead(p, n) && (n in plain.notes <==> Reaches(p, a, Missing(n))) {
      NowhereIff(p, n);
      YieldsHold(p, plain, n);
    }
  }

  lemma YieldsHold(p: Program, r: Outcome, x: string)
    ensures x in Names(r.fields) <==> FieldName(x) in Yields(p, r)
    ensures r.found <==> Found in Yields(p, r)
    ensures x in r.sources <==> Source(x) in Yields(p, r)
    ensures IsDead(p, x) ==> (x in r.notes <==> Missing(x) in Yields(p, r))
  {
    hide IsDead;
  }

  /**
   A name imported from a file that declares the export as an interface is found: with
   that file among the sources, and for each name the first member that declares it.
   */
  lemma ImportIsFollowed(p: Program, path: string, local: string, target: string, exported: string,
                         members: seq<Member>, depth: nat, f: Field)
    requires depth < MAX_DEPTH && Follows(p, path, local, target, exported)
    requires Declares(p.files[target].declarations, exported, Interface(members))
    ensures var r := OfNode(p, path, Reference(Some(local)), depth, {}, true);
      && r.found && r.sources == {target}
      && (FirstNamed(r.fields, f.name) == Some(f) <==> SpellsFirst(members, f))
  {
    FollowsIff(p, path, local, target, exported);
    DeclaredIff(p.files[target].declarations, exported, Interface(members));
    assert path != target || local != exported;
    hide Declares, Follows, ImportedFrom, Declared, SpellsFirst, NewShape, FieldsOf;
    NewShapeKeepsFirst(FieldsOf(members), f.name);
    MembersSpell(members, f.name, f);
    var there := Resolve(p, target, exported, depth + 1, {(path, local)}, true);
    assert there == Outcome(NewShape(FieldsOf(members)), true, {}, []);
    assert {} + {(path, local)} == {(path, local)} && {target} + {} == {target};
    assert Resolve(p, path, local, depth, {}, true) == there.(sources := {target} + there.sources);
  }

  /** Of two arms that have a name, the first gives it its field. */
  lemma {:induction false} FirstArmWins(p: Program, path: string, arms: seq<TypeNode>, depth: nat, visited: set<Key>,
                                        guarded: bool, name: string, i: nat)
    requires path in p.files && i < |arms|
    requires name in Names(OfNode(p, path, arms[i], depth, visited, guarded).fields)
    requires forall j :: 0 <= j < i ==> name !in Names(OfNode(p, path, arms[j], depth, visited, guarded).fields)
    ensures FirstNamed(OfArms(p, path, arms, depth, visited, guarded).fields, name)
         == FirstNamed(OfNode(p, path, arms[i], depth, visited, guarded).fields, name)
  {
    hide OfNode;
    var first, rest := OfNode(p, path, arms[0], depth, visited, guarded), OfArms(p, path, arms[1..], depth, visited, guarded);
    FirstNamedAppend(first.fields, rest.fields, name);
    FirstNamedFinds(first.fields, name);
    if i > 0 { FirstArmWins(p, path, arms[1..], depth, visited, guarded, name, i - 1); }
  }

  lemma {:induction false} FirstNamedAppend(a: seq<Field>, b: seq<Field>, name: string)
    ensures FirstNamed(a + b, name) == if FirstNamed(a, name).Some? then FirstNamed(a, name) else FirstNamed(b, name)
  {
    if a == [] {
      assert a + b == b;
    } else {
      assert (a + b)[1..] == a[1..] + b;
      FirstNamedAppend(a[1..], b, name);
    }
  }

  /** And an intersection's own shape keeps it. */
  lemma IntersectionTakesFirst(p: Program, path: string, arms: seq<TypeNode>, depth: nat, visited: set<Key>, guarded: bool,
                               name: string, i: nat)
    requires path in p.files && i < |arms| && depth <= MAX_DEPTH
    requires name in Names(OfNode(p, path, arms[i], depth + 1, visited, guarded).fields)
    requires forall j :: 0 <= j < i ==> name !in Names(OfNode(p, path, arms[j], depth + 1, visited, guarded).fields)
    ensures FirstNamed(OfNode(p, path, Intersection(arms), depth, visited, guarded).fields, name)
         == FirstNamed(OfNode(p, path, arms[i], depth + 1, visited, guarded).fields, name)
  {
    FirstArmWins(p, path, arms, depth + 1, visited, guarded, name, i);
    NewShapeKeepsFirst(OfArms(p, path, arms, depth + 1, visited, guarded).fields, name);
    hide OfArms;
  }
}

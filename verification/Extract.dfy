/**
 internal/types/extract.go: following a component's props type through the
 declarations of a program, which may refer to each other in cycles.

 Resolve and its companions say what a resolution yields, with the source's
 guard against a type that refers to itself or without it; the class runs it the
 way the source does, on three mutable fields.
 */
module Extract {
  import opened Wrappers
  import opened Text
  import opened Shapes

  // ----------------------------------------------------- the program as parsed

  datatype Member =
    | Property(name: string, ts: Option<string>, optional: bool)
    | OtherMember

  datatype TypeNode =
    | TypeLiteral(members: seq<Member>)
    | Reference(name: Option<string>)
    | Intersection(arms: seq<TypeNode>)
    | ArmlessIntersection
    | OtherNode

  datatype Declaration =
    | Interface(members: seq<Member>)
    | Alias(node: TypeNode)

  datatype ImportSpecifier = ImportSpecifier(bound: string, property: Option<string>)

  datatype Import =
    | NamedImport(specifier: string, elements: seq<ImportSpecifier>)
    | OtherImport

  datatype SourceFile = SourceFile(declarations: seq<(string, Declaration)>, imports: seq<Import>)

  /** The files a reader answers for, and where each specifier leads from each file. */
  datatype Program = Program(files: map<string, SourceFile>, modules: map<(string, string), string>)

  /** `maxTypeResolutionDepth` */
  const MAX_DEPTH: nat := 8

  // -------------------------------------------------------------- small readers

  /** What one member says about a named prop: nothing, unless it is a property. */
  function MemberFields(member: Member): seq<Field> {
    match member
    case OtherMember => []
    case Property(name, ts, optional) =>
      if name == "" then []
      else [Field(name, if ts.Some? then ts.value else "unknown", optional)]
  }

  function FieldsOf(members: seq<Member>): seq<Field> {
    if members == [] then [] else MemberFields(members[0]) + FieldsOf(members[1..])
  }

  lemma FieldsOfNext(members: seq<Member>, i: nat, fields: seq<Field>)
    requires i < |members|
    ensures fields + FieldsOf(members[i..]) == (fields + MemberFields(members[i])) + FieldsOf(members[i + 1..])
  {
    assert members[i..][1..] == members[i + 1..];
  }

  method MembersToFields(members: seq<Member>) returns (fields: seq<Field>)
    ensures fields == FieldsOf(members)
  {
    fields := [];
    assert members[0..] == members;
    for i := 0 to |members|
      invariant fields + FieldsOf(members[i..]) == FieldsOf(members)
    {
      var member := members[i];
      FieldsOfNext(members, i, fields);
      hide FieldsOf;
      if member.OtherMember? || member.name == "" {
        assert fields + [] == fields;
        continue;
      }
      var ts := "unknown";
      if member.ts.Some? { ts := member.ts.value; }
      fields := fields + [Field(member.name, ts, member.optional)];
    }
    assert fields + [] == fields;
  }

  function Declared(declarations: seq<(string, Declaration)>, name: string): Option<Declaration> {
    if declarations == [] then None
    else if declarations[0].0 == name then Some(declarations[0].1)
    else Declared(declarations[1..], name)
  }

  /** The name the first specifier binding `local` was exported under. */
  function ExportedAs(elements: seq<ImportSpecifier>, local: string): Option<string> {
    if elements == [] then None
    else if elements[0].bound == local then
      Some(if elements[0].property.Some? then elements[0].property.value else local)
    else ExportedAs(elements[1..], local)
  }

  /** The first import that binds `local`: its module and the name exported there. */
  function ImportOf(imports: seq<Import>, local: string): Option<(string, string)> {
    if imports == [] then None
    else if imports[0].NamedImport? && ExportedAs(imports[0].elements, local).Some? then
      Some((imports[0].specifier, ExportedAs(imports[0].elements, local).value))
    else ImportOf(imports[1..], local)
  }

  /** The file and name an import leads to, when its specifier resolves. */
  function ImportedFrom(p: Program, path: string, local: string): Option<(string, string)>
    requires path in p.files
  {
    match ImportOf(p.files[path].imports, local)
    case None => None
    case Some((specifier, exported)) =>
      if (path, specifier) in p.modules then Some((p.modules[(path, specifier)], exported)) else None
  }

  method FindImport(p: Program, path: string, local: string) returns (found: Option<(string, string)>)
    requires path in p.files
    ensures found == ImportedFrom(p, path, local)
  {
    var imports := p.files[path].imports;
    assert imports[0..] == imports;
    for i := 0 to |imports|
      invariant ImportOf(imports[i..], local) == ImportOf(imports, local)
    {
      assert imports[i..][1..] == imports[i + 1..];
      var decl := imports[i];
      if decl.OtherImport? { continue; }
      assert decl.elements[0..] == decl.elements;
      for j := 0 to |decl.elements|
        invariant ExportedAs(decl.elements[j..], local) == ExportedAs(decl.elements, local)
      {
        assert decl.elements[j..][1..] == decl.elements[j + 1..];
        var spec := decl.elements[j];
        if spec.bound != local { continue; }
        var exported := local;
        if spec.property.Some? { exported := spec.property.value; }
        if (path, decl.specifier) !in p.modules { return None; }
        return Some((p.modules[(path, decl.specifier)], exported));
      }
    }
    return None;
  }

  // ------------------------------------------------------------- what it yields

  /** A declaration on the current path: the file it is looked up in, and its name. */
  type Key = (string, string)

  /** fields and found are the answer; sources and notes are what it recorded. */
  datatype Outcome = Outcome(fields: seq<Field>, found: bool, sources: set<string>, notes: seq<string>)

  const Nothing := Outcome([], false, {}, [])

  /** The name a node gives itself, none past the bound. */
  function NameOf(node: TypeNode, depth: nat): string {
    if depth <= MAX_DEPTH && node.Reference? && node.name.Some? then node.name.value else ""
  }

  /** Alias and import steps left before the bound stops the walk. */
  function Budget(depth: nat): nat {
    if depth > MAX_DEPTH then 0 else MAX_DEPTH + 1 - depth
  }

  function Note(name: string): seq<string> {
    if name == "" then [] else [name]
  }

  /** `shapeOfTypeNode`; `guarded` says whether the self-reference guard is on. */
  function OfNode(p: Program, path: string, node: TypeNode, depth: nat, visited: set<Key>, guarded: bool): (r: Outcome)
    requires path in p.files
    ensures !r.found ==> r.fields == []
    decreases Budget(depth), 2, 0
  {
    if depth > MAX_DEPTH then Nothing
    else
      match node
      case TypeLiteral(members) => Outcome(NewShape(FieldsOf(members)), true, {}, [])
      case Reference(None) => Nothing
      case Reference(Some(name)) => Resolve(p, path, name, depth, visited, guarded)
      case ArmlessIntersection => Nothing
      case Intersection(arms) =>
        var r := OfArms(p, path, arms, depth + 1, visited, guarded);
        r.(fields := NewShape(r.fields))
      case OtherNode => Nothing
  }

  /** The loop over an intersection's arms, from the first of `arms` on. */
  function OfArms(p: Program, path: string, arms: seq<TypeNode>, depth: nat, visited: set<Key>, guarded: bool): (r: Outcome)
    requires path in p.files
    ensures !r.found ==> r.fields == []
    decreases Budget(depth), 3, |arms|
  {
    if arms == [] then Nothing
    else
      Combine(
        OfNode(p, path, arms[0], depth, visited, guarded), NameOf(arms[0], depth),
        OfArms(p, path, arms[1..], depth, visited, guarded))
  }

  /** An arm that resolves contributes; one that does not is noted and skipped. */
  function Combine(arm: Outcome, name: string, rest: Outcome): Outcome {
    if arm.found then
      Outcome(arm.fields + rest.fields, true, arm.sources + rest.sources, arm.notes + rest.notes)
    else
      Outcome(rest.fields, rest.found, arm.sources + rest.sources, arm.notes + Note(name) + rest.notes)
  }

  /** `resolveNamed` */
  function Resolve(p: Program, path: string, name: string, depth: nat, visited: set<Key>, guarded: bool): (r: Outcome)
    requires path in p.files
    ensures !r.found ==> r.fields == []
    decreases Budget(depth), 1, 0
  {
    if depth > MAX_DEPTH then Nothing
    else if guarded && (path, name) in visited then Nothing
    else
      var visited' := if guarded then visited + {(path, name)} else visited;
      match Declared(p.files[path].declarations, name)
      case Some(Interface(members)) => Outcome(NewShape(FieldsOf(members)), true, {}, [])
      case Some(Alias(node)) => OfNode(p, path, node, depth + 1, visited', guarded)
      case None =>
        match ImportedFrom(p, path, name)
        case None => Nothing.(notes := Note(name))
        case Some((target, exported)) =>
          if target !in p.files then Nothing.(notes := Note(name))
          else
            var r := Resolve(p, target, exported, depth + 1, visited', guarded);
            r.(sources := {target} + r.sources)
  }

  /** The text the source keys its guard by. */
  function KeyText(key: Key): string {
    key.0 + "#" + key.1
  }

  lemma NoHashAfter(a: Key, i: nat)
    requires '#' !in a.1 && |a.0| < i < |KeyText(a)|
    ensures KeyText(a)[i] != '#'
  {
    assert KeyText(a)[i] == a.1[i - |a.0| - 1];
  }

  /** It tells declarations apart, as type names are identifiers. */
  lemma KeyTextInjective(a: Key, b: Key)
    requires '#' !in a.1 && '#' !in b.1
    ensures KeyText(a) == KeyText(b) <==> a == b
  {
    if KeyText(a) == KeyText(b) {
      if |a.0| < |b.0| { NoHashAfter(a, |b.0|); }
      if |b.0| < |a.0| { NoHashAfter(b, |a.0|); }
      var s := KeyText(a);
      assert s[..|a.0|] == a.0 && s[|a.0| + 1..] == a.1;
      assert s[..|b.0|] == b.0 && s[|b.0| + 1..] == b.1;
    }
  }

  // ----------------------------------------------------------------- the resolver

  class Resolver {
    const program: Program
    var sources: set<string>
    var visited: set<Key>
    var unresolved: seq<string>

    constructor (program: Program, path: string)
      ensures this.program == program
      ensures sources == {path} && visited == {} && unresolved == []
    {
      this.program := program;
      sources, visited, unresolved := {path}, {}, [];
    }

    method NoteName(name: string)
      modifies this`unresolved
      ensures unresolved == old(unresolved) + Note(name)
    {
      if name != "" {
        unresolved := unresolved + [name];
      }
    }

    /** Whatever a resolution yields is returned or recorded, and `visited` is as it was. */
    twostate predicate Recorded(r: Outcome)
      reads this
    {
      sources == old(sources) + r.sources &&
      visited == old(visited) &&
      unresolved == old(unresolved) + r.notes
    }

    method ShapeOfTypeNode(path: string, node: TypeNode, depth: nat)
      returns (shape: seq<Field>, name: string, ok: bool)
      requires path in program.files
      modifies this
      ensures var r := OfNode(program, path, node, depth, old(visited), true);
        Recorded(r) && shape == r.fields && ok == r.found
      ensures name == NameOf(node, depth)
      decreases Budget(depth), 2, 0
    {
      if depth > MAX_DEPTH {
        return [], "", false;
      }
      match node
      case TypeLiteral(members) =>
        var fields := MembersToFields(members);
        return NewShape(fields), "", true;
      case Reference(None) =>
        return [], "", false;
      case Reference(Some(n)) =>
        shape, ok := ResolveNamed(path, n, depth);
        name := n;
      case ArmlessIntersection =>
        return [], "", false;
      case Intersection(arms) =>
        shape, ok := MergeArms(path, arms, depth + 1);
        shape, name := NewShape(shape), "";
      case OtherNode =>
        return [], "", false;
    }

    /** The body of the loop over an intersection's arms. */
    method MergeArm(path: string, arm: TypeNode, depth: nat) returns (shape: seq<Field>, ok: bool)
      requires path in program.files
      modifies this
      ensures var r := OneArm(program, path, arm, depth, old(visited));
        Recorded(r) && shape == r.fields && ok == r.found
      decreases Budget(depth), 2, 1
    {
      hide OfNode;
      var name;
      shape, name, ok := ShapeOfTypeNode(path, arm, depth);
      assert shape + [] == shape;
      ghost var r := OfNode(program, path, arm, depth, old(visited), true);
      assert r.notes + [] == r.notes && r.sources + {} == r.sources;
      if !ok {
        NoteName(name);
        assert r.notes + Note(name) + [] == r.notes + Note(name);
      }
    }

    method MergeArms(path: string, arms: seq<TypeNode>, depth: nat) returns (merged: seq<Field>, resolved: bool)
      requires path in program.files
      modifies this
      ensures var r := OfArms(program, path, arms, depth, old(visited), true);
        Recorded(r) && merged == r.fields && resolved == r.found
      decreases Budget(depth), 3, |arms|
    {
      merged, resolved := [], false;
      ghost var was, all := visited, OfArms(program, path, arms, depth, visited, true);
      ghost var done := Nothing;
      assert arms[0..] == arms;
      for i := 0 to |arms|
        invariant done.fields == merged && done.found == resolved
        invariant Recorded(done)
        invariant After(done, OfArms(program, path, arms[i..], depth, was, true)) == all
      {
        AfterArm(program, path, arms, i, depth, was, done);
        hide OfArms, OneArm;
        ghost var arm := OneArm(program, path, arms[i], depth, was);
        AppendsRegroup(old(unresolved), done.notes, arm.notes);
        AppendsRegroup(merged, arm.fields, []);
        UnionsRegroup(old(sources), done.sources, arm.sources);
        var shape, ok := MergeArm(path, arms[i], depth);
        done := After(done, arm);
        if !ok { continue; }
        resolved := true;
        merged := merged + shape;
      }
      assert After(done, Nothing) == done;
    }

    method ResolveNamed(path: string, name: string, depth: nat) returns (shape: seq<Field>, ok: bool)
      requires path in program.files
      modifies this
      ensures var r := Resolve(program, path, name, depth, old(visited), true);
        Recorded(r) && shape == r.fields && ok == r.found
      decreases Budget(depth), 1, 0
    {
      if depth > MAX_DEPTH {
        return [], false;
      }
      var key := (path, name);
      if key in visited {
        return [], false;
      }
      visited := visited + {key};
      var decl := Declared(program.files[path].declarations, name);
      if decl.Some? {
        shape, ok := ShapeOfDeclaration(path, decl.value, depth);
        visited := visited - {key};
        return;
      }
      var found := FindImport(program, path, name);
      if found.None? || found.value.0 !in program.files {
        NoteName(name);
        visited := visited - {key};
        return [], false;
      }
      var (target, exported) := found.value;
      sources := sources + {target};
      shape, ok := ResolveNamed(target, exported, depth + 1);
      visited := visited - {key};
    }

    /** `finish`: what was read and what was not followed, each sorted and once. */
    method Finish() returns (paths: seq<string>, names: seq<string>)
      ensures StrictlySorted(paths) && (set s | s in paths) == sources
      ensures StrictlySorted(names) && (set n | n in names) == (set n | n in unresolved)
    {
      paths := [];
      var left := sources;
      while left != {}
        invariant StrictlySorted(paths)
        invariant (set s | s in paths) + left == sources
      {
        var path :| path in left;
        InsertTextKeeps(path, paths);
        paths := InsertText(path, paths);
        left := left - {path};
      }
      names := [];
      for i := 0 to |unresolved|
        invariant StrictlySorted(names)
        invariant forall n :: n in names <==> n in unresolved[..i]
      {
        InsertTextKeeps(unresolved[i], names);
        names := InsertText(unresolved[i], names);
        assert unresolved[..i + 1] == unresolved[..i] + [unresolved[i]];
        assert forall n :: n in unresolved[..i + 1] <==> n == unresolved[i] || n in unresolved[..i];
      }
      assert unresolved[..|unresolved|] == unresolved;
    }

    method ShapeOfDeclaration(path: string, decl: Declaration, depth: nat) returns (shape: seq<Field>, ok: bool)
      requires path in program.files && depth <= MAX_DEPTH
      modifies this
      ensures var r := match decl
                       case Interface(members) => Outcome(NewShape(FieldsOf(members)), true, {}, [])
                       case Alias(node) => OfNode(program, path, node, depth + 1, old(visited), true);
        Recorded(r) && shape == r.fields && ok == r.found
      decreases Budget(depth), 0, 0
    {
      match decl
      case Interface(members) =>
        var fields := MembersToFields(members);
        return NewShape(fields), true;
      case Alias(node) =>
        var name;
        shape, name, ok := ShapeOfTypeNode(path, node, depth + 1);
    }
  }

  /** One outcome after another, as the loop over the arms accumulates them. */
  function After(done: Outcome, rest: Outcome): Outcome {
    Outcome(done.fields + rest.fields, done.found || rest.found, done.sources + rest.sources, done.notes + rest.notes)
  }

  /** One arm's share of an intersection. */
  function OneArm(p: Program, path: string, arm: TypeNode, depth: nat, visited: set<Key>): (r: Outcome)
    requires path in p.files
    ensures !r.found ==> r.fields == []
  {
    Combine(OfNode(p, path, arm, depth, visited, true), NameOf(arm, depth), Nothing)
  }

  lemma AfterArm(p: Program, path: string, arms: seq<TypeNode>, i: nat, depth: nat, visited: set<Key>, done: Outcome)
    requires path in p.files && i < |arms|
    ensures After(done, OfArms(p, path, arms[i..], depth, visited, true))
         == After(After(done, OneArm(p, path, arms[i], depth, visited)), OfArms(p, path, arms[i + 1..], depth, visited, true))
  {
    hide OfNode;
    assert arms[i..][1..] == arms[i + 1..];
    var arm := OfNode(p, path, arms[i], depth, visited, true);
    AfterCombine(done, arm, NameOf(arms[i], depth), OfArms(p, path, arms[i + 1..], depth, visited, true));
  }

  lemma AppendsRegroup<T>(a: seq<T>, b: seq<T>, c: seq<T>)
    ensures (a + b) + c == a + (b + c)
    ensures a + [] == a
  {
  }

  lemma UnionsRegroup<T>(a: set<T>, b: set<T>, c: set<T>)
    ensures (a + b) + c == a + (b + c)
  {
  }

  lemma AfterCombine(done: Outcome, arm: Outcome, name: string, rest: Outcome)
    requires !arm.found ==> arm.fields == []
    ensures After(done, Combine(arm, name, rest)) == After(After(done, Combine(arm, name, Nothing)), rest)
  {
    assert arm.fields + [] == arm.fields && arm.notes + [] == arm.notes;
    assert arm.notes + Note(name) + [] == arm.notes + Note(name);
  }
}

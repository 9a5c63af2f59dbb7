/**
 The guard of internal/types/extract.go against a type that refers to itself costs
 nothing: a declaration met again deeper on one path could only repeat, under a
 smaller bound, what it already began.
 */
module ExtractGuard {
  import opened Wrappers
  import opened Shapes
  import opened Extract

  /** The things the guard could cost: a field name, the found flag, a source file, a name that leads nowhere. */
  datatype Yield = FieldName(name: string) | Found | Source(path: string) | Missing(name: string)

  /** No file of the program declares the name, or imports it from one that can be read. */
  predicate IsDead(p: Program, name: string) {
    name != "" && forall path :: path in p.files ==>
      Declared(p.files[path].declarations, name).None? &&
      (ImportedFrom(p, path, name).None? || ImportedFrom(p, path, name).value.0 !in p.files)
  }

  function Yields(p: Program, r: Outcome): set<Yield> {
    (set f | f in r.fields :: FieldName(f.name)) + (if r.found then {Found} else {}) + (set s | s in r.sources :: Source(s))
    + (set n | n in r.notes && IsDead(p, n) :: Missing(n))
  }

  lemma YieldsOfShape(p: Program, r: Outcome)
    ensures Yields(p, r.(fields := NewShape(r.fields))) == Yields(p, r)
  {
    NewShapeNames(r.fields);
    var shaped := r.(fields := NewShape(r.fields));
    forall y ensures y in Yields(p, shaped) <==> y in Yields(p, r) {
      if y.FieldName? {
        assert y in Yields(p, shaped) <==> y.name in Names(shaped.fields);
        assert y in Yields(p, r) <==> y.name in Names(r.fields);
      }
    }
  }

  lemma YieldsOfCombine(p: Program, arm: Outcome, name: string, rest: Outcome)
    requires !arm.found ==> arm.fields == []
    requires !arm.found && IsDead(p, name) ==> name in arm.notes
    ensures Yields(p, Combine(arm, name, rest)) == Yields(p, arm) + Yields(p, rest)
  {
    var both := Combine(arm, name, rest);
    forall y ensures y in Yields(p, both) <==> y in Yields(p, arm) + Yields(p, rest) {
    }
  }

  lemma YieldsOfSources(p: Program, r: Outcome, target: string)
    ensures Yields(p, r.(sources := {target} + r.sources)) == Yields(p, r) + {Source(target)}
  {
  }

  /** What a name yields when nothing guards it. */
  function Unguarded(p: Program, key: Key, depth: nat): set<Yield>
    requires key.0 in p.files
  {
    Yields(p, Resolve(p, key.0, key.1, depth, {}, false))
  }

  predicate InProgram(p: Program, visited: set<Key>) {
    forall k :: k in visited ==> k.0 in p.files && !IsDead(p, k.1)
  }

  /** A name that leads somewhere from some file is not dead. */
  lemma LiveName(p: Program, path: string, name: string, visited: set<Key>)
    requires path in p.files && InProgram(p, visited)
    requires Declared(p.files[path].declarations, name).Some? ||
             (ImportedFrom(p, path, name).Some? && ImportedFrom(p, path, name).value.0 in p.files)
    ensures InProgram(p, visited + {(path, name)})
  {
  }

  /** A reference to a dead name notes it, so noting it again for the arm adds nothing. */
  lemma DeadIsNoted(p: Program, path: string, node: TypeNode, depth: nat, visited: set<Key>, guarded: bool)
    requires path in p.files && (guarded ==> InProgram(p, visited)) && IsDead(p, NameOf(node, depth))
    ensures NameOf(node, depth) in OfNode(p, path, node, depth, visited, guarded).notes
  {
  }

  /** One arm of an intersection, and the rest of them. */
  lemma YieldsOfArms(p: Program, path: string, arms: seq<TypeNode>, depth: nat, visited: set<Key>, guarded: bool)
    requires path in p.files && (guarded ==> InProgram(p, visited)) && arms != []
    ensures Yields(p, OfArms(p, path, arms, depth, visited, guarded))
         == Yields(p, OfNode(p, path, arms[0], depth, visited, guarded))
          + Yields(p, OfArms(p, path, arms[1..], depth, visited, guarded))
  {
    hide OfNode, Yields, InProgram;
    if IsDead(p, NameOf(arms[0], depth)) { DeadIsNoted(p, path, arms[0], depth, visited, guarded); }
    hide IsDead;
    YieldsOfCombine(p, OfNode(p, path, arms[0], depth, visited, guarded), NameOf(arms[0], depth),
                    OfArms(p, path, arms[1..], depth, visited, guarded));
  }

  // Deeper in, a walk yields no more: three mutually recursive lemmas.

  lemma {:induction false} DeeperNode(p: Program, path: string, node: TypeNode, depth: nat, visited: set<Key>, guarded: bool)
    requires path in p.files && (guarded ==> InProgram(p, visited))
    ensures Yields(p, OfNode(p, path, node, depth + 1, visited, guarded)) <= Yields(p, OfNode(p, path, node, depth, visited, guarded))
    decreases Budget(depth), 2, 0
  {
    hide NewShape, FieldsOf;
    if depth + 1 <= MAX_DEPTH {
      match node
      case Reference(Some(name)) => DeeperResolve(p, path, name, depth, visited, guarded);
      case Intersection(arms) =>
        DeeperArms(p, path, arms, depth + 1, visited, guarded);
        YieldsOfShape(p, OfArms(p, path, arms, depth + 2, visited, guarded));
        YieldsOfShape(p, OfArms(p, path, arms, depth + 1, visited, guarded));
      case _ =>
    }
  }

  lemma {:induction false} DeeperArms(p: Program, path: string, arms: seq<TypeNode>, depth: nat, visited: set<Key>, guarded: bool)
    requires path in p.files && (guarded ==> InProgram(p, visited))
    ensures Yields(p, OfArms(p, path, arms, depth + 1, visited, guarded)) <= Yields(p, OfArms(p, path, arms, depth, visited, guarded))
    decreases Budget(depth), 3, |arms|
  {
    if arms != [] {
      DeeperNode(p, path, arms[0], depth, visited, guarded);
      DeeperArms(p, path, arms[1..], depth, visited, guarded);
      YieldsOfArms(p, path, arms, depth + 1, visited, guarded);
      YieldsOfArms(p, path, arms, depth, visited, guarded);
    }
  }

  lemma {:induction false} DeeperResolve(p: Program, path: string, name: string, depth: nat, visited: set<Key>, guarded: bool)
    requires path in p.files && (guarded ==> InProgram(p, visited))
    ensures Yields(p, Resolve(p, path, name, depth + 1, visited, guarded)) <= Yields(p, Resolve(p, path, name, depth, visited, guarded))
    decreases Budget(depth), 1, 0
  {
    hide NewShape, FieldsOf, OfNode, Declared, ImportOf, Yields;
    NothingYields(p);
    if depth + 1 <= MAX_DEPTH && !(guarded && (path, name) in visited) {
      var visited' := if guarded then visited + {(path, name)} else visited;
      match Declared(p.files[path].declarations, name)
      case Some(Interface(members)) =>
      case Some(Alias(node)) =>
        if guarded { LiveName(p, path, name, visited); }
        DeeperNode(p, path, node, depth + 1, visited', guarded);
      case None =>
        match ImportedFrom(p, path, name)
        case None =>
        case Some((target, exported)) =>
          if target in p.files {
            if guarded { LiveName(p, path, name, visited); }
            DeeperResolve(p, target, exported, depth + 1, visited', guarded);
            YieldsOfSources(p, Resolve(p, target, exported, depth + 2, visited', guarded), target);
            YieldsOfSources(p, Resolve(p, target, exported, depth + 1, visited', guarded), target);
          }
    }
  }

  // The guard only removes.

  lemma {:induction false} GuardRemovesNode(p: Program, path: string, node: TypeNode, depth: nat, visited: set<Key>)
    requires path in p.files && InProgram(p, visited)
    ensures Yields(p, OfNode(p, path, node, depth, visited, true)) <= Yields(p, OfNode(p, path, node, depth, {}, false))
    decreases Budget(depth), 2, 0
  {
    NothingYields(p);
    hide NewShape, FieldsOf, Yields, Resolve, OfArms;
    if depth <= MAX_DEPTH {
      match node
      case Reference(Some(name)) => GuardRemovesResolve(p, path, name, depth, visited);
      case Intersection(arms) =>
        GuardRemovesArms(p, path, arms, depth + 1, visited);
        YieldsOfShape(p, OfArms(p, path, arms, depth + 1, visited, true));
        YieldsOfShape(p, OfArms(p, path, arms, depth + 1, {}, false));
      case _ =>
    }
  }

  lemma {:induction false} GuardRemovesArms(p: Program, path: string, arms: seq<TypeNode>, depth: nat, visited: set<Key>)
    requires path in p.files && InProgram(p, visited)
    ensures Yields(p, OfArms(p, path, arms, depth, visited, true)) <= Yields(p, OfArms(p, path, arms, depth, {}, false))
    decreases Budget(depth), 3, |arms|
  {
    if arms != [] {
      GuardRemovesNode(p, path, arms[0], depth, visited);
      GuardRemovesArms(p, path, arms[1..], depth, visited);
      YieldsOfArms(p, path, arms, depth, visited, true);
      YieldsOfArms(p, path, arms, depth, {}, false);
    }
  }

  lemma {:induction false} GuardRemovesResolve(p: Program, path: string, name: string, depth: nat, visited: set<Key>)
    requires path in p.files && InProgram(p, visited)
    ensures Yields(p, Resolve(p, path, name, depth, visited, true)) <= Yields(p, Resolve(p, path, name, depth, {}, false))
    decreases Budget(depth), 1, 0
  {
    hide NewShape, FieldsOf, OfNode, Declared, ImportOf, Yields;
    NothingYields(p);
    if depth <= MAX_DEPTH && (path, name) !in visited {
      var visited' := visited + {(path, name)};
      match Declared(p.files[path].declarations, name)
      case Some(Interface(members)) =>
      case Some(Alias(node)) =>
        LiveName(p, path, name, visited);
        GuardRemovesNode(p, path, node, depth + 1, visited');
      case None =>
        match ImportedFrom(p, path, name)
        case None =>
        case Some((target, exported)) =>
          if target in p.files {
            LiveName(p, path, name, visited);
            GuardRemovesResolve(p, target, exported, depth + 1, visited');
            YieldsOfSources(p, Resolve(p, target, exported, depth + 1, visited', true), target);
            YieldsOfSources(p, Resolve(p, target, exported, depth + 1, {}, false), target);
          }
    }
  }

  // What it removes, some name on the current path yields from where it stands:
  // the path to it can be cut short.

  lemma {:induction false} CutNode(p: Program, path: string, node: TypeNode, depth: nat, visited: set<Key>, y: Yield)
    requires path in p.files && InProgram(p, visited)
    requires y in Yields(p, OfNode(p, path, node, depth, {}, false))
    ensures y in Yields(p, OfNode(p, path, node, depth, visited, true)) ||
            exists k :: k in visited && y in Unguarded(p, k, depth)
    decreases Budget(depth), 2, 0
  {
    NothingYields(p);
    hide NewShape, FieldsOf, Yields, Unguarded, Resolve, OfArms;
    match node
    case Reference(Some(name)) => CutResolve(p, path, name, depth, visited, y);
    case Intersection(arms) =>
      YieldsOfShape(p, OfArms(p, path, arms, depth + 1, {}, false));
      YieldsOfShape(p, OfArms(p, path, arms, depth + 1, visited, true));
      CutArms(p, path, arms, depth + 1, visited, y);
      if y !in Yields(p, OfArms(p, path, arms, depth + 1, visited, true)) {
        var k :| k in visited && y in Unguarded(p, k, depth + 1);
        DeeperUnguarded(p, k, depth);
      }
    case _ =>
  }

  lemma NothingYields(p: Program)
    ensures Yields(p, Nothing) == {}
  {
  }

  lemma DeeperUnguarded(p: Program, key: Key, depth: nat)
    requires key.0 in p.files
    ensures Unguarded(p, key, depth + 1) <= Unguarded(p, key, depth)
  {
    DeeperResolve(p, key.0, key.1, depth, {}, false);
  }

  lemma {:induction false} CutArms(p: Program, path: string, arms: seq<TypeNode>, depth: nat, visited: set<Key>, y: Yield)
    requires path in p.files && InProgram(p, visited)
    requires y in Yields(p, OfArms(p, path, arms, depth, {}, false))
    ensures y in Yields(p, OfArms(p, path, arms, depth, visited, true)) ||
            exists k :: k in visited && y in Unguarded(p, k, depth)
    decreases Budget(depth), 3, |arms|
  {
    YieldsOfArms(p, path, arms, depth, visited, true);
    YieldsOfArms(p, path, arms, depth, {}, false);
    if y in Yields(p, OfNode(p, path, arms[0], depth, {}, false)) {
      CutNode(p, path, arms[0], depth, visited, y);
    } else {
      CutArms(p, path, arms[1..], depth, visited, y);
    }
  }

  lemma {:induction false} CutResolve(p: Program, path: string, name: string, depth: nat, visited: set<Key>, y: Yield)
    requires path in p.files && InProgram(p, visited)
    requires y in Yields(p, Resolve(p, path, name, depth, {}, false))
    ensures y in Yields(p, Resolve(p, path, name, depth, visited, true)) ||
            exists k :: k in visited && y in Unguarded(p, k, depth)
    decreases Budget(depth), 1, 0
  {
    hide NewShape, FieldsOf, OfNode, Declared, ImportOf, Yields;
    NothingYields(p);
    var key := (path, name);
    if key in visited {
      assert y in Unguarded(p, key, depth);
    } else {
      var visited' := visited + {key};
      match Declared(p.files[path].declarations, name)
      case Some(Interface(members)) =>
      case Some(Alias(node)) =>
        LiveName(p, path, name, visited);
        CutNode(p, path, node, depth + 1, visited', y);
        if y !in Yields(p, OfNode(p, path, node, depth + 1, visited', true)) {
          CutAgain(p, key, depth, visited, y);
        }
      case None =>
        match ImportedFrom(p, path, name)
        case None =>
        case Some((target, exported)) =>
          if target in p.files {
            YieldsOfSources(p, Resolve(p, target, exported, depth + 1, visited', true), target);
            YieldsOfSources(p, Resolve(p, target, exported, depth + 1, {}, false), target);
            if y != Source(target) {
              LiveName(p, path, name, visited);
              CutResolve(p, target, exported, depth + 1, visited', y);
              if y !in Yields(p, Resolve(p, target, exported, depth + 1, visited', true)) {
                CutAgain(p, key, depth, visited, y);
              }
            }
          }
    }
  }

  /** A walk that came back to `key` one step deeper can start over from there. */
  lemma {:induction false} CutAgain(p: Program, key: Key, depth: nat, visited: set<Key>, y: Yield)
    requires depth <= MAX_DEPTH
    requires key.0 in p.files && InProgram(p, visited)
    requires exists k :: k in visited + {key} && y in Unguarded(p, k, depth + 1)
    ensures y in Yields(p, Resolve(p, key.0, key.1, depth, visited, true)) ||
            exists k :: k in visited && y in Unguarded(p, k, depth)
    decreases Budget(depth), 0, 0
  {
    hide Yields, IsDead, Resolve;
    var k :| k in visited + {key} && y in Unguarded(p, k, depth + 1);
    if k == key {
      CutResolve(p, key.0, key.1, depth + 1, visited, y);
      if y in Yields(p, Resolve(p, key.0, key.1, depth + 1, visited, true)) {
        DeeperResolve(p, key.0, key.1, depth, visited, true);
      } else {
        var k' :| k' in visited && y in Unguarded(p, k', depth + 1);
        DeeperResolve(p, k'.0, k'.1, depth, {}, false);
      }
    } else {
      DeeperResolve(p, k.0, k.1, depth, {}, false);
    }
  }

  /**
   The guard costs nothing: over every program, cyclic or not, guarded resolution
   finds the field names, the verdict and the source files of plain unfolding to
   the depth bound, and leaves unresolved the same of the names that lead nowhere.
   */
  lemma GuardIsFree(p: Program, path: string, node: TypeNode, depth: nat)
    requires path in p.files
    ensures var guarded, plain := OfNode(p, path, node, depth, {}, true), OfNode(p, path, node, depth, {}, false);
      && Names(guarded.fields) == Names(plain.fields)
      && guarded.found == plain.found
      && guarded.sources == plain.sources
      && forall n :: IsDead(p, n) ==> (n in guarded.notes <==> n in plain.notes)
  {
    var guarded, plain := OfNode(p, path, node, depth, {}, true), OfNode(p, path, node, depth, {}, false);
    hide OfNode, Yields;
    GuardRemovesNode(p, path, node, depth, {});
    forall y | y in Yields(p, plain) ensures y in Yields(p, guarded) {
      CutNode(p, path, node, depth, {}, y);
    }
    assert Yields(p, guarded) == Yields(p, plain);
    hide IsDead;
    SameNames(p, guarded, plain);
    SameRest(p, guarded, plain);
  }

  lemma SameNames(p: Program, a: Outcome, b: Outcome)
    requires Yields(p, a) == Yields(p, b)
    ensures Names(a.fields) == Names(b.fields)
  {
    forall name ensures name in Names(a.fields) <==> name in Names(b.fields) {
      assert name in Names(a.fields) <==> FieldName(name) in Yields(p, a);
      assert name in Names(b.fields) <==> FieldName(name) in Yields(p, b);
    }
  }

  lemma SameRest(p: Program, a: Outcome, b: Outcome)
    requires Yields(p, a) == Yields(p, b)
    ensures a.found == b.found && a.sources == b.sources
    ensures forall n :: IsDead(p, n) ==> (n in a.notes <==> n in b.notes)
  {
    hide IsDead;
    assert a.found <==> Found in Yields(p, a);
    assert b.found <==> Found in Yields(p, b);
    forall s ensures s in a.sources <==> s in b.sources {
      assert s in a.sources <==> Source(s) in Yields(p, a);
      assert s in b.sources <==> Source(s) in Yields(p, b);
    }
    forall n | IsDead(p, n) ensures n in a.notes <==> n in b.notes {
      assert n in a.notes <==> Missing(n) in Yields(p, a);
      assert n in b.notes <==> Missing(n) in Yields(p, b);
    }
  }

  /**
   What a file declares under a name: an interface has, for each name, the first member
   that declares it, and reads no other file; an alias has what plain unfolding of its
   type node, one step deeper, finds.
   */
  lemma DeclarationIsFree(p: Program, path: string, name: string, depth: nat)
    requires path in p.files && depth <= MAX_DEPTH
    requires Declared(p.files[path].declarations, name).Some?
    ensures var r := Resolve(p, path, name, depth, {}, true);
      match Declared(p.files[path].declarations, name).value
      case Interface(members) =>
        && r.found && r.sources == {} && r.notes == [] && IsShape(r.fields)
        && forall n :: FirstNamed(r.fields, n) == FirstNamed(FieldsOf(members), n)
      case Alias(node) =>
        var plain := OfNode(p, path, node, depth + 1, {}, false);
        Names(r.fields) == Names(plain.fields) && r.found == plain.found && r.sources == plain.sources
  {
    match Declared(p.files[path].declarations, name).value
    case Interface(members) =>
      var fields := FieldsOf(members);
      assert Resolve(p, path, name, depth, {}, true) == Outcome(NewShape(fields), true, {}, []);
      hide Resolve, FieldsOf, NewShape, FirstNamed, IsShape;
      NewShapeKeepsFirst(fields, name);
      forall n ensures FirstNamed(NewShape(fields), n) == FirstNamed(fields, n) { NewShapeKeepsFirst(fields, n); }
    case Alias(node) =>
      assert Resolve(p, path, name, depth, {}, false) == OfNode(p, path, node, depth + 1, {}, false);
      hide Resolve, FieldsOf, NewShape;
      assert OfNode(p, path, Reference(Some(name)), depth, {}, true) == Resolve(p, path, name, depth, {}, true);
      assert OfNode(p, path, Reference(Some(name)), depth, {}, false) == Resolve(p, path, name, depth, {}, false);
      hide OfNode;
      GuardIsFree(p, path, Reference(Some(name)), depth);
  }
}

/**
 Embedding, as internal/types/mapper.go collects it: what a struct declares itself
 comes before anything an embedded struct promotes to it.
 */
module Promotion {
  import opened Shapes
  import opened Mapper
  import opened MapperWalk

  predicate IsOwn(sf: StructField) {
    !IsSkipped(sf) && !IsFlattened(sf)
  }

  function OwnCandidate(w: World, sf: StructField, depth: nat, embedDepth: nat, seen: set<string>): Candidate {
    var (ts, optional) := FieldType(w, sf.ty, sf.tag, depth + 1, seen);
    Candidate(Field(JsonName(sf), ts, optional), embedDepth, sf.tag.hasName)
  }

  /** The candidates a struct's own fields are, under one name. */
  function OwnNamed(w: World, fields: seq<StructField>, name: string, depth: nat, embedDepth: nat,
                    seen: set<string>): seq<Candidate> {
    if fields == [] then []
    else
      (if IsOwn(fields[0]) && JsonName(fields[0]) == name then [OwnCandidate(w, fields[0], depth, embedDepth, seen)]
       else []) + OwnNamed(w, fields[1..], name, depth, embedDepth, seen)
  }

  predicate AreDeep(cs: seq<Candidate>, depth: nat) {
    forall i :: 0 <= i < |cs| ==> depth <= cs[i].depth
  }

  lemma {:induction false} CollectIsDeep(w: World, fields: seq<StructField>, depth: nat, embedDepth: nat, seen: set<string>)
    ensures AreDeep(Collect(w, fields, depth, embedDepth, seen), embedDepth)
    decreases Unseen(w, seen), 6, |fields|
  {
    hide CollectField;
    if fields != [] {
      CollectFieldIsDeep(w, fields[0], depth, embedDepth, seen);
      CollectIsDeep(w, fields[1..], depth, embedDepth, seen);
    }
  }

  lemma {:induction false} CollectFieldIsDeep(w: World, sf: StructField, depth: nat, embedDepth: nat, seen: set<string>)
    ensures AreDeep(CollectField(w, sf, depth, embedDepth, seen), embedDepth)
    ensures !IsOwn(sf) ==> AreDeep(CollectField(w, sf, depth, embedDepth, seen), embedDepth + 1)
    decreases Unseen(w, seen), 5
  {
    hide Collect, FieldType;
    if !IsSkipped(sf) && IsFlattened(sf) {
      var ft := Deref(sf.ty);
      if ft.Struct? && ft.id in w.structs && ft.id !in seen {
        Entering(w, ft.id, seen);
        CollectIsDeep(w, w.structs[ft.id], depth, embedDepth + 1, seen + {ft.id});
      }
    }
  }

  lemma Regroup(first: seq<Candidate>, x: seq<Candidate>, y: seq<Candidate>)
    ensures (first + x) + y == first + (x + y)
  {
  }

  lemma {:induction false} GroupSplits(a: seq<Candidate>, b: seq<Candidate>, name: string)
    ensures Group(a + b, name) == Group(a, name) + Group(b, name)
  {
    if a == [] {
      assert a + b == b;
    } else {
      assert (a + b)[1..] == a[1..] + b;
      GroupSplits(a[1..], b, name);
      Regroup(if a[0].field.name == name then [a[0]] else [], Group(a[1..], name), Group(b, name));
    }
  }

  lemma {:induction false} AtDepthSplits(a: seq<Candidate>, b: seq<Candidate>, depth: nat)
    ensures AtDepth(a + b, depth) == AtDepth(a, depth) + AtDepth(b, depth)
  {
    if a == [] {
      assert a + b == b;
    } else {
      assert (a + b)[1..] == a[1..] + b;
      AtDepthSplits(a[1..], b, depth);
      Regroup(if a[0].depth == depth then [a[0]] else [], AtDepth(a[1..], depth), AtDepth(b, depth));
    }
  }

  lemma {:induction false} NoneAtDepth(cs: seq<Candidate>, name: string, depth: nat)
    requires AreDeep(cs, depth + 1)
    ensures AtDepth(Group(cs, name), depth) == []
  {
    var deep := AtDepth(Group(cs, name), depth);
    if deep != [] {
      AtDepthCounts(Group(cs, name), depth, deep[0]);
      assert deep[0] in deep && deep[0] in multiset(Group(cs, name));
      GroupHolds(cs, name, deep[0]);
      assert false;
    }
  }

  /** At the embedding depth of a struct there are its own fields, and nothing promoted. */
  lemma {:induction false} OwnAreAtDepth(w: World, fields: seq<StructField>, name: string, depth: nat, embedDepth: nat,
                                         seen: set<string>)
    ensures AtDepth(Group(Collect(w, fields, depth, embedDepth, seen), name), embedDepth)
         == OwnNamed(w, fields, name, depth, embedDepth, seen)
    decreases |fields|
  {
    hide CollectField, IsOwn;
    if fields != [] {
      var first := CollectField(w, fields[0], depth, embedDepth, seen);
      var rest := Collect(w, fields[1..], depth, embedDepth, seen);
      OwnAreAtDepth(w, fields[1..], name, depth, embedDepth, seen);
      GroupSplits(first, rest, name);
      AtDepthSplits(Group(first, name), Group(rest, name), embedDepth);
      FirstAtDepth(w, fields[0], name, depth, embedDepth, seen);
    }
  }

  lemma FirstAtDepth(w: World, sf: StructField, name: string, depth: nat, embedDepth: nat, seen: set<string>)
    ensures AtDepth(Group(CollectField(w, sf, depth, embedDepth, seen), name), embedDepth)
         == if IsOwn(sf) && JsonName(sf) == name then [OwnCandidate(w, sf, depth, embedDepth, seen)] else []
  {
    if IsOwn(sf) {
      var c := OwnCandidate(w, sf, depth, embedDepth, seen);
      assert CollectField(w, sf, depth, embedDepth, seen) == [c] && [c][1..] == [];
      hide CollectField, OwnCandidate, IsOwn;
      assert Group([c], name) == (if c.field.name == name then [c] else []) + Group([], name);
      assert AtDepth([c], embedDepth) == (if c.depth == embedDepth then [c] else []) + AtDepth([], embedDepth);
    } else {
      CollectFieldIsDeep(w, sf, depth, embedDepth, seen);
      NoneAtDepth(CollectField(w, sf, depth, embedDepth, seen), name, embedDepth);
    }
  }

  lemma {:induction false} ShallowestAt(cs: seq<Candidate>, name: string, depth: nat)
    requires AreDeep(cs, depth) && AtDepth(Group(cs, name), depth) != []
    ensures Group(cs, name) != [] && Shallowest(Group(cs, name)) == depth
  {
    var group := Group(cs, name);
    var c := AtDepth(group, depth)[0];
    AtDepthCounts(group, depth, c);
    assert c in AtDepth(group, depth);
    assert multiset(group)[c] > 0 && c.depth == depth;
    assert c in group;
    forall o | o in group ensures depth <= o.depth {
      GroupHolds(cs, name, o);
    }
  }

  /**
   A field a struct declares itself is in its shape, with its own type, whenever no
   other field it declares has the name: whatever embedded structs promote.
   */
  lemma OwnFieldWins(w: World, id: string, depth: nat, seen: set<string>, sf: StructField)
    requires depth <= w.maxDepth && id in w.structs && id !in seen
    requires OwnNamed(w, w.structs[id], JsonName(sf), depth, 0, seen + {id})
          == [OwnCandidate(w, sf, depth, 0, seen + {id})]
    ensures OwnCandidate(w, sf, depth, 0, seen + {id}).field in StructFields(w, id, depth, seen)
  {
    var cs, name := Candidates(w, id, depth, seen), JsonName(sf);
    var c := OwnCandidate(w, sf, depth, 0, seen + {id});
    hide OwnCandidate, Collect, AtDepth, Group, Shallowest, Picked, Wins;
    CollectIsDeep(w, w.structs[id], depth, 0, seen + {id});
    OwnAreAtDepth(w, w.structs[id], name, depth, 0, seen + {id});
    ShallowestAt(cs, name, 0);
    ShallowIs(Group(cs, name), c);
    ShallowWins(Group(cs, name), c);
    WinnerIn(Group(cs, name), c);
    GroupHolds(cs, name, c);
    PickedHolds(cs, c.field);
  }

  lemma ShallowWins(group: seq<Candidate>, c: Candidate)
    requires UniquelyShallowest(multiset(group), c)
    ensures Wins(multiset(group), c)
  {
  }

  /** Embedded deeper, a struct's fields are candidates one step further down, and no others are. */
  lemma EmbeddedIsDeeper(w: World, sf: StructField, depth: nat, embedDepth: nat, seen: set<string>, c: Candidate)
    requires !IsSkipped(sf) && IsFlattened(sf) && c in CollectField(w, sf, depth, embedDepth, seen)
    ensures c.depth > embedDepth
  {
    CollectFieldIsDeep(w, sf, depth, embedDepth, seen);
  }
}
